/** The commit timeline: commits sorted along an axis, clustered greedily, with time ticks below.
    Times and positions are real numbers; a commit without a finite time has none. */
module Timeline {
  import opened Collections
  import opened Wrappers
  import opened TimelineTicks

  datatype Entry = Entry(hash: string, time: Option<real>)
  datatype Commit = Commit(hash: string, time: real)
  datatype Cluster = Cluster(position: real, hashes: seq<string>)
  datatype Timeline = Timeline(clusters: seq<Cluster>, undated: seq<string>, ticks: seq<(real, real)>)

  // ----- Sorting -----

  function Dated(entries: seq<Entry>): seq<Commit> {
    if entries == [] then []
    else (if entries[0].time.Some? then [Commit(entries[0].hash, entries[0].time.value)] else []) + Dated(entries[1..])
  }

  function Undated(entries: seq<Entry>): seq<string> {
    if entries == [] then []
    else (if entries[0].time.None? then [entries[0].hash] else []) + Undated(entries[1..])
  }

  /** Lexicographic order of hashes. */
  predicate TextLeq(a: string, b: string) {
    a == "" || (b != "" && (a[0] < b[0] || (a[0] == b[0] && TextLeq(a[1..], b[1..]))))
  }

  predicate Leq(a: Commit, b: Commit) {
    a.time < b.time || (a.time == b.time && TextLeq(a.hash, b.hash))
  }

  lemma {:induction false} TextOrder(a: string, b: string, c: string)
    ensures TextLeq(a, b) || TextLeq(b, a)
    ensures TextLeq(a, b) && TextLeq(b, a) ==> a == b
    ensures TextLeq(a, b) && TextLeq(b, c) ==> TextLeq(a, c)
  {
    if a != "" && b != "" {
      TextOrder(a[1..], b[1..], if c == "" then c else c[1..]);
      assert a == [a[0]] + a[1..] && b == [b[0]] + b[1..];
    }
  }

  predicate Sorted(commits: seq<Commit>) {
    forall i, j :: 0 <= i < j < |commits| ==> Leq(commits[i], commits[j])
  }

  function Insert(c: Commit, sorted: seq<Commit>): (r: seq<Commit>)
    ensures multiset(r) == multiset(sorted) + multiset{c}
  {
    if sorted == [] || Leq(c, sorted[0]) then [c] + sorted
    else
      assert sorted == [sorted[0]] + sorted[1..];
      [sorted[0]] + Insert(c, sorted[1..])
  }

  lemma {:induction false} InsertSorts(c: Commit, sorted: seq<Commit>)
    requires Sorted(sorted)
    ensures Sorted(Insert(c, sorted))
  {
    if sorted == [] {
    } else if Leq(c, sorted[0]) {
      forall j | 0 <= j < |sorted| ensures Leq(c, sorted[j]) {
        TextOrder(c.hash, sorted[0].hash, sorted[j].hash);
      }
    } else {
      var rest := Insert(c, sorted[1..]);
      InsertSorts(c, sorted[1..]);
      TextOrder(c.hash, sorted[0].hash, "");
      forall j | 0 <= j < |rest| ensures Leq(sorted[0], rest[j]) {
        assert rest[j] in multiset(rest);
        assert rest[j] == c || rest[j] in sorted[1..];
      }
    }
  }

  /** `sort_by` time, then hash. The order is total, so any sort gives this sequence. */
  function Sort(commits: seq<Commit>): (r: seq<Commit>)
    ensures multiset(r) == multiset(commits)
  {
    if commits == [] then []
    else
      assert commits == [commits[0]] + commits[1..];
      Insert(commits[0], Sort(commits[1..]))
  }

  lemma {:induction false} SortSorts(commits: seq<Commit>)
    ensures Sorted(Sort(commits))
  {
    if commits != [] {
      SortSorts(commits[1..]);
      InsertSorts(commits[0], Sort(commits[1..]));
    }
  }

  lemma LeqAntisymmetric(a: Commit, b: Commit)
    requires Leq(a, b) && Leq(b, a)
    ensures a == b
  {
    TextOrder(a.hash, b.hash, "");
  }

  lemma FirstIsLeast(sorted: seq<Commit>, c: Commit)
    requires Sorted(sorted) && c in multiset(sorted)
    ensures Leq(sorted[0], c)
  {
    TextOrder(c.hash, c.hash, "");
    var i :| 0 <= i < |sorted| && sorted[i] == c;
  }

  lemma RestOf(s: seq<Commit>)
    requires s != []
    ensures multiset(s[1..]) == multiset(s) - multiset{s[0]}
  {
    assert s == [s[0]] + s[1..];
  }

  /** A sorted sequence is determined by its elements. */
  lemma {:induction false} SortedIsUnique(a: seq<Commit>, b: seq<Commit>)
    requires Sorted(a) && Sorted(b) && multiset(a) == multiset(b)
    ensures a == b
    decreases |a|
  {
    assert |a| == |multiset(a)| == |multiset(b)| == |b|;
    if a != [] {
      assert a[0] in multiset(a) && b[0] in multiset(b);
      FirstIsLeast(a, b[0]);
      FirstIsLeast(b, a[0]);
      LeqAntisymmetric(a[0], b[0]);
      RestOf(a);
      RestOf(b);
      SortedIsUnique(a[1..], b[1..]);
    }
  }

  // ----- Positions -----

  function Position(time: real, min: real, span: real): real {
    if span == 0.0 then 0.5 else (time - min) / span
  }

  function PositionOf(commits: seq<Commit>, i: nat): real
    requires i < |commits|
  {
    Position(commits[i].time, commits[0].time, commits[|commits| - 1].time - commits[0].time)
  }

  /** How far along the axis each commit lies, in pixels. */
  function Pixels(commits: seq<Commit>, scale: real): (ps: seq<real>)
    ensures |ps| == |commits|
  {
    seq(|commits|, i requires 0 <= i < |commits| => PositionOf(commits, i) * scale)
  }

  predicate Ascending(ps: seq<real>) {
    forall i, j :: 0 <= i < j < |ps| ==> ps[i] <= ps[j]
  }

  lemma PositionMonotone(a: real, b: real, min: real, span: real, scale: real)
    requires a <= b && span >= 0.0 && scale >= 1.0
    ensures Position(a, min, span) * scale <= Position(b, min, span) * scale
  {
    if span != 0.0 {
      assert (a - min) / span <= (b - min) / span;
    }
  }

  lemma PixelsMonotone(commits: seq<Commit>, scale: real, i: nat, j: nat)
    requires Sorted(commits) && scale >= 1.0 && i < j < |commits|
    ensures Pixels(commits, scale)[i] <= Pixels(commits, scale)[j]
  {
    var min := commits[0].time;
    var span := commits[|commits| - 1].time - min;
    assert Leq(commits[i], commits[j]) && Leq(commits[0], commits[|commits| - 1]);
    PositionMonotone(commits[i].time, commits[j].time, min, span, scale);
    assert Pixels(commits, scale)[i] == Position(commits[i].time, min, span) * scale;
    assert Pixels(commits, scale)[j] == Position(commits[j].time, min, span) * scale;
  }

  lemma PixelsAscend(commits: seq<Commit>, scale: real)
    requires Sorted(commits) && scale >= 1.0
    ensures Ascending(Pixels(commits, scale))
  {
    var ps := Pixels(commits, scale);
    forall i, j | 0 <= i < j < |ps| ensures ps[i] <= ps[j] {
      PixelsMonotone(commits, scale, i, j);
    }
  }

  // ----- Clusters -----

  /** `b` lies less than 32 pixels after `a`. */
  predicate Near(a: real, b: real) {
    b - a < 32.0
  }

  /** The indices at which the greedy pass over the first `n` commits opens a cluster. */
  function Starts(ps: seq<real>, n: nat): (starts: seq<nat>)
    requires n <= |ps|
    ensures forall k :: 0 <= k < |starts| ==> starts[k] < n
  {
    if n == 0 then []
    else
      var starts := Starts(ps, n - 1);
      if starts != [] && Near(ps[starts[|starts| - 1]], ps[n - 1]) then starts else starts + [n - 1]
  }

  predicate Increasing(starts: seq<nat>, n: nat) {
    && (forall a, b :: 0 <= a < b < |starts| ==> starts[a] < starts[b])
    && (forall k :: 0 <= k < |starts| ==> starts[k] < n)
  }

  /** Index `i` belongs to cluster `k`: it is not before its start, and before the next one. */
  predicate Member(starts: seq<nat>, k: nat, i: nat)
    requires k < |starts|
  {
    starts[k] <= i && (k + 1 < |starts| ==> i < starts[k + 1])
  }

  /** Consecutive starts are at least 32 pixels apart. */
  predicate Apart(ps: seq<real>, starts: seq<nat>)
    requires Increasing(starts, |ps|)
  {
    forall k :: 0 < k < |starts| ==> !Near(ps[starts[k - 1]], ps[starts[k]])
  }

  /** Each of the first `n` commits lies within 32 pixels of the start of its own cluster. */
  predicate Covered(ps: seq<real>, n: nat, starts: seq<nat>)
    requires n <= |ps| && Increasing(starts, |ps|)
  {
    forall k, i :: 0 <= k < |starts| && 0 <= i < n && Member(starts, k, i) ==> Near(ps[starts[k]], ps[i])
  }

  predicate Greedy(ps: seq<real>, n: nat, starts: seq<nat>)
    requires n <= |ps|
  {
    && (n > 0 ==> starts != [] && starts[0] == 0)
    && Increasing(starts, n)
    && Apart(ps, starts)
    && Covered(ps, n, starts)
  }

  lemma JoinsLast(ps: seq<real>, n: nat, starts: seq<nat>)
    requires n < |ps| && starts != [] && Increasing(starts, n) && Covered(ps, n, starts)
    requires Near(ps[starts[|starts| - 1]], ps[n])
    ensures Covered(ps, n + 1, starts)
  {
    forall k, i | 0 <= k < |starts| && 0 <= i < n + 1 && Member(starts, k, i) ensures Near(ps[starts[k]], ps[i]) {
      assert i == n ==> k == |starts| - 1;
    }
  }

  lemma OpensOwn(ps: seq<real>, n: nat, starts: seq<nat>)
    requires n < |ps| && Increasing(starts, n) && Apart(ps, starts) && Covered(ps, n, starts)
    requires starts != [] ==> !Near(ps[starts[|starts| - 1]], ps[n])
    ensures Increasing(starts + [n], n + 1) && Apart(ps, starts + [n]) && Covered(ps, n + 1, starts + [n])
  {
    var more := starts + [n];
    forall k | 0 < k < |more| ensures !Near(ps[more[k - 1]], ps[more[k]]) {
      if k < |starts| {
        assert !Near(ps[starts[k - 1]], ps[starts[k]]);
      }
    }
    forall k, i | 0 <= k < |more| && 0 <= i < n + 1 && Member(more, k, i) ensures Near(ps[more[k]], ps[i]) {
      if k < |starts| {
        assert Member(starts, k, i) && i < n;
      } else {
        assert i == n;
      }
    }
  }

  lemma {:induction false} StartsAreGreedy(ps: seq<real>, n: nat)
    requires n <= |ps|
    ensures Greedy(ps, n, Starts(ps, n))
  {
    if n > 0 {
      StartsAreGreedy(ps, n - 1);
      var starts := Starts(ps, n - 1);
      if starts != [] && Near(ps[starts[|starts| - 1]], ps[n - 1]) {
        JoinsLast(ps, n - 1, starts);
      } else {
        OpensOwn(ps, n - 1, starts);
      }
    }
  }

  /** A grouping of the commits into groups `0..count`, in which every member lies less than 32
      pixels after every earlier one of its group, the earliest included. */
  predicate Fits(ps: seq<real>, group: seq<nat>, count: nat) {
    && |group| == |ps|
    && (forall i :: 0 <= i < |ps| ==> group[i] < count)
    && (forall i, j :: 0 <= i < |ps| && 0 <= j < |ps| && group[i] == group[j] ==> Near(ps[i], ps[j]))
  }

  /** Two cluster starts never share a group. */
  lemma StartsSeparate(ps: seq<real>, starts: seq<nat>, a: nat, b: nat)
    requires Ascending(ps) && Greedy(ps, |ps|, starts) && a < b < |starts|
    ensures !Near(ps[starts[a]], ps[starts[b]])
  {
    assert !Near(ps[starts[b - 1]], ps[starts[b]]);
    if a < b - 1 {
      assert ps[starts[a]] <= ps[starts[b - 1]];
    }
  }

  /** Distinct numbers below `count` are at most `count` many. */
  lemma {:induction false} Pigeonhole(xs: seq<nat>, count: nat)
    requires forall i :: 0 <= i < |xs| ==> xs[i] < count
    requires forall i, j :: 0 <= i < j < |xs| ==> xs[i] != xs[j]
    ensures |xs| <= count
    decreases count
  {
    if xs == [] {
      return;
    }
    assert xs[0] < count;
    if count - 1 in xs {
      var k :| 0 <= k < |xs| && xs[k] == count - 1;
      Pigeonhole(xs[..k] + xs[k + 1..], count - 1);
    } else {
      assert forall i :: 0 <= i < |xs| ==> xs[i] in xs;
      Pigeonhole(xs, count - 1);
    }
  }

  /** No grouping needs fewer groups than the greedy pass opens clusters. */
  lemma GreedyIsOptimal(ps: seq<real>, group: seq<nat>, count: nat)
    requires Ascending(ps) && Fits(ps, group, count)
    ensures |Starts(ps, |ps|)| <= count
  {
    var starts := Starts(ps, |ps|);
    StartsAreGreedy(ps, |ps|);
    var groups := seq(|starts|, k requires 0 <= k < |starts| => group[starts[k]]);
    forall a, b | 0 <= a < b < |groups| ensures groups[a] != groups[b] {
      StartsSeparate(ps, starts, a, b);
    }
    Pigeonhole(groups, count);
  }

  /** The cluster a commit belongs to. */
  function ClusterOf(starts: seq<nat>, upTo: nat, i: nat): nat
    requires upTo < |starts|
  {
    if upTo == 0 || starts[upTo] <= i then upTo else ClusterOf(starts, upTo - 1, i)
  }

  lemma {:induction false} ClusterOfHolds(starts: seq<nat>, upTo: nat, i: nat)
    requires upTo < |starts| && starts[0] <= i
    requires upTo + 1 < |starts| ==> i < starts[upTo + 1]
    ensures ClusterOf(starts, upTo, i) < |starts| && Member(starts, ClusterOf(starts, upTo, i), i)
  {
    if upTo > 0 && starts[upTo] > i {
      ClusterOfHolds(starts, upTo - 1, i);
    }
  }

  /** Two members of a greedy cluster are less than 32 pixels apart. */
  lemma SharedCluster(ps: seq<real>, starts: seq<nat>, k: nat, i: nat, j: nat)
    requires Ascending(ps) && Greedy(ps, |ps|, starts) && k < |starts| && i < |ps| && j < |ps|
    requires Member(starts, k, i) && Member(starts, k, j)
    ensures Near(ps[i], ps[j])
  {
    assert Near(ps[starts[k]], ps[j]);
    assert starts[k] < i ==> ps[starts[k]] <= ps[i];
  }

  /** The greedy clusters are themselves such a grouping, so their number is the least possible. */
  lemma GreedyFits(ps: seq<real>)
    requires Ascending(ps)
    ensures exists group :: Fits(ps, group, |Starts(ps, |ps|)|)
  {
    var starts := Starts(ps, |ps|);
    StartsAreGreedy(ps, |ps|);
    if ps == [] {
      assert Fits(ps, [], |starts|);
    } else {
      var last := |starts| - 1;
      var group := seq(|ps|, i requires 0 <= i < |ps| => ClusterOf(starts, last, i));
      forall i | 0 <= i < |ps| ensures group[i] < |starts| && Member(starts, group[i], i) {
        ClusterOfHolds(starts, last, i);
      }
      forall i, j | 0 <= i < |ps| && 0 <= j < |ps| && group[i] == group[j] ensures Near(ps[i], ps[j]) {
        SharedCluster(ps, starts, group[i], i, j);
      }
      assert Fits(ps, group, |starts|);
    }
  }

  // ----- The layout -----

  function Hashes(commits: seq<Commit>): (hashes: seq<string>)
    ensures |hashes| == |commits|
    ensures forall i :: 0 <= i < |commits| ==> hashes[i] == commits[i].hash
  {
    seq(|commits|, i requires 0 <= i < |commits| => commits[i].hash)
  }

  function AxisScale(width: real): (scale: real)
    ensures scale >= 1.0
  {
    if width > 1.0 then width else 1.0
  }

  /** The index at which cluster `k` of the first `n` commits ends. */
  function End(starts: seq<nat>, k: nat, n: nat): nat
    requires k < |starts|
  {
    if k + 1 < |starts| then starts[k + 1] else n
  }

  /** The cluster opened at `start` holds the hashes up to `end` and stands where its first commit does. */
  predicate ClusterAt(cluster: Cluster, commits: seq<Commit>, start: nat, end: nat) {
    && start < end <= |commits|
    && cluster.hashes == Hashes(commits)[start..end]
    && cluster.position == PositionOf(commits, start)
  }

  predicate ClustersAt(clusters: seq<Cluster>, commits: seq<Commit>, starts: seq<nat>, n: nat) {
    && |clusters| == |starts|
    && forall k :: 0 <= k < |starts| ==> ClusterAt(clusters[k], commits, starts[k], End(starts, k, n))
  }

  method SplitDated(entries: seq<Entry>) returns (dated: seq<Commit>, undated: seq<string>)
    ensures dated == Dated(entries) && undated == Undated(entries)
  {
    dated, undated := [], [];
    var i := 0;
    assert entries[0..] == entries;
    while i < |entries|
      invariant i <= |entries|
      invariant dated + Dated(entries[i..]) == Dated(entries)
      invariant undated + Undated(entries[i..]) == Undated(entries)
    {
      var entry := entries[i];
      assert entries[i..][1..] == entries[i + 1..];
      if entry.time.Some? {
        dated := dated + [Commit(entry.hash, entry.time.value)];
      } else {
        undated := undated + [entry.hash];
      }
      i := i + 1;
    }
  }

  method Layout(entries: seq<Entry>, width: real) returns (timeline: Timeline)
    ensures timeline.undated == Undated(entries)
    ensures var commits := Sort(Dated(entries));
            && LaidOut(timeline.clusters, commits, width)
            && (commits == [] ==> timeline.ticks == [])
            && (commits != [] ==>
                 && commits[0].time <= commits[|commits| - 1].time
                 && timeline.ticks == Ticks(commits[0].time, commits[|commits| - 1].time, width))
  {
    var dated, undated := SplitDated(entries);
    SortSorts(dated);
    dated := Sort(dated);
    if dated == [] {
      return Timeline([], undated, []);
    }
    FirstBeforeLast(dated);
    var min, max := dated[0].time, dated[|dated| - 1].time;
    var scale := AxisScale(width);
    PixelsAgree(dated, scale);
    var clusters := BuildClusters(dated, scale, Pixels(dated, scale));
    var ticks := DrawTicks(min, max, width);
    timeline := Timeline(clusters, undated, ticks);
  }

  lemma FirstBeforeLast(commits: seq<Commit>)
    requires Sorted(commits) && commits != []
    ensures commits[0].time <= commits[|commits| - 1].time
  {
    if |commits| > 1 {
      assert Leq(commits[0], commits[|commits| - 1]);
    }
  }

  /** The loop's test: the two positions are less than 32 pixels apart. */
  predicate Joins(position: real, leader: real, scale: real) {
    (position - leader) * scale < 32.0
  }

  /** The test on positions is the test on pixels. */
  predicate TestsAgree(commits: seq<Commit>, scale: real, ps: seq<real>) {
    && |ps| == |commits|
    && forall a, b :: 0 <= a < |ps| && 0 <= b < |ps| ==>
         (Near(ps[a], ps[b]) <==> Joins(PositionOf(commits, b), PositionOf(commits, a), scale))
  }

  lemma PixelsAgree(commits: seq<Commit>, scale: real)
    ensures TestsAgree(commits, scale, Pixels(commits, scale))
  {
    var ps := Pixels(commits, scale);
    forall a, b | 0 <= a < |ps| && 0 <= b < |ps|
      ensures Near(ps[a], ps[b]) <==> Joins(PositionOf(commits, b), PositionOf(commits, a), scale)
    {
      ScaleDifference(PositionOf(commits, b), PositionOf(commits, a), scale);
    }
  }

  lemma ScaleDifference(a: real, b: real, scale: real)
    ensures (a - b) * scale == a * scale - b * scale
  {
  }

  /** The commit at `n` joins the last of the clusters built so far. */
  predicate JoinsCluster(clusters: seq<Cluster>, commits: seq<Commit>, n: nat, scale: real)
    requires n < |commits|
  {
    clusters != [] && Joins(PositionOf(commits, n), clusters[|clusters| - 1].position, scale)
  }

  /** The greedy clusters of the first `n` commits. */
  predicate Built(clusters: seq<Cluster>, commits: seq<Commit>, ps: seq<real>, n: nat) {
    n <= |ps| && ClustersAt(clusters, commits, Starts(ps, n), n)
  }

  method BuildClusters(dated: seq<Commit>, scale: real, ghost ps: seq<real>) returns (clusters: seq<Cluster>)
    requires dated != [] && TestsAgree(dated, scale, ps)
    ensures Built(clusters, dated, ps, |dated|)
  {
    clusters := [];
    for n := 0 to |dated|
      invariant Built(clusters, dated, ps, n)
    {
      if JoinsCluster(clusters, dated, n, scale) {
        Extended(clusters, dated, ps, n, scale);
        var last := clusters[|clusters| - 1];
        clusters := clusters[..|clusters| - 1] + [last.(hashes := last.hashes + [dated[n].hash])];
      } else {
        Opened(clusters, dated, ps, n, scale);
        clusters := clusters + [Cluster(PositionOf(dated, n), [dated[n].hash])];
      }
    }
  }

  /** The loop's test is the greedy pass's. */
  lemma SameTest(clusters: seq<Cluster>, commits: seq<Commit>, ps: seq<real>, n: nat, scale: real)
    requires TestsAgree(commits, scale, ps) && n < |ps| && Built(clusters, commits, ps, n)
    ensures var starts := Starts(ps, n);
            JoinsCluster(clusters, commits, n, scale) <==> starts != [] && Near(ps[starts[|starts| - 1]], ps[n])
  {
    var starts := Starts(ps, n);
    if starts != [] {
      var k := |starts| - 1;
      assert ClusterAt(clusters[k], commits, starts[k], End(starts, k, n));
    }
  }

  /** A near commit joins the last cluster. */
  lemma Extended(clusters: seq<Cluster>, commits: seq<Commit>, ps: seq<real>, n: nat, scale: real)
    requires TestsAgree(commits, scale, ps) && n < |ps| && Built(clusters, commits, ps, n)
    requires JoinsCluster(clusters, commits, n, scale)
    ensures var last := clusters[|clusters| - 1];
            var longer := last.(hashes := last.hashes + [commits[n].hash]);
            Built(clusters[..|clusters| - 1] + [longer], commits, ps, n + 1)
  {
    SameTest(clusters, commits, ps, n, scale);
    ExtendLast(clusters, commits, Starts(ps, n), n);
  }

  /** Any other commit opens a cluster of its own. */
  lemma Opened(clusters: seq<Cluster>, commits: seq<Commit>, ps: seq<real>, n: nat, scale: real)
    requires TestsAgree(commits, scale, ps) && n < |ps| && Built(clusters, commits, ps, n)
    requires !JoinsCluster(clusters, commits, n, scale)
    ensures Built(clusters + [Cluster(PositionOf(commits, n), [commits[n].hash])], commits, ps, n + 1)
  {
    SameTest(clusters, commits, ps, n, scale);
    OpenNext(clusters, commits, Starts(ps, n), n);
  }

  lemma ExtendLast(clusters: seq<Cluster>, commits: seq<Commit>, starts: seq<nat>, n: nat)
    requires clusters != [] && n < |commits| && ClustersAt(clusters, commits, starts, n)
    ensures var last := clusters[|clusters| - 1];
            var longer := last.(hashes := last.hashes + [commits[n].hash]);
            ClustersAt(clusters[..|clusters| - 1] + [longer], commits, starts, n + 1)
  {
    var last := clusters[|clusters| - 1];
    var longer := clusters[..|clusters| - 1] + [last.(hashes := last.hashes + [commits[n].hash])];
    forall k | 0 <= k < |starts| ensures ClusterAt(longer[k], commits, starts[k], End(starts, k, n + 1)) {
      assert ClusterAt(clusters[k], commits, starts[k], End(starts, k, n));
    }
  }

  lemma OpenNext(clusters: seq<Cluster>, commits: seq<Commit>, starts: seq<nat>, n: nat)
    requires n < |commits| && ClustersAt(clusters, commits, starts, n)
    ensures ClustersAt(clusters + [Cluster(PositionOf(commits, n), [commits[n].hash])], commits, starts + [n], n + 1)
  {
    var longer, more := clusters + [Cluster(PositionOf(commits, n), [commits[n].hash])], starts + [n];
    forall k | 0 <= k < |more| ensures ClusterAt(longer[k], commits, more[k], End(more, k, n + 1)) {
      if k < |starts| {
        assert ClusterAt(clusters[k], commits, starts[k], End(starts, k, n));
      }
    }
  }

  // ----- What the layout promises -----

  function Concatenated(clusters: seq<Cluster>): seq<string> {
    if clusters == [] then []
    else Concatenated(clusters[..|clusters| - 1]) + clusters[|clusters| - 1].hashes
  }

  lemma {:induction false} ClustersPartition(clusters: seq<Cluster>, commits: seq<Commit>, starts: seq<nat>, n: nat)
    requires ClustersAt(clusters, commits, starts, n) && n <= |commits|
    ensures (if starts == [] then n == 0 else starts[0] == 0) ==> Concatenated(clusters) == Hashes(commits)[..n]
  {
    if clusters != [] {
      var last := |clusters| - 1;
      var start := starts[last];
      assert ClusterAt(clusters[last], commits, start, End(starts, last, n));
      ClustersBefore(clusters, commits, starts, n);
      ClustersPartition(clusters[..last], commits, starts[..last], start);
      Slices(Hashes(commits), start, n);
    }
  }

  lemma ClustersBefore(clusters: seq<Cluster>, commits: seq<Commit>, starts: seq<nat>, n: nat)
    requires clusters != [] && ClustersAt(clusters, commits, starts, n)
    ensures var last := |clusters| - 1;
            ClustersAt(clusters[..last], commits, starts[..last], starts[last])
  {
    var last := |clusters| - 1;
    forall k | 0 <= k < last
      ensures ClusterAt(clusters[k], commits, starts[..last][k], End(starts[..last], k, starts[last]))
    {
      assert ClusterAt(clusters[k], commits, starts[k], End(starts, k, n));
    }
  }

  /** The clusters a layout draws for these commits. */
  predicate LaidOut(clusters: seq<Cluster>, commits: seq<Commit>, width: real) {
    ClustersAt(clusters, commits, Starts(Pixels(commits, AxisScale(width)), |commits|), |commits|)
  }

  /** Put end to end, the clusters are exactly the dated commits in order. */
  lemma LayoutKeepsEveryCommit(clusters: seq<Cluster>, commits: seq<Commit>, width: real)
    requires LaidOut(clusters, commits, width)
    ensures Concatenated(clusters) == Hashes(commits)
  {
    var ps := Pixels(commits, AxisScale(width));
    StartsAreGreedy(ps, |ps|);
    ClustersPartition(clusters, commits, Starts(ps, |ps|), |commits|);
    assert Hashes(commits)[..|commits|] == Hashes(commits);
  }

  /** Neighbouring clusters stand at least 32 pixels apart. */
  lemma LayoutSpacesClusters(clusters: seq<Cluster>, commits: seq<Commit>, width: real, k: nat)
    requires LaidOut(clusters, commits, width) && k + 1 < |clusters|
    ensures !Joins(clusters[k + 1].position, clusters[k].position, AxisScale(width))
  {
    var ps := Pixels(commits, AxisScale(width));
    PixelsAgree(commits, AxisScale(width));
    StartsAreApart(clusters, commits, ps, AxisScale(width), k);
  }

  lemma StartsAreApart(clusters: seq<Cluster>, commits: seq<Commit>, ps: seq<real>, scale: real, k: nat)
    requires TestsAgree(commits, scale, ps) && ClustersAt(clusters, commits, Starts(ps, |ps|), |commits|)
    requires k + 1 < |clusters|
    ensures !Joins(clusters[k + 1].position, clusters[k].position, scale)
  {
    var starts := Starts(ps, |ps|);
    StartsAreGreedy(ps, |ps|);
    assert ClusterAt(clusters[k], commits, starts[k], End(starts, k, |commits|));
    assert ClusterAt(clusters[k + 1], commits, starts[k + 1], End(starts, k + 1, |commits|));
    assert !Near(ps[starts[(k + 1) - 1]], ps[starts[k + 1]]);
  }

  /** The layout uses the fewest clusters of any grouping of the commits whose members lie within
      32 pixels of their group's earliest one; and one with so few exists. */
  lemma LayoutIsOptimal(clusters: seq<Cluster>, commits: seq<Commit>, width: real, group: seq<nat>, count: nat)
    requires Sorted(commits) && LaidOut(clusters, commits, width)
    ensures Fits(Pixels(commits, AxisScale(width)), group, count) ==> |clusters| <= count
    ensures exists best :: Fits(Pixels(commits, AxisScale(width)), best, |clusters|)
  {
    var ps := Pixels(commits, AxisScale(width));
    PixelsAscend(commits, AxisScale(width));
    if Fits(ps, group, count) {
      GreedyIsOptimal(ps, group, count);
    }
    GreedyFits(ps);
  }

  /** The order in which the commits arrive does not matter: the same clusters are drawn. */
  lemma LayoutIgnoresOrder(a: seq<Entry>, b: seq<Entry>, ours: seq<Cluster>, theirs: seq<Cluster>, width: real)
    requires multiset(Dated(a)) == multiset(Dated(b))
    ensures Sort(Dated(a)) == Sort(Dated(b))
    ensures LaidOut(ours, Sort(Dated(a)), width) && LaidOut(theirs, Sort(Dated(b)), width) ==> ours == theirs
  {
    SortSorts(Dated(a));
    SortSorts(Dated(b));
    var commits := Sort(Dated(a));
    SortedIsUnique(commits, Sort(Dated(b)));
    if LaidOut(ours, commits, width) && LaidOut(theirs, commits, width) {
      SameClusters(ours, theirs, commits, Starts(Pixels(commits, AxisScale(width)), |commits|), |commits|);
    }
  }

  lemma SameClusters(a: seq<Cluster>, b: seq<Cluster>, commits: seq<Commit>, starts: seq<nat>, n: nat)
    requires ClustersAt(a, commits, starts, n) && ClustersAt(b, commits, starts, n)
    ensures a == b
  {
    forall k | 0 <= k < |a| ensures a[k] == b[k] {
      assert ClusterAt(a[k], commits, starts[k], End(starts, k, n));
      assert ClusterAt(b[k], commits, starts[k], End(starts, k, n));
    }
  }
}
