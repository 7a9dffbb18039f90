/** The layout in terms of times, widths and pixels alone. */
module TimelineLaws {
  import opened Collections
  import opened Wrappers
  import opened TimelineTicks
  import opened Timeline

  // ----- Positions and pixels -----

  /** `p` is where an axis of `length` from `first` to `last` shows `time`: as far along it as the time
      is between the two, or in the middle if they are the same. */
  predicate ShownAt(p: real, time: real, first: real, last: real, length: real) {
    if last == first then 2.0 * p == length else p * (last - first) == (time - first) * length
  }

  lemma ShownAtPosition(p: real, time: real, first: real, last: real, length: real)
    ensures ShownAt(p, time, first, last, length) <==> p == Position(time, first, last - first) * length
  {
    if last != first {
      Proportional(p, time - first, last - first, length);
    }
  }

  lemma Proportional(x: real, a: real, span: real, scale: real)
    requires span != 0.0
    ensures x * span == a * scale <==> x == a / span * scale
  {
    var q := a / span;
    assert q * span == a;
    assert q * scale * span == a * scale;
    if x * span == a * scale {
      assert (x - q * scale) * span == 0.0;
    }
  }

  /** The pixels of the commits on a screen of `width`, or of one pixel if that is more. */
  predicate OnScreen(ps: seq<real>, commits: seq<Commit>, width: real) {
    && |ps| == |commits|
    && forall i :: 0 <= i < |ps| ==>
         ShownAt(ps[i], commits[i].time, commits[0].time, commits[|commits| - 1].time,
                 if width > 1.0 then width else 1.0)
  }

  /** Every two commits of a group lie less than 32 pixels apart. */
  predicate WithinPixels(ps: seq<real>, group: seq<nat>, count: nat) {
    && |group| == |ps|
    && (forall i :: 0 <= i < |ps| ==> group[i] < count)
    && forall i, j :: 0 <= i < |ps| && 0 <= j < |ps| && group[i] == group[j] ==> ps[j] - ps[i] < 32.0
  }

  lemma PixelShown(commits: seq<Commit>, width: real, p: real, i: nat)
    requires i < |commits|
    ensures ShownAt(p, commits[i].time, commits[0].time, commits[|commits| - 1].time,
                    if width > 1.0 then width else 1.0)
            <==> p == Pixels(commits, AxisScale(width))[i]
  {
    ShownAtPosition(p, commits[i].time, commits[0].time, commits[|commits| - 1].time, AxisScale(width));
    assert Pixels(commits, AxisScale(width))[i] == PositionOf(commits, i) * AxisScale(width);
  }

  lemma OnScreenIsPixels(ps: seq<real>, commits: seq<Commit>, width: real)
    ensures OnScreen(ps, commits, width) <==> ps == Pixels(commits, AxisScale(width))
  {
    if |ps| == |commits| {
      forall i | 0 <= i < |ps|
        ensures ShownAt(ps[i], commits[i].time, commits[0].time, commits[|commits| - 1].time,
                        if width > 1.0 then width else 1.0)
                <==> ps[i] == Pixels(commits, AxisScale(width))[i]
      {
        PixelShown(commits, width, ps[i], i);
      }
    }
  }

  lemma WithinIsFits(ps: seq<real>, group: seq<nat>, count: nat)
    ensures WithinPixels(ps, group, count) <==> Fits(ps, group, count)
  {
    if WithinPixels(ps, group, count) {
      forall i, j | 0 <= i < |ps| && 0 <= j < |ps| && group[i] == group[j] ensures Near(ps[i], ps[j]) {
      }
    }
    if Fits(ps, group, count) {
      forall i, j | 0 <= i < |ps| && 0 <= j < |ps| && group[i] == group[j] ensures ps[j] - ps[i] < 32.0 {
        assert Near(ps[i], ps[j]);
      }
    }
  }

  /** On a screen of any width the layout draws as many clusters as the best grouping whose members
      lie within 32 pixels, and no fewer are possible. */
  lemma FewestClusters(clusters: seq<Cluster>, commits: seq<Commit>, width: real, ps: seq<real>,
                       group: seq<nat>, count: nat)
    requires Sorted(commits) && LaidOut(clusters, commits, width) && OnScreen(ps, commits, width)
    ensures WithinPixels(ps, group, count) ==> |clusters| <= count
    ensures exists best :: WithinPixels(ps, best, |clusters|)
  {
    OnScreenIsPixels(ps, commits, width);
    WithinIsFits(ps, group, count);
    LayoutIsOptimal(clusters, commits, width, group, count);
    var best :| Fits(ps, best, |clusters|);
    WithinIsFits(ps, best, |clusters|);
  }

  // ----- Clusters -----

  function FirstOf(clusters: seq<Cluster>, k: nat): nat
    requires k <= |clusters|
  {
    |Concatenated(clusters[..k])|
  }

  lemma {:induction false} ConcatenatedLength(clusters: seq<Cluster>, commits: seq<Commit>, starts: seq<nat>, k: nat)
    requires ClustersAt(clusters, commits, starts, |commits|) && k < |clusters| && starts[0] == 0
    ensures FirstOf(clusters, k) == starts[k]
  {
    if k > 0 {
      ConcatenatedLength(clusters, commits, starts, k - 1);
      var before := clusters[..k];
      assert before[..k - 1] == clusters[..k - 1] && before[k - 1] == clusters[k - 1];
      assert ClusterAt(clusters[k - 1], commits, starts[k - 1], End(starts, k - 1, |commits|));
    } else {
      assert clusters[..0] == [];
    }
  }

  lemma ClusterBegins(clusters: seq<Cluster>, commits: seq<Commit>, width: real, k: nat)
    requires LaidOut(clusters, commits, width) && k < |clusters|
    ensures var first := FirstOf(clusters, k);
            && first < |commits| && clusters[k].hashes != [] && clusters[k].hashes[0] == commits[first].hash
            && clusters[k].position == PositionOf(commits, first)
  {
    var ps := Pixels(commits, AxisScale(width));
    var starts := Starts(ps, |ps|);
    StartsAreGreedy(ps, |ps|);
    assert ClusterAt(clusters[k], commits, starts[k], End(starts, k, |commits|));
    ConcatenatedLength(clusters, commits, starts, k);
  }

  lemma PositionShown(commits: seq<Commit>, i: nat)
    requires i < |commits|
    ensures ShownAt(PositionOf(commits, i), commits[i].time, commits[0].time, commits[|commits| - 1].time, 1.0)
  {
    var first, last := commits[0].time, commits[|commits| - 1].time;
    ShownAtPosition(Position(commits[i].time, first, last - first), commits[i].time, first, last, 1.0);
  }

  /** A cluster begins with the commit that follows those of the clusters before it, and stands where
      an axis of length one shows that commit. */
  lemma ClustersStandAtTimes(clusters: seq<Cluster>, commits: seq<Commit>, width: real, k: nat)
    requires LaidOut(clusters, commits, width) && k < |clusters|
    ensures var first := FirstOf(clusters, k);
            && first < |commits| && clusters[k].hashes != [] && clusters[k].hashes[0] == commits[first].hash
            && ShownAt(clusters[k].position, commits[first].time, commits[0].time, commits[|commits| - 1].time, 1.0)
  {
    ClusterBegins(clusters, commits, width, k);
    PositionShown(commits, FirstOf(clusters, k));
  }

  /** At least 32 pixels lie between two places on a screen of `width`, or of one pixel if that is more. */
  predicate PixelsApart(a: real, b: real, width: real) {
    (b - a) * (if width > 1.0 then width else 1.0) >= 32.0
  }

  lemma Apart(a: real, b: real, width: real)
    requires !Joins(b, a, AxisScale(width))
    ensures PixelsApart(a, b, width)
  {
  }

  /** Neighbouring clusters stand at least 32 pixels apart. */
  lemma NeighboursAreApart(clusters: seq<Cluster>, commits: seq<Commit>, width: real, k: nat)
    requires LaidOut(clusters, commits, width) && k + 1 < |clusters|
    ensures PixelsApart(clusters[k].position, clusters[k + 1].position, width)
  {
    var a, b := clusters[k].position, clusters[k + 1].position;
    assert !Joins(b, a, AxisScale(width)) by {
      LayoutSpacesClusters(clusters, commits, width, k);
    }
    Apart(a, b, width);
  }

  lemma EndsOfAxis(p: real, q: real, first: real, last: real, length: real)
    requires first != last && ShownAt(p, first, first, last, length) && ShownAt(q, last, first, last, length)
    ensures p == 0.0 && q == length
  {
    assert (last - first) * p == 0.0;
    assert (last - first) * (q - length) == 0.0;
  }

  /** Commits of the first and the last instant never share a cluster on a screen of 32 pixels. */
  lemma EndsAreApart(clusters: seq<Cluster>, commits: seq<Commit>, width: real)
    requires Sorted(commits) && LaidOut(clusters, commits, width)
    requires commits != [] && commits[0].time != commits[|commits| - 1].time && width >= 32.0
    ensures |clusters| >= 2
  {
    var ps, last := Pixels(commits, AxisScale(width)), |commits| - 1;
    OnScreenIsPixels(ps, commits, width);
    EndsOfAxis(ps[0], ps[last], commits[0].time, commits[last].time, width);
    FewestClusters(clusters, commits, width, ps, [], 0);
    var best :| WithinPixels(ps, best, |clusters|);
    assert best[0] != best[last];
  }

  // ----- The order of the commits -----

  /** `a` comes before `b` in a dictionary, or they are the same. */
  predicate Alphabetical(a: string, b: string) {
    a <= b || exists k :: 0 <= k < |a| && k < |b| && a[..k] == b[..k] && a[k] < b[k]
  }

  lemma {:induction false} AlphabeticalIsTextLeq(a: string, b: string)
    ensures TextLeq(a, b) ==> Alphabetical(a, b)
  {
    if TextLeq(a, b) && a != "" {
      if a[0] < b[0] {
        assert a[..0] == b[..0];
      } else {
        AlphabeticalIsTextLeq(a[1..], b[1..]);
        if a[1..] <= b[1..] {
          assert a == [a[0]] + a[1..] && b == [b[0]] + b[1..];
          assert b[..|a|] == a;
        } else {
          var k :| 0 <= k < |a[1..]| && k < |b[1..]| && a[1..][..k] == b[1..][..k] && a[1..][k] < b[1..][k];
          assert a[..k + 1] == [a[0]] + a[1..][..k] && b[..k + 1] == [b[0]] + b[1..][..k];
          assert a[k + 1] < b[k + 1];
        }
      }
    }
  }

  /** Commits are laid out by time, and by hash where times are equal. */
  lemma SortedByTimeAndHash(entries: seq<Entry>, i: nat, j: nat)
    requires i < j < |Sort(Dated(entries))|
    ensures var a, b := Sort(Dated(entries))[i], Sort(Dated(entries))[j];
            a.time < b.time || (a.time == b.time && Alphabetical(a.hash, b.hash))
  {
    SortSorts(Dated(entries));
    AlphabeticalIsTextLeq(Sort(Dated(entries))[i].hash, Sort(Dated(entries))[j].hash);
  }

  lemma {:induction false} DatedConcat(a: seq<Entry>, b: seq<Entry>)
    ensures Dated(a + b) == Dated(a) + Dated(b)
  {
    if a == [] {
      assert a + b == b;
    } else {
      assert (a + b)[1..] == a[1..] + b;
      DatedConcat(a[1..], b);
      Regroup(if a[0].time.Some? then [Commit(a[0].hash, a[0].time.value)] else [], Dated(a[1..]), Dated(b));
    }
  }

  lemma {:induction false} UndatedConcat(a: seq<Entry>, b: seq<Entry>)
    ensures Undated(a + b) == Undated(a) + Undated(b)
  {
    if a == [] {
      assert a + b == b;
    } else {
      assert (a + b)[1..] == a[1..] + b;
      UndatedConcat(a[1..], b);
      Regroup(if a[0].time.None? then [a[0].hash] else [], Undated(a[1..]), Undated(b));
    }
  }

  lemma OneEntry(hash: string, time: Option<real>)
    ensures Dated([Entry(hash, time)]) == if time.Some? then [Commit(hash, time.value)] else []
    ensures Undated([Entry(hash, time)]) == if time.Some? then [] else [hash]
  {
    assert [Entry(hash, time)][1..] == [];
  }

  /** Each commit is kept once, where it stood: among the dated ones with its time, or among the
      undated ones. */
  lemma EachEntryIsKept(before: seq<Entry>, hash: string, time: Option<real>, after: seq<Entry>)
    ensures var entries := before + ([Entry(hash, time)] + after);
            && Dated(entries)
               == Dated(before) + ((if time.Some? then [Commit(hash, time.value)] else []) + Dated(after))
            && Undated(entries) == Undated(before) + ((if time.Some? then [] else [hash]) + Undated(after))
  {
    var one := [Entry(hash, time)];
    OneEntry(hash, time);
    DatedConcat(before, one + after);
    DatedConcat(one, after);
    UndatedConcat(before, one + after);
    UndatedConcat(one, after);
  }

  // ----- Ticks -----

  /** The intervals, in minutes: from one minute over hours and days to a year. */
  function Minutes(k: nat): real
    requires k < 11
  {
    [1.0, 5.0, 15.0, 60.0, 180.0, 360.0, 720.0, 1440.0, 10080.0, 43200.0, 525600.0][k]
  }

  /** There is room for a tick every 120 pixels, but for two at least and ten at most. */
  lemma RoomForTicks(width: real)
    ensures var n := Target(width);
            && (width < 240.0 ==> n == 2)
            && (width >= 1200.0 ==> n == 10)
            && (240.0 <= width < 1200.0 ==> n as real * 120.0 <= width < (n + 1) as real * 120.0)
  {
    var q := width / 120.0;
    assert q * 120.0 == width;
  }

  lemma IntervalsAreMinutes()
    ensures |INTERVALS| == 11
    ensures forall k :: 0 <= k < 11 ==> INTERVALS[k] == Minutes(k) * 60000.0
  {
  }

  /** The interval cuts the span into at most `target` pieces. */
  predicate CutsFew(span: real, interval: real, target: int)
    requires interval > 0.0
  {
    span / interval <= target as real
  }

  /** The interval at `k` is the first that cuts the span into few pieces. */
  predicate IsFirstFit(span: real, target: int, intervals: seq<real>, k: nat)
    requires AllPositive(intervals)
  {
    && k < |intervals| && CutsFew(span, intervals[k], target)
    && forall j :: 0 <= j < k ==> !CutsFew(span, intervals[j], target)
  }

  /** The step is the first interval that cuts the span into few pieces; if none does, an even cut. */
  lemma {:induction false} StepIsFirst(span: real, target: int, intervals: seq<real>)
    requires span > 0.0 && target > 0 && AllPositive(intervals)
    ensures var step := Step(span, target, intervals);
            || (exists k: nat :: IsFirstFit(span, target, intervals, k) && step == intervals[k])
            || (step == span / target as real
                && forall j :: 0 <= j < |intervals| ==> !CutsFew(span, intervals[j], target))
  {
    if intervals == [] {
    } else if CutsFew(span, intervals[0], target) {
      assert IsFirstFit(span, target, intervals, 0);
    } else {
      var rest := intervals[1..];
      var step := Step(span, target, rest);
      assert step == Step(span, target, intervals) && intervals == [intervals[0]] + rest;
      StepIsFirst(span, target, rest);
      if k: nat :| IsFirstFit(span, target, rest, k) && step == rest[k] {
        FitsLater(span, target, intervals, k);
      } else {
        forall j | 0 <= j < |intervals| ensures !CutsFew(span, intervals[j], target) {
          assert j > 0 ==> intervals[j] == rest[j - 1];
        }
      }
    }
  }

  lemma FitsLater(span: real, target: int, intervals: seq<real>, k: nat)
    requires AllPositive(intervals) && intervals != [] && !CutsFew(span, intervals[0], target)
    requires IsFirstFit(span, target, intervals[1..], k)
    ensures IsFirstFit(span, target, intervals, k + 1) && intervals[k + 1] == intervals[1..][k]
  {
    forall j | 0 <= j < k + 1 ensures !CutsFew(span, intervals[j], target) {
      assert j > 0 ==> intervals[j] == intervals[1..][j - 1];
    }
  }

  predicate OnAxis(min: real, max: real, step: real, k: int) {
    min <= k as real * step <= max
  }

  /** The tick at the `k`-th multiple of the step: at its place on the axis, with its time. */
  predicate MarksMultiple(tick: (real, real), min: real, max: real, step: real, k: int) {
    tick.1 == k as real * step && ShownAt(tick.0, tick.1, min, max, 1.0)
  }

  lemma OnAxisIsCounted(min: real, max: real, step: real, k: int)
    requires step > 0.0
    ensures OnAxis(min, max, step, k) <==> Ceil(min / step) <= k <= (max / step).Floor
  {
    MultipleBelow(k, step, min);
    MultipleBelow(k, step, max);
  }

  lemma TickMarks(min: real, max: real, step: real, k: int)
    requires min < max
    ensures MarksMultiple(TickAt(min, max - min, k, step), min, max, step, k)
  {
    ShownAtPosition(TickAt(min, max - min, k, step).0, Multiple(k, step), min, max, 1.0);
  }

  lemma MultipleAt(min: real, max: real, step: real, i: nat)
    requires min < max && step > 0.0 && i < |Multiples(min, max, step)|
    ensures MarksMultiple(Multiples(min, max, step)[i], min, max, step, Ceil(min / step) + i)
  {
    assert Multiples(min, max, step)[i] == TickAt(min, max - min, Ceil(min / step) + i, step);
    TickMarks(min, max, step, Ceil(min / step) + i);
  }

  /** Every multiple of the step on the axis has its tick, and there is no other tick: the ticks are
      as many as the multiples, in order. */
  lemma TicksAreTheMultiples(min: real, max: real, width: real, step: real, k: int)
    requires min < max && step == Step(max - min, Target(width), INTERVALS) && OnAxis(min, max, step, k)
    ensures var ticks, first := Ticks(min, max, width), Ceil(min / step);
            && 0 <= k - first < |ticks| && MarksMultiple(ticks[k - first], min, max, step, k)
            && !OnAxis(min, max, step, first - 1) && !OnAxis(min, max, step, first + |ticks|)
  {
    var first := Ceil(min / step);
    OnAxisIsCounted(min, max, step, k);
    OnAxisIsCounted(min, max, step, first - 1);
    OnAxisIsCounted(min, max, step, first + |Multiples(min, max, step)|);
    MultipleAt(min, max, step, k - first);
  }

  /** Without such a multiple the two ends are marked. */
  lemma NoMultipleMarksTheEnds(min: real, max: real, width: real, step: real)
    requires min < max && step == Step(max - min, Target(width), INTERVALS)
    requires forall k: int :: !OnAxis(min, max, step, k)
    ensures Ticks(min, max, width) == [(0.0, min), (1.0, max)]
  {
    OnAxisIsCounted(min, max, step, Ceil(min / step));
  }

  /** One instant has one tick, in the middle. */
  lemma OneInstantHasOneTick(time: real, width: real)
    ensures Ticks(time, time, width) == [(0.5, time)]
  {
  }
}
