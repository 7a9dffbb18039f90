/** Folder summaries: how many changed files of each status lie below each folder. */
module FolderStatus {
  import opened Collections

  datatype Status =
    | Added | Deleted | Modified | Renamed | Untracked | Conflict
    | Copied | TypeChanged | Unknown | Unavailable | Clean

  datatype Availability = Complete | Passive | Unavailable

  datatype FolderSummary = FolderSummary(counts: map<Status, nat>, unavailable: bool)

  datatype Entry = Entry(path: string, status: Status)

  // ----- One status for each path -----

  function Paths(entries: seq<Entry>): set<string> {
    set i | 0 <= i < |entries| :: entries[i].path
  }

  function StatusesOf(entries: seq<Entry>, path: string): set<Status> {
    set i | 0 <= i < |entries| && entries[i].path == path :: entries[i].status
  }

  lemma OnlyOne(statuses: set<Status>, a: Status, b: Status)
    requires |statuses| == 1 && a in statuses && b in statuses
    ensures a == b
  {
    assert |statuses - {a}| == 0;
  }

  function Single(statuses: set<Status>): (status: Status)
    requires |statuses| == 1
    ensures status in statuses
  {
    assert statuses != {};
    assert forall a, b :: a in statuses && b in statuses ==> a == b by {
      forall a, b | a in statuses && b in statuses ensures a == b {
        OnlyOne(statuses, a, b);
      }
    }
    var status :| status in statuses;
    status
  }

  /** A conflict wins, one status stands, and contradicting ones are unknown. */
  function Combined(statuses: set<Status>): Status {
    if Conflict in statuses then Conflict
    else if |statuses| == 1 then Single(statuses)
    else Unknown
  }

  function Unique(entries: seq<Entry>): map<string, Status> {
    map path | path in Paths(entries) :: Combined(StatusesOf(entries, path))
  }

  // ----- What lies below a folder -----

  /** The path goes through the folder: it starts with its name and a slash. */
  predicate IsBelow(folder: string, path: string) {
    |folder| < |path| && path[|folder|] == '/' && path[..|folder|] == folder
  }

  function Below(folder: string, unique: map<string, Status>): set<string> {
    set path | path in unique && IsBelow(folder, path)
  }

  function Folders(unique: map<string, Status>): set<string> {
    set path, i | path in unique && 0 <= i < |path| && path[i] == '/' :: path[..i]
  }

  function StatusesIn(paths: set<string>, unique: map<string, Status>): set<Status>
    requires paths <= unique.Keys
  {
    set path | path in paths :: unique[path]
  }

  function WithStatus(paths: set<string>, unique: map<string, Status>, status: Status): set<string>
    requires paths <= unique.Keys
  {
    set path | path in paths && unique[path] == status
  }

  /** How many of the paths have each status that occurs among them. */
  function Counts(paths: set<string>, unique: map<string, Status>): map<Status, nat>
    requires paths <= unique.Keys
  {
    map status | status in StatusesIn(paths, unique) :: |WithStatus(paths, unique, status)|
  }

  /** A summary for each folder that some changed path goes through. */
  function Summaries(unique: map<string, Status>, unavailable: bool): map<string, FolderSummary> {
    map folder | folder in Folders(unique) :: FolderSummary(Counts(Below(folder, unique), unique), unavailable)
  }

  // ----- The loops -----

  function CountAt(counts: map<Status, nat>, status: Status): nat {
    if status in counts then counts[status] else 0
  }

  /** One more path of a status. */
  lemma CountOneMore(paths: set<string>, path: string, unique: map<string, Status>)
    requires paths <= unique.Keys && path in unique && path !in paths
    ensures var before, status := Counts(paths, unique), unique[path];
            Counts(paths + {path}, unique) == before[status := CountAt(before, status) + 1]
  {
    var status, more := unique[path], paths + {path};
    var before, after := Counts(paths, unique), Counts(more, unique);
    assert StatusesIn(more, unique) == StatusesIn(paths, unique) + {status};
    OneMoreWithStatus(paths, path, unique);
    if status !in before {
      assert WithStatus(paths, unique, status) == {};
    }
    assert after == before[status := CountAt(before, status) + 1];
  }

  lemma OneMoreWithStatus(paths: set<string>, path: string, unique: map<string, Status>)
    requires paths <= unique.Keys && path in unique && path !in paths
    ensures forall s :: |WithStatus(paths + {path}, unique, s)|
                        == |WithStatus(paths, unique, s)| + (if s == unique[path] then 1 else 0)
  {
    forall s
      ensures |WithStatus(paths + {path}, unique, s)|
              == |WithStatus(paths, unique, s)| + (if s == unique[path] then 1 else 0)
    {
      if s == unique[path] {
        assert WithStatus(paths + {path}, unique, s) == WithStatus(paths, unique, s) + {path};
      } else {
        assert WithStatus(paths + {path}, unique, s) == WithStatus(paths, unique, s);
      }
    }
  }

  /** The paths counted for each folder so far, summed up. */
  predicate Tallied(summaries: map<string, FolderSummary>, under: map<string, set<string>>,
                    unique: map<string, Status>, unavailable: bool)
  {
    && summaries.Keys == under.Keys
    && forall folder :: folder in under ==>
         && under[folder] <= unique.Keys
         && summaries[folder] == FolderSummary(Counts(under[folder], unique), unavailable)
  }

  function UnderAt(under: map<string, set<string>>, folder: string): set<string> {
    if folder in under then under[folder] else {}
  }

  method CollectStatuses(entries: seq<Entry>) returns (unique: map<string, set<Status>>)
    ensures unique.Keys == Paths(entries)
    ensures forall path :: path in unique ==> unique[path] == StatusesOf(entries, path)
  {
    unique := map[];
    for i := 0 to |entries|
      invariant unique.Keys == Paths(entries[..i])
      invariant forall path :: path in unique ==> unique[path] == StatusesOf(entries[..i], path)
    {
      var entry := entries[i];
      OneMoreEntry(entries, i);
      var known := if entry.path in unique then unique[entry.path] else {};
      unique := unique[entry.path := known + {entry.status}];
    }
    assert entries[..|entries|] == entries;
  }

  lemma OneMoreEntry(entries: seq<Entry>, i: nat)
    requires i < |entries|
    ensures Paths(entries[..i + 1]) == Paths(entries[..i]) + {entries[i].path}
    ensures forall path :: StatusesOf(entries[..i + 1], path)
                           == StatusesOf(entries[..i], path)
                              + (if path == entries[i].path then {entries[i].status} else {})
    ensures entries[i].path !in Paths(entries[..i]) ==> StatusesOf(entries[..i], entries[i].path) == {}
  {
    var before, after := entries[..i], entries[..i + 1];
    assert after == before + [entries[i]];
    forall path
      ensures StatusesOf(after, path)
              == StatusesOf(before, path) + (if path == entries[i].path then {entries[i].status} else {})
    {
      forall s | s in StatusesOf(before, path) ensures s in StatusesOf(after, path) {
        var k :| 0 <= k < i && before[k].path == path && before[k].status == s;
        assert after[k] == before[k];
      }
      if path == entries[i].path {
        assert after[i] == entries[i];
      }
    }
    forall p | p in Paths(before) ensures p in Paths(after) {
      var k :| 0 <= k < i && before[k].path == p;
      assert after[k].path == p;
    }
    assert after[i].path == entries[i].path;
  }

  /** The folders the path goes through, up to an offset. */
  function Through(path: string, offset: nat): set<string>
    requires offset <= |path|
  {
    set i | 0 <= i < offset && path[i] == '/' :: path[..i]
  }

  lemma ThroughIsBelow(path: string, folder: string)
    ensures folder in Through(path, |path|) <==> IsBelow(folder, path)
  {
    if IsBelow(folder, path) {
      assert path[|folder|] == '/' && path[..|folder|] == folder;
    }
  }

  lemma ThroughNext(path: string, offset: nat)
    requires offset < |path|
    ensures Through(path, offset + 1) == Through(path, offset) + (if path[offset] == '/' then {path[..offset]} else {})
    ensures path[..offset] !in Through(path, offset)
  {
    assert forall i :: 0 <= i < offset ==> |path[..i]| != |path[..offset]|;
  }

  /** The paths under each folder, with one path added under those it goes through up to an offset. */
  function UnderPath(under: map<string, set<string>>, path: string, offset: nat): map<string, set<string>>
    requires offset <= |path|
  {
    map folder | folder in under.Keys + Through(path, offset) ::
      UnderAt(under, folder) + (if folder in Through(path, offset) then {path} else {})
  }

  lemma UnderPathStart(under: map<string, set<string>>, path: string)
    ensures UnderPath(under, path, 0) == under
  {
    var start := UnderPath(under, path, 0);
    assert Through(path, 0) == {};
    forall folder | folder in under ensures start[folder] == under[folder] {
      assert UnderAt(under, folder) + {} == under[folder];
    }
  }

  lemma UnderPathNext(under: map<string, set<string>>, path: string, offset: nat)
    requires offset < |path|
    ensures var now, next, folder := UnderPath(under, path, offset), UnderPath(under, path, offset + 1), path[..offset];
            && UnderAt(now, folder) == UnderAt(under, folder)
            && next == if path[offset] == '/' then now[folder := UnderAt(now, folder) + {path}] else now
  {
    ThroughNext(path, offset);
  }

  /** The folder's summary with one more path of a status. */
  function OneMore(summaries: map<string, FolderSummary>, folder: string, status: Status, unavailable: bool)
    : FolderSummary
  {
    var known := if folder in summaries then summaries[folder].counts else map[];
    FolderSummary(known[status := CountAt(known, status) + 1], unavailable)
  }

  /** A folder's summary after one more path is that of the paths with one more. */
  lemma OneMoreCounts(summaries: map<string, FolderSummary>, under: map<string, set<string>>, folder: string,
                      path: string, unique: map<string, Status>, unavailable: bool)
    requires Tallied(summaries, under, unique, unavailable)
    requires path in unique && path !in UnderAt(under, folder)
    ensures UnderAt(under, folder) + {path} <= unique.Keys
    ensures OneMore(summaries, folder, unique[path], unavailable)
            == FolderSummary(Counts(UnderAt(under, folder) + {path}, unique), unavailable)
  {
    CountOneMore(UnderAt(under, folder), path, unique);
    if folder !in under {
      assert Counts({}, unique) == map[];
    }
  }

  lemma TallyOneMore(summaries: map<string, FolderSummary>, under: map<string, set<string>>, folder: string,
                     path: string, unique: map<string, Status>, unavailable: bool)
    requires Tallied(summaries, under, unique, unavailable)
    requires path in unique && path !in UnderAt(under, folder)
    ensures Tallied(summaries[folder := OneMore(summaries, folder, unique[path], unavailable)],
                    under[folder := UnderAt(under, folder) + {path}], unique, unavailable)
  {
    OneMoreCounts(summaries, under, folder, path, unique, unavailable);
  }

  /** Counting the path for the folder that ends at an offset, if one does. */
  function CountOffset(summaries: map<string, FolderSummary>, path: string, offset: nat, status: Status,
                       unavailable: bool): map<string, FolderSummary>
    requires offset < |path|
  {
    if path[offset] == '/' then summaries[path[..offset] := OneMore(summaries, path[..offset], status, unavailable)]
    else summaries
  }

  lemma CountOffsetTallies(summaries: map<string, FolderSummary>, path: string, offset: nat, unavailable: bool,
                           under: map<string, set<string>>, unique: map<string, Status>)
    requires offset < |path| && path in unique
    requires forall folder :: folder in under ==> path !in under[folder]
    requires Tallied(summaries, UnderPath(under, path, offset), unique, unavailable)
    ensures Tallied(CountOffset(summaries, path, offset, unique[path], unavailable), UnderPath(under, path, offset + 1),
                    unique, unavailable)
  {
    UnderPathNext(under, path, offset);
    if path[offset] == '/' {
      assert path !in UnderAt(under, path[..offset]);
      TallyOneMore(summaries, UnderPath(under, path, offset), path[..offset], path, unique, unavailable);
    }
  }

  /** Count one path for every folder it goes through. */
  method CountPath(summaries: map<string, FolderSummary>, path: string, status: Status, unavailable: bool,
                   ghost under: map<string, set<string>>, ghost unique: map<string, Status>)
    returns (counted: map<string, FolderSummary>)
    requires Tallied(summaries, under, unique, unavailable)
    requires path in unique && unique[path] == status
    requires forall folder :: folder in under ==> path !in under[folder]
    ensures Tallied(counted, UnderPath(under, path, |path|), unique, unavailable)
  {
    counted := summaries;
    UnderPathStart(under, path);
    for offset := 0 to |path|
      invariant Tallied(counted, UnderPath(under, path, offset), unique, unavailable)
    {
      CountOffsetTallies(counted, path, offset, unavailable, under, unique);
      ghost var next := CountOffset(counted, path, offset, status, unavailable);
      if path[offset] == '/' {
        counted := counted[path[..offset] := OneMore(counted, path[..offset], status, unavailable)];
      }
      assert counted == next;
    }
  }

  /** The changed paths counted so far, under each folder. */
  function UnderAll(unique: map<string, Status>): map<string, set<string>> {
    map folder | folder in Folders(unique) :: Below(folder, unique)
  }

  lemma FoldersAreAbove(unique: map<string, Status>, folder: string)
    ensures folder in Folders(unique) <==> exists path :: path in unique && IsBelow(folder, path)
  {
    if folder in Folders(unique) {
      var path, i :| path in unique && 0 <= i < |path| && path[i] == '/' && folder == path[..i];
      assert IsBelow(folder, path);
    }
    forall path | path in unique && IsBelow(folder, path) ensures folder in Folders(unique) {
      assert path[|folder|] == '/' && path[..|folder|] == folder;
    }
  }

  lemma FoldersOneMore(done: map<string, Status>, path: string, status: Status)
    ensures Folders(done[path := status]) == Folders(done) + Through(path, |path|)
  {
    var more := done[path := status];
    forall folder ensures folder in Folders(more) <==> folder in Folders(done) + Through(path, |path|) {
      FoldersAreAbove(done, folder);
      FoldersAreAbove(more, folder);
      ThroughIsBelow(path, folder);
      assert forall p :: p in more <==> p in done || p == path;
    }
  }

  lemma BelowOneMore(done: map<string, Status>, path: string, status: Status, folder: string)
    ensures Below(folder, done[path := status])
            == Below(folder, done) + (if folder in Through(path, |path|) then {path} else {})
    ensures folder !in Folders(done) ==> Below(folder, done) == {}
  {
    ThroughIsBelow(path, folder);
    FoldersAreAbove(done, folder);
  }

  /** One more path, among those still to count. */
  lemma UnderOneMore(done: map<string, Status>, path: string, status: Status)
    requires path !in done
    ensures UnderAll(done[path := status]) == UnderPath(UnderAll(done), path, |path|)
  {
    var a, b := UnderAll(done[path := status]), UnderPath(UnderAll(done), path, |path|);
    FoldersOneMore(done, path, status);
    assert a.Keys == b.Keys;
    forall folder | folder in a ensures a[folder] == b[folder] {
      BelowOneMore(done, path, status, folder);
    }
  }

  lemma AllTallied(summaries: map<string, FolderSummary>, unique: map<string, Status>, unavailable: bool)
    requires Tallied(summaries, UnderAll(unique), unique, unavailable)
    ensures summaries == Summaries(unique, unavailable)
  {
  }

  /** The paths already counted. */
  function Done(unique: map<string, Status>, rest: set<string>): map<string, Status> {
    map path | path in unique && path !in rest :: unique[path]
  }

  lemma DoneNext(unique: map<string, Status>, rest: set<string>, path: string)
    requires path in rest && path in unique
    ensures path !in Done(unique, rest)
    ensures Done(unique, rest - {path}) == Done(unique, rest)[path := unique[path]]
    ensures forall folder :: folder in UnderAll(Done(unique, rest)) ==> path !in UnderAll(Done(unique, rest))[folder]
  {
  }

  /** `folders`: statuses collected by path, then every path counted for its folders. */
  method SummarizeFolders(entries: seq<Entry>, availability: Availability)
    returns (summaries: map<string, FolderSummary>)
    ensures summaries == Summaries(Unique(entries), availability != Complete)
  {
    var statuses := CollectStatuses(entries);
    var unavailable := availability != Complete;
    ghost var unique := Unique(entries);
    summaries := map[];
    var rest := statuses.Keys;
    assert Done(unique, rest) == map[];
    while rest != {}
      invariant rest <= unique.Keys
      invariant Tallied(summaries, UnderAll(Done(unique, rest)), unique, unavailable)
      decreases rest
    {
      var path :| path in rest;
      var status := Combined(statuses[path]);
      assert status == unique[path];
      DoneNext(unique, rest, path);
      UnderOneMore(Done(unique, rest), path, status);
      summaries := CountPath(summaries, path, status, unavailable, UnderAll(Done(unique, rest)), unique);
      rest := rest - {path};
    }
    assert Done(unique, {}) == unique;
    AllTallied(summaries, unique, unavailable);
  }

  // ----- Conservation -----

  ghost function Pick(statuses: set<Status>): (status: Status)
    requires statuses != {}
    ensures status in statuses
  {
    var status :| status in statuses;
    status
  }

  ghost function Sum(counts: map<Status, nat>, statuses: set<Status>): nat
    requires statuses <= counts.Keys
  {
    if statuses == {} then 0
    else counts[Pick(statuses)] + Sum(counts, statuses - {Pick(statuses)})
  }

  /** The sum of a summary's counts. */
  ghost function Total(counts: map<Status, nat>): nat {
    Sum(counts, counts.Keys)
  }

  lemma {:induction false} SumPick(counts: map<Status, nat>, statuses: set<Status>, status: Status)
    requires statuses <= counts.Keys && status in statuses
    ensures Sum(counts, statuses) == counts[status] + Sum(counts, statuses - {status})
    decreases |statuses|
  {
    var other := Pick(statuses);
    if other != status {
      var a, b := statuses - {other}, statuses - {status};
      SumPick(counts, a, status);
      SumPick(counts, b, other);
      assert a - {status} == b - {other};
    }
  }

  lemma {:induction false} SumSame(a: map<Status, nat>, b: map<Status, nat>, statuses: set<Status>)
    requires statuses <= a.Keys && statuses <= b.Keys
    requires forall s :: s in statuses ==> a[s] == b[s]
    ensures Sum(a, statuses) == Sum(b, statuses)
    decreases |statuses|
  {
    if statuses != {} {
      var s :| s in statuses;
      SumPick(a, statuses, s);
      SumPick(b, statuses, s);
      SumSame(a, b, statuses - {s});
    }
  }

  lemma TotalOneMore(counts: map<Status, nat>, status: Status)
    ensures Total(counts[status := CountAt(counts, status) + 1]) == Total(counts) + 1
  {
    var more := counts[status := CountAt(counts, status) + 1];
    var others := counts.Keys - {status};
    assert more.Keys - {status} == others;
    SumPick(more, more.Keys, status);
    SumSame(more, counts, others);
    if status in counts {
      SumPick(counts, counts.Keys, status);
    } else {
      assert others == counts.Keys;
    }
  }

  lemma {:induction false} TotalIsCardinality(paths: set<string>, unique: map<string, Status>)
    requires paths <= unique.Keys
    ensures Total(Counts(paths, unique)) == |paths|
    decreases |paths|
  {
    if paths == {} {
      assert Counts(paths, unique) == map[];
    } else {
      var path :| path in paths;
      var rest := paths - {path};
      TotalIsCardinality(rest, unique);
      CountOneMore(rest, path, unique);
      TotalOneMore(Counts(rest, unique), unique[path]);
      assert rest + {path} == paths;
    }
  }

  /** Each folder's counts add up to the number of distinct changed paths strictly below it. */
  lemma FoldersConserveCounts(entries: seq<Entry>, unavailable: bool, folder: string)
    requires folder in Summaries(Unique(entries), unavailable)
    ensures Total(Summaries(Unique(entries), unavailable)[folder].counts)
            == |set path | path in Paths(entries) && IsBelow(folder, path)|
  {
    var unique := Unique(entries);
    TotalIsCardinality(Below(folder, unique), unique);
    assert Below(folder, unique) == set path | path in Paths(entries) && IsBelow(folder, path);
  }

  lemma FewerCounts(a: set<string>, b: set<string>, unique: map<string, Status>, status: Status)
    requires a <= b <= unique.Keys
    ensures CountAt(Counts(a, unique), status) <= CountAt(Counts(b, unique), status)
  {
    SubsetIsNoLarger(WithStatus(a, unique, status), WithStatus(b, unique, status));
    if status in StatusesIn(a, unique) {
      var p :| p in a && unique[p] == status;
      assert p in b;
    }
  }

  lemma InnerIsBelow(unique: map<string, Status>, outer: string, inner: string)
    requires inner in Folders(unique) && IsBelow(outer, inner)
    ensures outer in Folders(unique) && Below(inner, unique) <= Below(outer, unique)
  {
    FoldersAreAbove(unique, inner);
    FoldersAreAbove(unique, outer);
    forall p | p in Below(inner, unique) ensures p in Below(outer, unique) {
      InsideIsBelow(outer, inner, p);
    }
    var path :| path in unique && IsBelow(inner, path);
    assert path in Below(inner, unique);
  }

  /** A folder counts at least as many paths of each status as any folder inside it; and a folder
      around a summarised one is summarised. */
  lemma NestedFoldersCountLess(entries: seq<Entry>, unavailable: bool, outer: string, inner: string, status: Status)
    requires inner in Summaries(Unique(entries), unavailable) && IsBelow(outer, inner)
    ensures var summaries := Summaries(Unique(entries), unavailable);
            && outer in summaries
            && CountAt(summaries[inner].counts, status) <= CountAt(summaries[outer].counts, status)
  {
    var unique := Unique(entries);
    InnerIsBelow(unique, outer, inner);
    FewerCounts(Below(inner, unique), Below(outer, unique), unique, status);
  }

  lemma InsideIsBelow(outer: string, inner: string, path: string)
    requires IsBelow(outer, inner) && IsBelow(inner, path)
    ensures IsBelow(outer, path)
  {
    assert path[|outer|] == path[..|inner|][|outer|];
    assert path[..|outer|] == path[..|inner|][..|outer|];
  }

  function EntrySet(entries: seq<Entry>): set<Entry> {
    set i | 0 <= i < |entries| :: entries[i]
  }

  /** The order of the entries and repeated ones do not matter. */
  lemma FoldersIgnoreOrder(a: seq<Entry>, b: seq<Entry>, unavailable: bool)
    requires EntrySet(a) == EntrySet(b)
    ensures Summaries(Unique(a), unavailable) == Summaries(Unique(b), unavailable)
  {
    SameEntries(a, b);
    SameEntries(b, a);
    assert Paths(a) == Paths(b);
    forall path ensures StatusesOf(a, path) == StatusesOf(b, path) {
    }
    assert Unique(a) == Unique(b);
  }

  lemma SameEntries(a: seq<Entry>, b: seq<Entry>)
    requires EntrySet(a) <= EntrySet(b)
    ensures Paths(a) <= Paths(b)
    ensures forall path :: StatusesOf(a, path) <= StatusesOf(b, path)
  {
    forall i | 0 <= i < |a| ensures a[i].path in Paths(b) && a[i].status in StatusesOf(b, a[i].path) {
      assert a[i] in EntrySet(b);
      var j :| 0 <= j < |b| && b[j] == a[i];
      assert b[j].path == a[i].path && b[j].status == a[i].status;
    }
  }

  // ----- In terms of the entries alone -----

  /** One entry with this path and status. */
  predicate Reported(entries: seq<Entry>, path: string, status: Status) {
    exists i :: 0 <= i < |entries| && entries[i].path == path && entries[i].status == status
  }

  lemma StatusesAreReported(entries: seq<Entry>, path: string, status: Status)
    ensures status in StatusesOf(entries, path) <==> Reported(entries, path, status)
  {
  }

  lemma PathsAreReported(entries: seq<Entry>, path: string)
    ensures path in Paths(entries) <==> exists status :: Reported(entries, path, status)
  {
    if path in Paths(entries) {
      var i :| 0 <= i < |entries| && entries[i].path == path;
      assert Reported(entries, path, entries[i].status);
    }
  }

  lemma Alone(statuses: set<Status>, status: Status)
    requires status in statuses && forall s :: s in statuses ==> s == status
    ensures statuses == {status} && |statuses| == 1
  {
    assert statuses == {status};
  }

  /** A path is in conflict if any entry says so; it has the status all its entries agree on; and it is
      unknown if they disagree. */
  lemma StatusOfPath(entries: seq<Entry>, path: string, a: Status, b: Status)
    requires Reported(entries, path, a) && Reported(entries, path, b)
    ensures path in Unique(entries)
    ensures a == Conflict ==> Unique(entries)[path] == Conflict
    ensures (forall s :: Reported(entries, path, s) ==> s == a) ==> Unique(entries)[path] == a
    ensures a != b && !Reported(entries, path, Conflict) ==> Unique(entries)[path] == Unknown
  {
    var statuses := StatusesOf(entries, path);
    forall s ensures s in statuses <==> Reported(entries, path, s) {
      StatusesAreReported(entries, path, s);
    }
    PathsAreReported(entries, path);
    if forall s :: Reported(entries, path, s) ==> s == a {
      Alone(statuses, a);
    }
    if a != b && |statuses| == 1 {
      OnlyOne(statuses, a, b);
    }
  }

  /** A folder is summarised exactly when the path of some entry starts with it and a slash. */
  lemma FoldersOfPaths(entries: seq<Entry>, unavailable: bool, folder: string)
    ensures folder in Summaries(Unique(entries), unavailable) <==>
              exists path :: path in Paths(entries) && folder + "/" <= path
    ensures folder in Summaries(Unique(entries), unavailable) ==>
              Summaries(Unique(entries), unavailable)[folder].unavailable == unavailable
  {
    FoldersAreAbove(Unique(entries), folder);
    if path :| path in Paths(entries) && folder + "/" <= path {
      PrefixIsBelow(folder, path);
      assert path in Unique(entries) && IsBelow(folder, path);
    }
    if path :| path in Unique(entries) && IsBelow(folder, path) {
      PrefixIsBelow(folder, path);
      assert path in Paths(entries) && folder + "/" <= path;
    }
  }

  lemma PrefixIsBelow(folder: string, path: string)
    ensures IsBelow(folder, path) <==> folder + "/" <= path
  {
    if IsBelow(folder, path) {
      assert path[..|folder| + 1] == folder + "/";
    }
    if folder + "/" <= path {
      assert path[..|folder|] == (folder + "/")[..|folder|] && path[|folder|] == (folder + "/")[|folder|];
    }
  }

  /** A folder counts, for each status, the paths with that status that start with it and a slash. */
  lemma CountsOfFolder(entries: seq<Entry>, unavailable: bool, folder: string, status: Status)
    requires folder in Summaries(Unique(entries), unavailable)
    ensures CountAt(Summaries(Unique(entries), unavailable)[folder].counts, status)
            == |set path | path in Paths(entries) && folder + "/" <= path && Unique(entries)[path] == status|
  {
    var unique := Unique(entries);
    var below := Below(folder, unique);
    forall path ensures IsBelow(folder, path) <==> folder + "/" <= path {
      PrefixIsBelow(folder, path);
    }
    var counted := set path | path in Paths(entries) && folder + "/" <= path && unique[path] == status;
    assert WithStatus(below, unique, status) == counted;
    if status !in StatusesIn(below, unique) {
      assert counted == {};
    }
  }
}
