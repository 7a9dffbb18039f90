/** Verification of a cached plugin snapshot: a walk that counts the files of a directory tree, and
    one check for each listed file. Together they leave no room for a file that is not listed. */
module SnapshotVerify {
  import opened Collections
  import opened Wrappers
  import opened Strings

  /** A directory tree; the children of a directory stand in the order they are read. */
  datatype Node =
    | Directory(children: seq<Child>)
    | File(content: string, executable: bool)
    | Link
    | Special

  datatype Child = Child(name: string, node: Node)

  datatype FileKind = Regular | Executable | Symlink | Submodule

  datatype PackageFile = PackageFile(path: string, content: string, kind: FileKind)

  datatype Reason = NotADirectory | UnsupportedOrExtra | Missing | Changed
  datatype Verdict = Verified | Refused(reason: Reason)

  /** A path below the root, name by name. */
  type Path = seq<string>

  /** No directory has two entries of the same name. */
  predicate WellFormed(node: Node) {
    node.Directory? ==> WellFormedList(node.children)
  }

  predicate WellFormedList(children: seq<Child>) {
    children == []
    || (WellFormed(children[0].node) && Find(children[1..], children[0].name).None? && WellFormedList(children[1..]))
  }

  function Find(children: seq<Child>, name: string): Option<Node> {
    if children == [] then None
    else if children[0].name == name then Some(children[0].node)
    else Find(children[1..], name)
  }

  /** What lies at a path, links not followed. */
  function Lookup(node: Node, path: Path): Option<Node>
    decreases |path|
  {
    if path == [] then Some(node)
    else if !node.Directory? then None
    else
      var child :- Find(node.children, path[0]);
      Lookup(child, path[1..])
  }

  // ----- The walk -----

  function FileCount(children: seq<Child>): nat {
    if children == [] then 0 else NodeCount(children[0].node) + FileCount(children[1..])
  }

  function NodeCount(node: Node): nat {
    match node
    case Directory(children) => FileCount(children)
    case File(_, _) => 1
    case _ => 0
  }

  /** Nothing but directories and files. */
  predicate Supported(node: Node) {
    match node
    case Directory(children) => AllSupported(children)
    case File(_, _) => true
    case _ => false
  }

  predicate AllSupported(children: seq<Child>) {
    children == [] || (Supported(children[0].node) && AllSupported(children[1..]))
  }

  function Size(node: Node): nat {
    1 + if node.Directory? then ListSize(node.children) else 0
  }

  function ListSize(children: seq<Child>): nat {
    if children == [] then 0 else Size(children[0].node) + ListSize(children[1..])
  }

  /** The directories still to read. */
  predicate Directories(pending: seq<Child>) {
    forall i :: 0 <= i < |pending| ==> pending[i].node.Directory?
  }

  lemma {:induction false} Append(a: seq<Child>, b: seq<Child>)
    ensures FileCount(a + b) == FileCount(a) + FileCount(b)
    ensures AllSupported(a + b) <==> AllSupported(a) && AllSupported(b)
    ensures ListSize(a + b) == ListSize(a) + ListSize(b)
    decreases |a|
  {
    if a == [] {
      assert a + b == b;
    } else {
      assert (a + b)[0] == a[0] && (a + b)[1..] == a[1..] + b;
      Append(a[1..], b);
    }
  }

  lemma One(child: Child)
    ensures FileCount([child]) == NodeCount(child.node)
    ensures AllSupported([child]) <==> Supported(child.node)
    ensures ListSize([child]) == Size(child.node)
  {
    assert [child][1..] == [];
  }

  lemma Last(pending: seq<Child>)
    requires pending != []
    ensures var front, last := pending[..|pending| - 1], pending[|pending| - 1];
            && FileCount(pending) == FileCount(front) + NodeCount(last.node)
            && (AllSupported(pending) <==> AllSupported(front) && Supported(last.node))
            && ListSize(pending) == ListSize(front) + Size(last.node)
  {
    assert pending == pending[..|pending| - 1] + [pending[|pending| - 1]];
    Append(pending[..|pending| - 1], [pending[|pending| - 1]]);
    One(pending[|pending| - 1]);
  }

  /** The walk's outcome: nothing, if it finds only directories and files and no more of the latter
      than are listed; the count then. */
  method CountFiles(root: Node, listed: nat) returns (count: Option<nat>)
    requires root.Directory?
    ensures count == if Supported(root) && NodeCount(root) <= listed then Some(NodeCount(root)) else None
  {
    var pending := [Child("", root)];
    var found: nat := 0;
    One(pending[0]);
    while pending != []
      invariant Directories(pending)
      invariant found + FileCount(pending) == NodeCount(root)
      invariant AllSupported(pending) <==> Supported(root)
      invariant found <= listed
      decreases ListSize(pending)
    {
      Last(pending);
      var directory := pending[|pending| - 1].node;
      pending := pending[..|pending| - 1];
      var ok;
      pending, found, ok := ReadDirectory(directory.children, pending, found, listed);
      if !ok {
        return None;
      }
    }
    return Some(found);
  }

  /** Reading one directory: its subdirectories wait, its files count. */
  method ReadDirectory(entries: seq<Child>, waiting: seq<Child>, counted: nat, listed: nat)
    returns (pending: seq<Child>, found: nat, ok: bool)
    requires Directories(waiting) && counted <= listed
    ensures ok ==> Directories(pending) && found <= listed
    ensures ok ==> found + FileCount(pending) == counted + FileCount(waiting) + FileCount(entries)
    ensures ok ==> (AllSupported(pending) <==> AllSupported(waiting) && AllSupported(entries))
    ensures ok ==> ListSize(pending) <= ListSize(waiting) + ListSize(entries)
    ensures !ok ==> !AllSupported(entries) || counted + FileCount(entries) > listed
  {
    pending, found := waiting, counted;
    var i := 0;
    assert entries[0..] == entries;
    while i < |entries|
      invariant i <= |entries|
      invariant Directories(pending) && found <= listed && counted <= found
      invariant found + FileCount(pending) + FileCount(entries[i..])
                == counted + FileCount(waiting) + FileCount(entries)
      invariant AllSupported(pending) && AllSupported(entries[i..]) <==> AllSupported(waiting) && AllSupported(entries)
      invariant AllSupported(entries) ==> AllSupported(entries[i..])
      invariant found + FileCount(entries[i..]) <= counted + FileCount(entries)
      invariant ListSize(pending) + ListSize(entries[i..]) <= ListSize(waiting) + ListSize(entries)
    {
      var entry := entries[i];
      assert entries[i..][0] == entry && entries[i..][1..] == entries[i + 1..];
      if entry.node.Directory? {
        Append(pending, [entry]);
        One(entry);
        pending := pending + [entry];
      } else if entry.node.File? {
        found := found + 1;
      } else {
        return pending, found, false;
      }
      if found > listed {
        return pending, found, false;
      }
      i := i + 1;
    }
    ok := true;
  }

  // ----- The listed files -----

  function FileAt(file: PackageFile): Node {
    File(file.content, file.kind == Executable)
  }

  /** The listed file lies at its path with its content and mode. */
  predicate Present(root: Node, file: PackageFile) {
    Lookup(root, Split(file.path, '/')) == Some(FileAt(file))
  }

  lemma {:induction false} PrefixFound(node: Node, path: Path, n: nat)
    requires n <= |path| && Lookup(node, path).Some?
    ensures Lookup(node, path[..n]).Some?
    ensures n < |path| ==> Lookup(node, path[..n]).value.Directory?
    decreases n
  {
    if n > 0 {
      assert path[..n][1..] == path[1..][..n - 1];
      PrefixFound(Find(node.children, path[0]).value, path[1..], n - 1);
    }
  }

  lemma NotPresent(root: Node, file: PackageFile, n: nat)
    requires n <= |Split(file.path, '/')|
    requires var found := Lookup(root, Split(file.path, '/')[..n]); found.None? || found.value.Link?
    ensures !Present(root, file)
  {
    var parts := Split(file.path, '/');
    assert parts[..|parts|] == parts;
    if Present(root, file) {
      PrefixFound(root, parts, n);
    }
  }

  /** Every prefix of the path is looked at and must not be a link; then the target is compared. */
  method CheckFile(root: Node, file: PackageFile) returns (ok: bool)
    ensures ok <==> Present(root, file)
  {
    var parts := Split(file.path, '/');
    var n := 0;
    while n < |parts|
      invariant n <= |parts|
      invariant forall k :: 0 < k <= n ==> Lookup(root, parts[..k]).Some?
    {
      n := n + 1;
      var found := Lookup(root, parts[..n]);
      if found.None? || found.value.Link? {
        NotPresent(root, file, n);
        return false;
      }
    }
    assert parts[..|parts|] == parts;
    var target := Lookup(root, parts).value;
    if target.File? && target.executable != (file.kind == Executable) {
      return false;
    }
    if !target.File? || |target.content| != |file.content| || target.content != file.content {
      return false;
    }
    return true;
  }

  predicate AllPresent(root: Node, files: seq<PackageFile>) {
    forall i :: 0 <= i < |files| ==> Present(root, files[i])
  }

  /** What the count and the checks accept. */
  predicate Accepted(root: Node, files: seq<PackageFile>) {
    root.Directory? && Supported(root) && NodeCount(root) == |files| && AllPresent(root, files)
  }

  /** The paths a package may list: no part is empty or a dot segment. */
  predicate NormalPath(path: string) {
    forall i :: 0 <= i < |Split(path, '/')| ==> Split(path, '/')[i] !in {"", ".", ".."}
  }

  /** The verdict, with the reasons in the order they are looked for. */
  function Judged(root: Node, files: seq<PackageFile>): Verdict {
    if !root.Directory? then Refused(NotADirectory)
    else if !Supported(root) || NodeCount(root) > |files| then Refused(UnsupportedOrExtra)
    else if NodeCount(root) < |files| then Refused(Missing)
    else if AllPresent(root, files) then Verified
    else Refused(Changed)
  }

  method VerifySnapshot(root: Node, files: seq<PackageFile>) returns (verdict: Verdict)
    requires forall i :: 0 <= i < |files| ==> NormalPath(files[i].path)
    ensures verdict == Judged(root, files)
    ensures verdict.Verified? <==> Accepted(root, files)
  {
    if root.Link? || !root.Directory? {
      return Refused(NotADirectory);
    }
    var count := CountFiles(root, |files|);
    if count.None? {
      return Refused(UnsupportedOrExtra);
    }
    if count.value != |files| {
      return Refused(Missing);
    }
    for i := 0 to |files|
      invariant AllPresent(root, files[..i])
    {
      var ok := CheckFile(root, files[i]);
      if !ok {
        return Refused(Changed);
      }
    }
    assert files[..|files|] == files;
    return Verified;
  }

  // ----- The files of a tree -----

  function Below(name: string, paths: set<Path>): set<Path> {
    set p | p in paths :: [name] + p
  }

  /** The paths of all files. */
  function ListFiles(children: seq<Child>): set<Path> {
    if children == [] then {} else Below(children[0].name, Files(children[0].node)) + ListFiles(children[1..])
  }

  function Files(node: Node): set<Path> {
    match node
    case Directory(children) => ListFiles(children)
    case File(_, _) => {[]}
    case _ => {}
  }

  lemma {:induction false} BelowCardinality(name: string, paths: set<Path>)
    ensures |Below(name, paths)| == |paths|
    decreases |paths|
  {
    if paths != {} {
      var p :| p in paths;
      var rest := paths - {p};
      BelowCardinality(name, rest);
      assert paths == rest + {p};
      assert Below(name, paths) == Below(name, rest) + {[name] + p};
      assert [name] + p !in Below(name, rest) by {
        forall q | q in rest ensures [name] + q != [name] + p {
          assert ([name] + q)[1..] == q && ([name] + p)[1..] == p;
        }
      }
    }
  }

  /** A file path in a list of children starts with the name of one of them. */
  lemma {:induction false} ListFilesNames(children: seq<Child>, p: Path)
    requires p in ListFiles(children)
    ensures p != [] && Find(children, p[0]).Some?
  {
    if p !in Below(children[0].name, Files(children[0].node)) {
      ListFilesNames(children[1..], p);
    }
  }

  /** The walk's count is the number of files. */
  lemma {:induction false} CountIsCardinality(node: Node)
    requires WellFormed(node)
    ensures NodeCount(node) == |Files(node)|
  {
    if node.Directory? {
      ListCountIsCardinality(node.children);
    }
  }

  lemma {:induction false} ListCountIsCardinality(children: seq<Child>)
    requires WellFormedList(children)
    ensures FileCount(children) == |ListFiles(children)|
  {
    if children != [] {
      var name := children[0].name;
      var here, rest := Below(name, Files(children[0].node)), ListFiles(children[1..]);
      CountIsCardinality(children[0].node);
      BelowCardinality(name, Files(children[0].node));
      ListCountIsCardinality(children[1..]);
      forall p | p in here && p in rest ensures false {
        ListFilesNames(children[1..], p);
      }
      assert here !! rest;
    }
  }

  /** A path is a file's exactly when looking it up finds a file. */
  lemma {:induction false} FilesAreFound(node: Node, p: Path)
    requires WellFormed(node)
    ensures p in Files(node) <==> Lookup(node, p).Some? && Lookup(node, p).value.File?
  {
    if node.Directory? && p != [] {
      ListFilesAreFound(node.children, p);
    } else if node.Directory? && p in ListFiles(node.children) {
      ListFilesNames(node.children, p);
    }
  }

  lemma {:induction false} ListFilesAreFound(children: seq<Child>, p: Path)
    requires WellFormedList(children) && p != []
    ensures p in ListFiles(children) <==>
              && Find(children, p[0]).Some?
              && Lookup(Find(children, p[0]).value, p[1..]).Some?
              && Lookup(Find(children, p[0]).value, p[1..]).value.File?
  {
    if children != [] {
      var first := children[0];
      assert p == [p[0]] + p[1..];
      ListFilesAreFound(children[1..], p);
      FilesAreFound(first.node, p[1..]);
      if p in Below(first.name, Files(first.node)) {
        var q :| q in Files(first.node) && p == [first.name] + q;
        assert p[1..] == q;
      }
    }
  }

  // ----- A verified snapshot is exactly the listed files -----

  predicate DistinctPaths(files: seq<PackageFile>) {
    forall i, j :: 0 <= i < j < |files| ==> files[i].path != files[j].path
  }

  function Listed(files: seq<PackageFile>): set<Path> {
    set i | 0 <= i < |files| :: Split(files[i].path, '/')
  }

  lemma ListedTwice(files: seq<PackageFile>, i: nat, j: nat)
    requires i < j < |files| && files[i].path == files[j].path
    ensures Listed(files) == Listed(files[..j] + files[j + 1..])
  {
    var rest := files[..j] + files[j + 1..];
    forall k | 0 <= k < |files| ensures Split(files[k].path, '/') in Listed(rest) {
      var at := if k < j then k else if k == j then i else k - 1;
      assert rest[at].path == files[k].path;
    }
    forall k | 0 <= k < |rest| ensures Split(rest[k].path, '/') in Listed(files) {
      assert rest[k] == files[if k < j then k else k + 1];
    }
  }

  lemma {:induction false} ListedCardinality(files: seq<PackageFile>)
    requires DistinctPaths(files)
    ensures |Listed(files)| == |files|
  {
    if files != [] {
      var n := |files| - 1;
      var front, last := files[..n], Split(files[n].path, '/');
      ListedCardinality(front);
      forall i | 0 <= i < n ensures Split(front[i].path, '/') != last {
        JoinSplit(front[i].path, '/');
        JoinSplit(files[n].path, '/');
      }
      assert Listed(files) == Listed(front) + {last};
    }
  }

  lemma {:induction false} ListedAtMost(files: seq<PackageFile>)
    ensures |Listed(files)| <= |files|
  {
    if files != [] {
      var n := |files| - 1;
      ListedAtMost(files[..n]);
      assert Listed(files) == Listed(files[..n]) + {Split(files[n].path, '/')};
    }
  }

  /** Paths are distinct exactly when as many are listed as there are files. */
  lemma DistinctPathsAreCounted(files: seq<PackageFile>)
    ensures |Listed(files)| == |files| <==> DistinctPaths(files)
  {
    if DistinctPaths(files) {
      ListedCardinality(files);
    } else {
      var i, j :| 0 <= i < j < |files| && files[i].path == files[j].path;
      ListedTwice(files, i, j);
      ListedAtMost(files[..j] + files[j + 1..]);
    }
  }

  /** Whatever is found below a node is a directory or a file. */
  ghost predicate OnlyFiles(node: Node) {
    forall p: Path :: Lookup(node, p).Some? ==> Lookup(node, p).value.Directory? || Lookup(node, p).value.File?
  }

  /** The files at these paths, with their contents and modes, and nothing but directories besides. */
  ghost predicate Exact(root: Node, files: seq<PackageFile>) {
    && root.Directory?
    && (forall i :: 0 <= i < |files| ==>
          Lookup(root, Split(files[i].path, '/')) == Some(File(files[i].content, files[i].kind == Executable)))
    && (forall p: Path :: Lookup(root, p).Some? ==>
          || Lookup(root, p).value.Directory?
          || (Lookup(root, p).value.File? && exists i :: 0 <= i < |files| && p == Split(files[i].path, '/')))
  }

  lemma {:induction false} SupportedBelow(node: Node, p: Path)
    requires Supported(node) && Lookup(node, p).Some?
    ensures Lookup(node, p).value.Directory? || Lookup(node, p).value.File?
    decreases |p|
  {
    if p != [] {
      SupportedChild(node.children, p[0]);
      SupportedBelow(Find(node.children, p[0]).value, p[1..]);
    }
  }

  lemma {:induction false} SupportedChild(children: seq<Child>, name: string)
    requires AllSupported(children) && Find(children, name).Some?
    ensures Supported(Find(children, name).value)
  {
    if children[0].name != name {
      SupportedChild(children[1..], name);
    }
  }

  lemma ChildIsFound(children: seq<Child>, p: Path)
    requires children != []
    ensures Lookup(Directory(children), [children[0].name] + p) == Lookup(children[0].node, p)
  {
    assert ([children[0].name] + p)[1..] == p;
  }

  lemma RestIsFound(children: seq<Child>, p: Path)
    requires WellFormedList(children) && children != []
    ensures Lookup(Directory(children[1..]), p).Some? && p != [] ==>
              Lookup(Directory(children), p) == Lookup(Directory(children[1..]), p)
  {
  }

  /** A tree in which only directories and files are found has no other nodes. */
  lemma {:induction false} OnlyFilesIsSupported(node: Node)
    requires WellFormed(node) && OnlyFiles(node)
    ensures Supported(node)
    decreases node, 1
  {
    assert Lookup(node, []) == Some(node);
    if node.Directory? {
      assert node == Directory(node.children);
      OnlyFilesInList(node.children);
    }
  }

  lemma {:induction false} OnlyFilesInList(children: seq<Child>)
    requires WellFormedList(children) && OnlyFiles(Directory(children))
    ensures AllSupported(children)
    decreases children, 0
  {
    if children != [] {
      var first, rest := children[0].node, Directory(children[1..]);
      forall p: Path | Lookup(first, p).Some?
        ensures Lookup(first, p).value.Directory? || Lookup(first, p).value.File?
      {
        ChildIsFound(children, p);
        assert Lookup(Directory(children), [children[0].name] + p).Some?;
      }
      forall p: Path | Lookup(rest, p).Some? ensures Lookup(rest, p).value.Directory? || Lookup(rest, p).value.File? {
        RestIsFound(children, p);
        assert p != [] ==> Lookup(Directory(children), p).Some?;
      }
      OnlyFilesIsSupported(first);
      OnlyFilesInList(children[1..]);
    }
  }

  lemma SupportedIsOnlyFiles(node: Node)
    requires WellFormed(node)
    ensures Supported(node) <==> OnlyFiles(node)
  {
    if Supported(node) {
      forall p: Path | Lookup(node, p).Some? ensures Lookup(node, p).value.Directory? || Lookup(node, p).value.File? {
        SupportedBelow(node, p);
      }
    }
    if OnlyFiles(node) {
      OnlyFilesIsSupported(node);
    }
  }

  lemma ListedOrNot(files: seq<PackageFile>, p: Path)
    ensures p in Listed(files) <==> exists i :: 0 <= i < |files| && p == Split(files[i].path, '/')
  {
  }

  lemma Pigeonhole(part: set<Path>, whole: set<Path>)
    requires part <= whole && |part| == |whole|
    ensures part == whole
  {
    if part != whole {
      var p :| p in whole && p !in part;
      assert part + {p} <= whole;
      SubsetIsNoLarger(part + {p}, whole);
    }
  }

  lemma PresentAreFiles(root: Node, files: seq<PackageFile>)
    requires WellFormed(root) && AllPresent(root, files)
    ensures Listed(files) <= Files(root)
  {
    forall i | 0 <= i < |files| ensures Split(files[i].path, '/') in Files(root) {
      assert Present(root, files[i]);
      FilesAreFound(root, Split(files[i].path, '/'));
    }
  }

  lemma AcceptedIsExact(root: Node, files: seq<PackageFile>)
    requires WellFormed(root) && DistinctPaths(files) && Accepted(root, files)
    ensures Exact(root, files)
  {
    CountIsCardinality(root);
    ListedCardinality(files);
    PresentAreFiles(root, files);
    Pigeonhole(Listed(files), Files(root));
    forall i | 0 <= i < |files|
      ensures Lookup(root, Split(files[i].path, '/')) == Some(File(files[i].content, files[i].kind == Executable))
    {
      assert Present(root, files[i]);
    }
    forall p: Path | Lookup(root, p).Some? && !Lookup(root, p).value.Directory?
      ensures Lookup(root, p).value.File? && exists i :: 0 <= i < |files| && p == Split(files[i].path, '/')
    {
      SupportedBelow(root, p);
      FilesAreFound(root, p);
      ListedOrNot(files, p);
    }
  }

  lemma ExactIsAccepted(root: Node, files: seq<PackageFile>)
    requires WellFormed(root) && DistinctPaths(files) && Exact(root, files)
    ensures Accepted(root, files)
  {
    OnlyFilesIsSupported(root);
    assert AllPresent(root, files);
    forall p | p in Files(root) ensures p in Listed(files) {
      FilesAreFound(root, p);
      ListedOrNot(files, p);
    }
    PresentAreFiles(root, files);
    assert Files(root) == Listed(files);
    CountIsCardinality(root);
    ListedCardinality(files);
  }

  /** For any tree and any list of distinct paths, the count and the checks accept exactly the
      snapshots that hold the listed files and nothing else but directories. */
  lemma VerifiedIsExact(root: Node, files: seq<PackageFile>)
    requires WellFormed(root) && DistinctPaths(files)
    ensures Accepted(root, files) <==> Exact(root, files)
    ensures Judged(root, files) == Verified <==> Exact(root, files)
  {
    if Accepted(root, files) {
      AcceptedIsExact(root, files);
    }
    if Exact(root, files) {
      ExactIsAccepted(root, files);
    }
  }

  /** The reasons, in terms of what is found: something that is neither directory nor file, or more
      files than are listed; too few files; or a listed file that is not as it should be. */
  lemma ReasonsAreExact(root: Node, files: seq<PackageFile>)
    requires WellFormed(root)
    ensures var verdict, found := Judged(root, files), |Files(root)|;
            && (verdict == Refused(NotADirectory) <==> !root.Directory?)
            && (verdict == Refused(UnsupportedOrExtra) <==> root.Directory? && (!OnlyFiles(root) || found > |files|))
            && (verdict == Refused(Missing) <==> root.Directory? && OnlyFiles(root) && found < |files|)
            && (verdict == Refused(Changed) <==>
                  && root.Directory? && OnlyFiles(root) && found == |files|
                  && exists i :: && 0 <= i < |files|
                                 && Lookup(root, Split(files[i].path, '/'))
                                    != Some(File(files[i].content, files[i].kind == Executable)))
  {
    CountIsCardinality(root);
    SupportedIsOnlyFiles(root);
    if !AllPresent(root, files) {
      var i :| 0 <= i < |files| && !Present(root, files[i]);
    }
  }

  lemma OneFile(child: Child)
    requires child.node.File?
    ensures WellFormedList([child]) && AllSupported([child]) && FileCount([child]) == 1
    ensures Find([child], child.name) == Some(child.node)
    ensures forall name :: name != child.name ==> Find([child], name).None?
  {
    assert [child][1..] == [];
    assert WellFormed(child.node) && Supported(child.node) && NodeCount(child.node) == 1;
  }

  lemma TwoFiles(first: Child, second: Child)
    requires first.node.File? && second.node.File? && first.name != second.name
    ensures var root := Directory([first, second]);
            && WellFormed(root) && Supported(root) && NodeCount(root) == 2
            && Lookup(root, [first.name]) == Some(first.node) && Lookup(root, [second.name]) == Some(second.node)
  {
    var children := [first, second];
    OneFile(second);
    assert children[0] == first && children[1..] == [second];
    assert WellFormed(first.node) && Supported(first.node) && NodeCount(first.node) == 1;
    assert WellFormedList(children) && AllSupported(children);
    assert FileCount(children) == NodeCount(first.node) + FileCount([second]);
    assert Find(children, second.name) == Find([second], second.name);
    assert [first.name][1..] == [] && [second.name][1..] == [];
    assert Lookup(first.node, []) == Some(first.node) && Lookup(second.node, []) == Some(second.node);
  }

  /** A path listed twice leaves room for a file that is not listed. */
  lemma RepeatedPathHidesAFile(a: PackageFile, other: Child)
    requires Split(a.path, '/') == [a.path] && a.path != other.name && other.node.File?
    ensures var root := Directory([Child(a.path, FileAt(a)), other]);
            WellFormed(root) && Accepted(root, [a, a]) && [other.name] in Files(root) && [other.name] !in Listed([a, a])
  {
    var first := Child(a.path, FileAt(a));
    var root := Directory([first, other]);
    TwoFiles(first, other);
    assert Present(root, a);
    FilesAreFound(root, [other.name]);
    forall i | 0 <= i < 2 ensures Split([a, a][i].path, '/') != [other.name] {
      assert [a.path][0] != [other.name][0];
    }
  }
}
