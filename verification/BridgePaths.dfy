/** The bridge's purely lexical resolver, and its agreement with `PathResolution` where no
    symbolic links are involved. */
module BridgePaths {
  import opened Collections
  import opened Wrappers
  import opened Strings
  import PR = PathResolution

  /** `std::path::Component` on Unix. A path is compared, and built, component by component. */
  datatype Component = RootDir | CurDir | ParentDir | Normal(name: string)

  datatype PathError = InvalidRelative(path: string) | ReservedName | EscapesRoot(path: string)

  /** The components of path segments that do not open the path: empty and `.` segments vanish. */
  function Tail(segs: seq<string>): seq<Component> {
    if segs == [] then []
    else if segs[0] == "" || segs[0] == "." then Tail(segs[1..])
    else [if segs[0] == ".." then ParentDir else Normal(segs[0])] + Tail(segs[1..])
  }

  /** `Path::components`. */
  function PathComponents(path: string): seq<Component> {
    var segs := Split(path, '/');
    if StartsWith(path, '/') then [RootDir] + Tail(segs)
    else if segs[0] == "." then [CurDir] + Tail(segs)
    else Tail(segs)
  }

  /** `Path::join`. */
  function PathJoin(root: string, rel: string): string {
    if StartsWith(rel, '/') then rel
    else if root == "" || root[|root| - 1] == '/' then root + rel
    else root + "/" + rel
  }

  /** `PathBuf::pop`: the root has no parent. */
  function Parent(path: seq<Component>): seq<Component> {
    if path == [] || path[|path| - 1].RootDir? then path else path[..|path| - 1]
  }

  /** What is left of `comps` after `.` and `..` are worked off on top of `base`. */
  function Collapse(comps: seq<Component>, base: seq<Component>): seq<Component> {
    if comps == [] then base
    else match comps[0]
      case ParentDir => Collapse(comps[1..], Parent(base))
      case CurDir => Collapse(comps[1..], base)
      case _ => Collapse(comps[1..], base + [comps[0]])
  }

  method NormalizeJoined(root: string, rel: string) returns (normalized: seq<Component>)
    ensures normalized == Collapse(PathComponents(PathJoin(root, rel)), [])
  {
    normalized := [];
    var comps := PathComponents(PathJoin(root, rel));
    var i := 0;
    assert comps[0..] == comps;
    while i < |comps|
      invariant i <= |comps|
      invariant Collapse(comps[i..], normalized) == Collapse(comps, [])
    {
      assert comps[i..][1..] == comps[i + 1..];
      match comps[i] {
        case ParentDir => normalized := Parent(normalized);
        case CurDir =>
        case _ => normalized := normalized + [comps[i]];
      }
      i := i + 1;
    }
  }

  method ResolveFileInRoot(root: string, rel: string) returns (result: Result<seq<Component>, PathError>)
    ensures result == FileInRoot(root, rel)
  {
    if rel == "" || StartsWith(rel, '/') {
      return Failure(InvalidRelative(rel));
    }
    if Normal(".spin") in PathComponents(rel) {
      return Failure(ReservedName);
    }
    var normalized := NormalizeJoined(root, rel);
    if !(PathComponents(root) <= normalized) {
      return Failure(EscapesRoot(rel));
    }
    return Success(normalized);
  }

  function FileInRoot(root: string, rel: string): Result<seq<Component>, PathError> {
    var normalized := Collapse(PathComponents(PathJoin(root, rel)), []);
    if rel == "" || StartsWith(rel, '/') then Failure(InvalidRelative(rel))
    else if Normal(".spin") in PathComponents(rel) then Failure(ReservedName)
    else if !(PathComponents(root) <= normalized) then Failure(EscapesRoot(rel))
    else Success(normalized)
  }

  // ----- Canonical roots -----

  predicate RootName(name: string) {
    name != "" && name != "." && name != ".." && '/' !in name
  }

  function Normals(names: seq<string>): (comps: seq<Component>)
    ensures |comps| == |names|
    ensures forall i :: 0 <= i < |names| ==> comps[i] == Normal(names[i])
  {
    if names == [] then [] else [Normal(names[0])] + Normals(names[1..])
  }

  predicate RootNames(names: seq<string>) {
    forall i :: 0 <= i < |names| ==> RootName(names[i])
  }

  /** A canonicalised absolute directory. */
  function RootPath(names: seq<string>): string {
    "/" + Join(names, '/')
  }

  lemma {:induction false} TailConcat(a: seq<string>, b: seq<string>)
    ensures Tail(a + b) == Tail(a) + Tail(b)
  {
    if a == [] {
      assert a + b == b;
    } else {
      assert (a + b)[1..] == a[1..] + b;
      TailConcat(a[1..], b);
    }
  }

  lemma {:induction false} TailOfNames(names: seq<string>)
    requires RootNames(names)
    ensures Tail(names) == Normals(names)
  {
    if names != [] {
      TailOfNames(names[1..]);
    }
  }

  lemma {:induction false} CollapseConcat(a: seq<Component>, b: seq<Component>, base: seq<Component>)
    ensures Collapse(a + b, base) == Collapse(b, Collapse(a, base))
  {
    if a == [] {
      assert a + b == b;
    } else {
      assert (a + b)[1..] == a[1..] + b;
      match a[0] {
        case ParentDir => CollapseConcat(a[1..], b, Parent(base));
        case CurDir => CollapseConcat(a[1..], b, base);
        case _ => CollapseConcat(a[1..], b, base + [a[0]]);
      }
    }
  }

  lemma CollapseFirst(first: Component, rest: seq<Component>, base: seq<Component>)
    ensures Collapse([first] + rest, base)
            == match first
               case ParentDir => Collapse(rest, Parent(base))
               case CurDir => Collapse(rest, base)
               case _ => Collapse(rest, base + [first])
  {
    assert ([first] + rest)[1..] == rest;
  }

  lemma {:induction false} CollapseNormals(names: seq<string>, base: seq<Component>)
    ensures Collapse(Normals(names), base) == base + Normals(names)
  {
    if names == [] {
      assert base + Normals(names) == base;
    } else {
      var first, rest := Normal(names[0]), Normals(names[1..]);
      CollapseFirst(first, rest, base);
      CollapseNormals(names[1..], base + [first]);
      Regroup(base, [first], rest);
    }
  }

  lemma RootComponents(names: seq<string>)
    requires RootNames(names)
    ensures PathComponents(RootPath(names)) == [RootDir] + Normals(names)
    ensures Tail(Split(RootPath(names), '/')) == Normals(names)
  {
    var root := RootPath(names);
    assert root == "" + ['/'] + Join(names, '/');
    SplitConcat("", Join(names, '/'), '/');
    assert Split(root, '/') == [""] + Split(Join(names, '/'), '/');
    assert Split(root, '/')[1..] == Split(Join(names, '/'), '/');
    if names == [] {
      assert Tail([""]) == Tail([]);
    } else {
      SplitJoin(names, '/');
      TailOfNames(names);
    }
  }

  /** Joining a relative path to a canonical root appends the path's segments to the root's. */
  lemma JoinedTail(names: seq<string>, rel: string)
    requires RootNames(names) && !StartsWith(rel, '/')
    ensures PathComponents(PathJoin(RootPath(names), rel)) == [RootDir] + (Normals(names) + Tail(Split(rel, '/')))
  {
    var root := RootPath(names);
    var joined := PathJoin(root, rel);
    assert joined[0] == '/';
    RootComponents(names);
    if names == [] {
      assert joined == "" + ['/'] + rel;
      SplitConcat("", rel, '/');
      assert Split(joined, '/')[1..] == Split(rel, '/');
      assert Normals(names) + Tail(Split(rel, '/')) == Tail(Split(rel, '/'));
    } else {
      LastOfJoin(names);
      assert joined == root + ['/'] + rel;
      SplitConcat(root, rel, '/');
      TailConcat(Split(root, '/'), Split(rel, '/'));
    }
  }

  lemma LastOfJoin(names: seq<string>)
    requires RootNames(names) && names != []
    ensures RootPath(names)[|RootPath(names)| - 1] != '/'
  {
    var front, last := names[..|names| - 1], names[|names| - 1];
    assert names == front + [last];
    assert RootName(last) && last[|last| - 1] in last;
    if front != [] {
      JoinConcat(front, [last], '/');
    }
  }

  /** The lexical result is the root with the path worked off on top of it. */
  lemma LexicalResult(names: seq<string>, rel: string)
    requires RootNames(names) && !StartsWith(rel, '/')
    ensures Collapse(PathComponents(PathJoin(RootPath(names), rel)), [])
            == Collapse(Tail(Split(rel, '/')), [RootDir] + Normals(names))
  {
    JoinedTail(names, rel);
    var tail := Tail(Split(rel, '/'));
    var comps := [RootDir] + (Normals(names) + tail);
    assert comps[1..] == Normals(names) + tail;
    assert [] + [RootDir] == [RootDir];
    CollapseConcat(Normals(names), tail, [RootDir]);
    CollapseNormals(names, [RootDir]);
  }

  // ----- What is accepted, and what is refused -----

  /** Read from left to right: how far the segments climb out, and the names they then go down.
      `ups` and `down` are what the segments before them came to. */
  function Reduced(segs: seq<string>, ups: nat, down: seq<string>): (nat, seq<string>) {
    if segs == [] then (ups, down)
    else if segs[0] == "" || segs[0] == "." then Reduced(segs[1..], ups, down)
    else if segs[0] != ".." then Reduced(segs[1..], ups, down + [segs[0]])
    else if down == [] then Reduced(segs[1..], ups + 1, [])
    else Reduced(segs[1..], ups, down[..|down| - 1])
  }

  /** The directory `ups` levels above; there is none above `/`. */
  function Above(names: seq<string>, ups: nat): seq<string> {
    if ups >= |names| then [] else names[..|names| - ups]
  }

  function Landed(names: seq<string>, rel: string): seq<string> {
    var (ups, down) := Reduced(Split(rel, '/'), 0, []);
    Above(names, ups) + down
  }

  lemma NormalsConcat(a: seq<string>, b: seq<string>)
    ensures Normals(a + b) == Normals(a) + Normals(b)
  {
    forall i | 0 <= i < |a + b| ensures Normals(a + b)[i] == (Normals(a) + Normals(b))[i] {
      assert i < |a| ==> (a + b)[i] == a[i];
    }
  }

  lemma NormalsPrefix(a: seq<string>, b: seq<string>)
    ensures [RootDir] + Normals(a) <= [RootDir] + Normals(b) <==> a <= b
  {
    var x, y := [RootDir] + Normals(a), [RootDir] + Normals(b);
    if a <= b {
      assert b == a + b[|a|..];
      NormalsConcat(a, b[|a|..]);
    }
    if x <= y {
      forall i | 0 <= i < |a| ensures a[i] == b[i] {
        assert x[i + 1] == y[i + 1] && x[i + 1] == Normal(a[i]) && y[i + 1] == Normal(b[i]);
      }
    }
  }

  function WithoutLast(names: seq<string>): seq<string> {
    if names == [] then [] else names[..|names| - 1]
  }

  lemma ParentOfNames(names: seq<string>)
    ensures Parent([RootDir] + Normals(names)) == [RootDir] + Normals(WithoutLast(names))
  {
    if names != [] {
      assert names == names[..|names| - 1] + [names[|names| - 1]];
      NormalsConcat(names[..|names| - 1], [names[|names| - 1]]);
    }
  }

  lemma ClimbFromBelow(names: seq<string>, ups: nat, down: seq<string>)
    requires down != []
    ensures WithoutLast(Above(names, ups) + down) == Above(names, ups) + down[..|down| - 1]
  {
  }

  lemma ClimbFurther(names: seq<string>, ups: nat)
    ensures WithoutLast(Above(names, ups) + []) == Above(names, ups + 1) + []
  {
    assert Above(names, ups) + [] == Above(names, ups);
  }

  function Standing(names: seq<string>, ups: nat, down: seq<string>): seq<Component> {
    [RootDir] + Normals(Above(names, ups) + down)
  }

  lemma StandingUp(names: seq<string>, ups: nat, down: seq<string>, rest: seq<Component>)
    ensures Collapse([ParentDir] + rest, Standing(names, ups, down))
            == if down == [] then Collapse(rest, Standing(names, ups + 1, []))
               else Collapse(rest, Standing(names, ups, down[..|down| - 1]))
  {
    CollapseFirst(ParentDir, rest, Standing(names, ups, down));
    assert Parent(Standing(names, ups, down))
        == if down == [] then Standing(names, ups + 1, []) else Standing(names, ups, down[..|down| - 1]) by {
      ParentOfNames(Above(names, ups) + down);
      if down == [] {
        ClimbFurther(names, ups);
      } else {
        ClimbFromBelow(names, ups, down);
      }
    }
  }

  lemma StandingDown(names: seq<string>, ups: nat, down: seq<string>, name: string, rest: seq<Component>)
    ensures Collapse([Normal(name)] + rest, Standing(names, ups, down))
            == Collapse(rest, Standing(names, ups, down + [name]))
  {
    var now := Above(names, ups) + down;
    CollapseFirst(Normal(name), rest, Standing(names, ups, down));
    NormalsConcat(now, [name]);
    assert Normals([name]) == [Normal(name)];
    Regroup([RootDir], Normals(now), [Normal(name)]);
    Regroup(Above(names, ups), down, [name]);
  }

  /** The collapse lands where climbing and going down lead. */
  lemma {:induction false} CollapseLands(names: seq<string>, segs: seq<string>, ups: nat, down: seq<string>)
    ensures var (u, d) := Reduced(segs, ups, down);
            Collapse(Tail(segs), Standing(names, ups, down)) == Standing(names, u, d)
    decreases |segs|
  {
    if segs != [] {
      var seg, rest := segs[0], Tail(segs[1..]);
      if seg == "" || seg == "." {
        CollapseLands(names, segs[1..], ups, down);
      } else if seg != ".." {
        StandingDown(names, ups, down, seg, rest);
        CollapseLands(names, segs[1..], ups, down + [seg]);
      } else {
        StandingUp(names, ups, down, rest);
        if down == [] {
          CollapseLands(names, segs[1..], ups + 1, []);
        } else {
          CollapseLands(names, segs[1..], ups, down[..|down| - 1]);
        }
      }
    }
  }

  /** On a canonical root: empty and absolute paths are invalid, `.spin` is reserved as any segment,
      and the rest is accepted exactly when it lands on the root or below it. */
  lemma FileInRootIsExact(names: seq<string>, rel: string)
    requires RootNames(names)
    ensures FileInRoot(RootPath(names), rel)
            == if rel == "" || rel[0] == '/' then Failure(InvalidRelative(rel))
               else if ".spin" in Split(rel, '/') then Failure(ReservedName)
               else if names <= Landed(names, rel) then Success([RootDir] + Normals(Landed(names, rel)))
               else Failure(EscapesRoot(rel))
  {
    if rel != "" && rel[0] != '/' {
      LexicalResult(names, rel);
      RootComponents(names);
      ReservedInTail(Split(rel, '/'));
      assert Above(names, 0) + [] == names;
      CollapseLands(names, Split(rel, '/'), 0, []);
      NormalsPrefix(names, Landed(names, rel));
    }
  }

  /** What is accepted lies in the root, whatever the root is. */
  lemma AcceptedLiesInRoot(root: string, rel: string)
    ensures FileInRoot(root, rel).Success? ==> PathComponents(root) <= FileInRoot(root, rel).value
  {
  }

  predicate Collapsed(comps: seq<Component>) {
    forall i :: 0 <= i < |comps| ==> comps[i].RootDir? || comps[i].Normal?
  }

  lemma {:induction false} CollapseCollapses(comps: seq<Component>, base: seq<Component>)
    requires Collapsed(base)
    ensures Collapsed(Collapse(comps, base))
    decreases |comps|
  {
    if comps != [] {
      match comps[0] {
        case ParentDir => CollapseCollapses(comps[1..], Parent(base));
        case CurDir => CollapseCollapses(comps[1..], base);
        case _ => CollapseCollapses(comps[1..], base + [comps[0]]);
      }
    }
  }

  lemma {:induction false} TailKeepsParents(segs: seq<string>)
    requires ".." in segs
    ensures ParentDir in Tail(segs)
  {
    if segs[0] != ".." {
      TailKeepsParents(segs[1..]);
    }
  }

  /** A root that opens with `.` or goes through `..` contains no file: roots have to be collapsed. */
  lemma RootsAreCollapsed(root: string, rel: string)
    requires Split(root, '/')[0] == "." || ".." in Split(root, '/')
    ensures FileInRoot(root, rel).Failure?
  {
    var comps, normalized := PathComponents(root), Collapse(PathComponents(PathJoin(root, rel)), []);
    CollapseCollapses(PathComponents(PathJoin(root, rel)), []);
    assert !Collapsed(comps) by {
      if ".." in Split(root, '/') {
        TailKeepsParents(Split(root, '/'));
        assert ParentDir in comps;
      } else {
        SplitStart(root);
        assert comps[0] == CurDir;
      }
    }
  }

  lemma SplitStart(root: string)
    requires Split(root, '/')[0] == "."
    ensures !StartsWith(root, '/')
  {
  }

  lemma ReducedSibling(sibling: string)
    requires RootName(sibling)
    ensures Split("../" + sibling, '/') == ["..", sibling]
    ensures Reduced(Split("../" + sibling, '/'), 0, []) == (1, [sibling])
  {
    var segs := ["..", sibling];
    assert segs[1..] == [sibling] && Join([sibling], '/') == sibling && Join(segs, '/') == "../" + sibling;
    SplitJoin(segs, '/');
    assert [sibling][1..] == [] && [] + [sibling] == [sibling];
    assert Reduced(segs, 0, []) == Reduced([sibling], 1, []) == Reduced([], 1, [sibling]);
  }

  /** Climbing out of the root and into a sibling is refused. */
  lemma SiblingEscapes(above: seq<string>, name: string, sibling: string)
    requires RootNames(above) && RootName(name) && RootName(sibling) && sibling != name && sibling != ".spin"
    ensures var rel := "../" + sibling;
            FileInRoot(RootPath(above + [name]), rel) == Failure(EscapesRoot(rel))
  {
    var names, rel := above + [name], "../" + sibling;
    ReducedSibling(sibling);
    FileInRootIsExact(names, rel);
    assert Landed(names, rel) == above + [sibling] by {
      assert Above(names, 1) == above;
    }
    OtherLast(above, name, sibling);
  }

  lemma OtherLast(front: seq<string>, a: string, b: string)
    requires a != b
    ensures !(front + [a] <= front + [b])
  {
    assert (front + [a])[|front|] != (front + [b])[|front|];
  }

  // ----- Agreement without links -----

  predicate NoLinkAt(readlink: PR.Resolver, path: string) {
    readlink(path) in {Failure(PR.Invalid), Failure(PR.NoEntry), Failure(PR.NotDirectory)}
  }

  ghost predicate LinkFree(readlink: PR.Resolver) {
    forall path :: NoLinkAt(readlink, path)
  }

  /** Read from left to right, the segments never climb above the depth they started at. */
  predicate NeverClimbs(segs: seq<string>, depth: nat) {
    if segs == [] then true
    else if segs[0] == "" || segs[0] == "." then NeverClimbs(segs[1..], depth)
    else if segs[0] == ".." then depth > 0 && NeverClimbs(segs[1..], depth - 1)
    else NeverClimbs(segs[1..], depth + 1)
  }

  lemma {:induction false} ReservedInTail(segs: seq<string>)
    ensures Normal(".spin") in Tail(segs) <==> ".spin" in segs
  {
    if segs != [] {
      ReservedInTail(segs[1..]);
      assert segs == [segs[0]] + segs[1..];
    }
  }

  /** Without links a component halts a walk only if it is reserved or climbs above the root. */
  lemma LinkFreeEffect(readlink: PR.Resolver, rel: string, comp: string, resolved: seq<string>)
    requires LinkFree(readlink)
    ensures var effect := PR.EffectOf(readlink, rel, comp, resolved);
            && !effect.Expand?
            && (effect.Halt? <==> comp == ".spin" || (comp == ".." && resolved == []))
  {
    assert NoLinkAt(readlink, Join(resolved + [comp], '/'));
  }

  /** Where a component leads the walk, it leads the collapse. */
  lemma EffectCollapses(readlink: PR.Resolver, rel: string, comp: string, rest: seq<string>, resolved: seq<string>,
                        base: seq<Component>)
    requires PR.EffectOf(readlink, rel, comp, resolved).Goto?
    ensures Collapse(Tail([comp] + rest), base + Normals(resolved))
            == Collapse(Tail(rest), base + Normals(PR.EffectOf(readlink, rel, comp, resolved).resolved))
  {
    var there, next := base + Normals(resolved), PR.EffectOf(readlink, rel, comp, resolved).resolved;
    assert ([comp] + rest)[1..] == rest;
    if comp == ".." {
      CollapseFirst(ParentDir, Tail(rest), there);
      assert Parent(there) == base + Normals(next);
    } else if comp != "" && comp != "." {
      CollapseFirst(Normal(comp), Tail(rest), there);
      assert there + [Normal(comp)] == base + Normals(next);
    }
  }

  /** Without links a walk is a lexical collapse that never climbs above the root. */
  lemma {:induction false} LinkFreeWalk(
    readlink: PR.Resolver, rel: string, segs: seq<string>, resolved: seq<string>, budget: nat, base: seq<Component>)
    requires LinkFree(readlink)
    ensures var walk := PR.Follow(readlink, rel, segs, resolved, budget);
            && (walk.Arrived? <==> ".spin" !in segs && NeverClimbs(segs, |resolved|))
            && (walk.Arrived? ==> Collapse(Tail(segs), base + Normals(resolved)) == base + Normals(walk.resolved))
    decreases |segs|
  {
    if segs != [] {
      assert segs == [segs[0]] + segs[1..];
      LinkFreeEffect(readlink, rel, segs[0], resolved);
      var effect := PR.EffectOf(readlink, rel, segs[0], resolved);
      if effect.Goto? {
        LinkFreeWalk(readlink, rel, segs[1..], effect.resolved, budget, base);
        EffectCollapses(readlink, rel, segs[0], segs[1..], resolved, base);
      }
    }
  }

  /** Without links: a non-empty path is accepted by `sanitize` exactly when the bridge accepts it
      and it never climbs above the root on the way; and then the bridge's file is the root
      followed by the components `sanitize` returns. */
  lemma ResolversAgree(readlink: PR.Resolver, names: seq<string>, rel: string)
    requires LinkFree(readlink) && RootNames(names) && rel != ""
    ensures PR.Resolve(readlink, rel).Success? <==>
              FileInRoot(RootPath(names), rel).Success? && NeverClimbs(Split(rel, '/'), 0)
    ensures PR.Resolve(readlink, rel).Success? ==>
              FileInRoot(RootPath(names), rel)
              == Success(PathComponents(RootPath(names)) + Normals(PR.Components(PR.Resolve(readlink, rel).value)))
  {
    if !StartsWith(rel, '/') {
      var segs := Split(rel, '/');
      var base := [RootDir] + Normals(names);
      LexicalResult(names, rel);
      RootComponents(names);
      ReservedInTail(segs);
      LinkFreeWalk(readlink, rel, segs, [], PR.MAX_SYMLINK_EXPANSIONS, base);
      assert base + Normals([]) == base;
      var walk := PR.WalkPath(readlink, rel, PR.MAX_SYMLINK_EXPANSIONS);
      if walk.Arrived? {
        SplitParts(rel, '/');
        PR.FollowCanonical(readlink, rel, segs, [], PR.MAX_SYMLINK_EXPANSIONS);
        PR.JoinedComponents(readlink, walk.resolved);
        assert base <= base + Normals(walk.resolved);
      }
    }
  }

  /** Climbing out of the root and back in by its own name is accepted by the bridge only. */
  lemma ClimbingBackIn(readlink: PR.Resolver, above: seq<string>, name: string)
    requires LinkFree(readlink) && RootNames(above) && RootName(name) && name != ".spin"
    ensures var names, rel := above + [name], "../" + name;
            && FileInRoot(RootPath(names), rel) == Success(PathComponents(RootPath(names)))
            && PR.Resolve(readlink, rel).Failure?
  {
    var names, segs := above + [name], ["..", name];
    var rel, base := "../" + name, [RootDir] + Normals(names);
    assert RootNames(names);
    assert segs[1..] == [name] && Join([name], '/') == name;
    assert Join(segs, '/') == rel;
    SplitJoin(segs, '/');
    LexicalResult(names, rel);
    RootComponents(names);
    BackIn(above, name);
    ReservedInTail(segs);
    assert PathComponents(rel) == Tail(segs);
    assert !NeverClimbs(segs, 0);
    ResolversAgree(readlink, names, rel);
  }

  lemma BackIn(above: seq<string>, name: string)
    requires RootName(name)
    ensures var base := [RootDir] + Normals(above + [name]);
            Collapse(Tail(["..", name]), base) == base
  {
    var base := [RootDir] + Normals(above + [name]);
    assert Normals([name]) == [Normal(name)];
    TailOfNames([name]);
    assert ["..", name][1..] == [name];
    CollapseFirst(ParentDir, [Normal(name)], base);
    CollapseNormals([name], Parent(base));
    assert Parent(base) + [Normal(name)] == base;
  }
}
