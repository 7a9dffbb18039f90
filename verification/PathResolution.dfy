/** Symlink-aware path resolution: the work-list interpreter `sanitize` and the recursive
    meaning it computes. The file system is an arbitrary function from a path to the answer
    `readlink` gives for it. */
module PathResolution {
  import opened Wrappers
  import opened Strings

  datatype ErrorCode = Invalid | NoEntry | NotDirectory | Access | NotPermitted | Other(debug: string)

  /** The error messages are kept as the parts they are formatted from. */
  datatype FsError =
    | PathEscape(path: string)
    | Reserved(path: string)
    | NotFound(path: string)
    | PermissionDenied(path: string)
    | Io(code: ErrorCode, path: string)
    | TooManyLevels

  type Resolver = string -> Result<string, ErrorCode>

  const MAX_SYMLINK_EXPANSIONS: nat := 32

  function FsErrorAt(code: ErrorCode, path: string): FsError {
    match code
    case NoEntry => NotFound(path)
    case Access => PermissionDenied(path)
    case NotPermitted => PermissionDenied(path)
    case _ => Io(code, path)
  }

  predicate IsNotALink(answer: Result<string, ErrorCode>) {
    answer.Failure? && (answer.error.Invalid? || answer.error.NoEntry? || answer.error.NotDirectory?)
  }

  // ----- The recursive meaning -----

  /** Where a walk ends, and how many more links it could still have followed. */
  datatype Walk =
    | Arrived(resolved: seq<string>, left: nat)
    | Stopped(error: FsError, left: nat)
    | TooManyLinks

  /** What a single component does to a walk standing in the directory `resolved`. */
  datatype Effect = Goto(resolved: seq<string>) | Halt(error: FsError) | Expand(target: string)

  function EffectOf(readlink: Resolver, rel: string, comp: string, resolved: seq<string>): Effect {
    if comp == "" || comp == "." then Goto(resolved)
    else if comp == ".." then
      if resolved == [] then Halt(PathEscape(rel)) else Goto(resolved[..|resolved| - 1])
    else if comp == ".spin" then Halt(Reserved(rel))
    else
      var here := Join(resolved + [comp], '/');
      match readlink(here)
      case Success(target) => Expand(target)
      case Failure(code) =>
        if IsNotALink(readlink(here)) then Goto(resolved + [comp]) else Halt(FsErrorAt(code, here))
  }

  /** Resolve `comps` from the directory `resolved`, following at most `budget` links. A link is
      resolved completely, in the directory that holds it, before the rest is looked at. */
  function Follow(readlink: Resolver, rel: string, comps: seq<string>, resolved: seq<string>, budget: nat): (walk: Walk)
    ensures !walk.TooManyLinks? ==> walk.left <= budget
    decreases budget, |comps|
  {
    if comps == [] then Arrived(resolved, budget)
    else
      match EffectOf(readlink, rel, comps[0], resolved)
      case Goto(there) => Follow(readlink, rel, comps[1..], there, budget)
      case Halt(error) => Stopped(error, budget)
      case Expand(target) =>
        if budget == 0 then TooManyLinks
        else if StartsWith(target, '/') then Stopped(PathEscape(rel), budget - 1)
        else
          match Follow(readlink, rel, Split(target, '/'), resolved, budget - 1)
          case Arrived(there, left) => Follow(readlink, rel, comps[1..], there, left)
          case Stopped(error, left) => Stopped(error, left)
          case TooManyLinks => TooManyLinks
  }

  /** Continue a walk with `rest`. */
  function Onward(readlink: Resolver, rel: string, walk: Walk, rest: seq<string>): Walk {
    match walk
    case Arrived(there, left) => Follow(readlink, rel, rest, there, left)
    case Stopped(_, _) => walk
    case TooManyLinks => walk
  }

  function WalkPath(readlink: Resolver, rel: string, budget: nat): Walk {
    if StartsWith(rel, '/') then Stopped(PathEscape(rel), budget)
    else Follow(readlink, rel, Split(rel, '/'), [], budget)
  }

  function Answer(walk: Walk): Result<string, FsError> {
    match walk
    case Arrived(resolved, _) => Success(Join(resolved, '/'))
    case Stopped(error, _) => Failure(error)
    case TooManyLinks => Failure(TooManyLevels)
  }

  /** What `sanitize` returns. */
  function Resolve(readlink: Resolver, rel: string): Result<string, FsError> {
    Answer(WalkPath(readlink, rel, MAX_SYMLINK_EXPANSIONS))
  }

  // ----- The work list -----

  /** Splicing `b` after `a` in the work list walks `a` to its end, then `b` from there. */
  lemma {:induction false} FollowConcat(
    readlink: Resolver, rel: string, a: seq<string>, b: seq<string>, resolved: seq<string>, budget: nat)
    ensures Follow(readlink, rel, a + b, resolved, budget)
            == Onward(readlink, rel, Follow(readlink, rel, a, resolved, budget), b)
    decreases budget, |a|
  {
    if a == [] {
      assert a + b == b;
    } else {
      assert (a + b)[0] == a[0] && (a + b)[1..] == a[1..] + b;
      match EffectOf(readlink, rel, a[0], resolved) {
        case Goto(there) => FollowConcat(readlink, rel, a[1..], b, there, budget);
        case Halt(_) =>
        case Expand(target) =>
          if budget > 0 && !StartsWith(target, '/') {
            var inner := Follow(readlink, rel, Split(target, '/'), resolved, budget - 1);
            if inner.Arrived? {
              FollowConcat(readlink, rel, a[1..], b, inner.resolved, inner.left);
            }
          }
      }
    }
  }

  function Reversed(parts: seq<string>): seq<string> {
    if parts == [] then [] else [parts[|parts| - 1]] + Reversed(parts[..|parts| - 1])
  }

  lemma {:induction false} ReversedConcat(a: seq<string>, b: seq<string>)
    ensures Reversed(a + b) == Reversed(b) + Reversed(a)
  {
    if b == [] {
      assert a + b == a;
    } else {
      assert (a + b)[..|a + b| - 1] == a + b[..|b| - 1];
      ReversedConcat(a, b[..|b| - 1]);
    }
  }

  lemma {:induction false} ReversedTwice(parts: seq<string>)
    ensures Reversed(Reversed(parts)) == parts
  {
    if parts != [] {
      var last := parts[|parts| - 1];
      ReversedTwice(parts[..|parts| - 1]);
      ReversedConcat([last], Reversed(parts[..|parts| - 1]));
      assert Reversed([last]) == [last];
    }
  }

  /** Pushing a link's components in reverse puts them in front. */
  lemma PushAhead(parts: seq<string>, ahead: seq<string>)
    ensures Reversed(parts + Reversed(ahead)) == ahead + Reversed(parts)
  {
    ReversedConcat(parts, Reversed(ahead));
    ReversedTwice(ahead);
  }

  /** The walk after one iteration of the loop, `rest` still to resolve. */
  function AfterEffect(readlink: Resolver, rel: string, effect: Effect, rest: seq<string>, resolved: seq<string>,
                       budget: nat): Walk
  {
    match effect
    case Goto(there) => Follow(readlink, rel, rest, there, budget)
    case Halt(error) => Stopped(error, budget)
    case Expand(target) =>
      if budget == 0 then TooManyLinks
      else if StartsWith(target, '/') then Stopped(PathEscape(rel), budget - 1)
      else Follow(readlink, rel, Split(target, '/') + rest, resolved, budget - 1)
  }

  lemma FollowNext(readlink: Resolver, rel: string, comp: string, rest: seq<string>, resolved: seq<string>, budget: nat)
    ensures Follow(readlink, rel, [comp] + rest, resolved, budget)
            == AfterEffect(readlink, rel, EffectOf(readlink, rel, comp, resolved), rest, resolved, budget)
  {
    assert ([comp] + rest)[1..] == rest;
    var effect := EffectOf(readlink, rel, comp, resolved);
    if effect.Expand? && budget > 0 && !StartsWith(effect.target, '/') {
      FollowConcat(readlink, rel, Split(effect.target, '/'), rest, resolved, budget - 1);
    }
  }

  /** `{}/{}` of the joined directory and the component is the joined extended directory. */
  lemma TestPath(resolved: seq<string>, comp: string)
    ensures (if resolved == [] then comp else Join(resolved, '/') + "/" + comp) == Join(resolved + [comp], '/')
  {
    if resolved != [] {
      JoinConcat(resolved, [comp], '/');
    }
  }

  method PushAll(stack: seq<string>, items: seq<string>) returns (pushed: seq<string>)
    ensures pushed == stack + items
  {
    pushed := stack;
    for i := 0 to |items|
      invariant pushed == stack + items[..i]
    {
      pushed := pushed + [items[i]];
    }
  }

  /** The loop's case split on one component, with the one file-system call it makes. */
  method Examine(readlink: Resolver, rel: string, comp: string, resolved: seq<string>) returns (effect: Effect)
    ensures effect == EffectOf(readlink, rel, comp, resolved)
  {
    if comp == "" || comp == "." {
      return Goto(resolved);
    }
    if comp == ".." {
      if resolved == [] {
        return Halt(PathEscape(rel));
      }
      return Goto(resolved[..|resolved| - 1]);
    }
    if comp == ".spin" {
      return Halt(Reserved(rel));
    }
    var testPath := if resolved == [] then comp else Join(resolved, '/') + "/" + comp;
    TestPath(resolved, comp);
    match readlink(testPath) {
      case Success(target) =>
        return Expand(target);
      case Failure(code) =>
        if IsNotALink(readlink(testPath)) {
          return Goto(resolved + [comp]);
        }
        return Halt(FsErrorAt(code, testPath));
    }
  }

  /** `goal` is the answer of the walk along the components on the stack, its top first. */
  predicate Working(readlink: Resolver, rel: string, parts: seq<string>, resolved: seq<string>, budget: nat,
                    goal: Result<string, FsError>)
  {
    goal == Answer(Follow(readlink, rel, Reversed(parts), resolved, budget))
  }

  /** What a component's effect means for the goal, `parts` being the stack without the component. */
  predicate LeadsOn(readlink: Resolver, rel: string, effect: Effect, parts: seq<string>, resolved: seq<string>,
                    budget: nat, goal: Result<string, FsError>)
  {
    match effect
    case Goto(there) => Working(readlink, rel, parts, there, budget, goal)
    case Halt(error) => goal == Failure(error)
    case Expand(target) =>
      if budget == 0 then goal == Failure(TooManyLevels)
      else if StartsWith(target, '/') then goal == Failure(PathEscape(rel))
      else Working(readlink, rel, parts + Reversed(Split(target, '/')), resolved, budget - 1, goal)
  }

  lemma EffectLeadsOn(readlink: Resolver, rel: string, parts: seq<string>, comp: string, resolved: seq<string>,
                      budget: nat, goal: Result<string, FsError>)
    requires Working(readlink, rel, parts + [comp], resolved, budget, goal)
    ensures LeadsOn(readlink, rel, EffectOf(readlink, rel, comp, resolved), parts, resolved, budget, goal)
  {
    var effect := EffectOf(readlink, rel, comp, resolved);
    assert (parts + [comp])[..|parts|] == parts;
    FollowNext(readlink, rel, comp, Reversed(parts), resolved, budget);
    assert goal == Answer(AfterEffect(readlink, rel, effect, Reversed(parts), resolved, budget));
    if effect.Expand? {
      PushAhead(parts, Split(effect.target, '/'));
    }
  }

  lemma WorkBegins(readlink: Resolver, rel: string)
    ensures StartsWith(rel, '/') ==> Resolve(readlink, rel) == Failure(PathEscape(rel))
    ensures !StartsWith(rel, '/') ==>
              Working(readlink, rel, Reversed(Split(rel, '/')), [], MAX_SYMLINK_EXPANSIONS, Resolve(readlink, rel))
  {
    ReversedTwice(Split(rel, '/'));
  }

  lemma WorkEnds(readlink: Resolver, rel: string, resolved: seq<string>, budget: nat, goal: Result<string, FsError>)
    requires Working(readlink, rel, [], resolved, budget, goal)
    ensures goal == Success(Join(resolved, '/'))
  {
  }

  /** One turn: the component on top of the stack is taken off and looked at. */
  method Turn(readlink: Resolver, rel: string, parts: seq<string>, resolved: seq<string>,
              ghost budget: nat, ghost goal: Result<string, FsError>)
    returns (effect: Effect, below: seq<string>)
    requires parts != [] && Working(readlink, rel, parts, resolved, budget, goal)
    ensures |below| < |parts| && LeadsOn(readlink, rel, effect, below, resolved, budget, goal)
  {
    var comp := parts[|parts| - 1];
    below := parts[..|parts| - 1];
    effect := Examine(readlink, rel, comp, resolved);
    assert parts == below + [comp];
    EffectLeadsOn(readlink, rel, below, comp, resolved, budget, goal);
  }

  /** The work-list loop. `parts` is a stack of components still to resolve, top last; a link's
      target is pushed on it. The loop ends because only a link can make `parts` longer and only
      `MAX_SYMLINK_EXPANSIONS` of them are followed. */
  method Sanitize(readlink: Resolver, rel: string) returns (result: Result<string, FsError>)
    ensures result == Resolve(readlink, rel)
  {
    WorkBegins(readlink, rel);
    if StartsWith(rel, '/') {
      return Failure(PathEscape(rel));
    }
    var parts := Reversed(Split(rel, '/'));
    var resolved: seq<string> := [];
    var iterations := 0;
    ghost var budget := MAX_SYMLINK_EXPANSIONS;
    ghost var goal := Resolve(readlink, rel);
    while parts != []
      invariant iterations + budget == MAX_SYMLINK_EXPANSIONS
      invariant Working(readlink, rel, parts, resolved, budget, goal)
      decreases budget, |parts|
    {
      var effect, below := Turn(readlink, rel, parts, resolved, budget, goal);
      parts := below;
      match effect {
        case Goto(there) =>
          resolved := there;
        case Halt(error) =>
          return Failure(error);
        case Expand(target) =>
          iterations := iterations + 1;
          if iterations > MAX_SYMLINK_EXPANSIONS {
            return Failure(TooManyLevels);
          }
          if StartsWith(target, '/') {
            return Failure(PathEscape(rel));
          }
          parts := PushAll(parts, Reversed(Split(target, '/')));
          budget := budget - 1;
      }
    }
    WorkEnds(readlink, rel, resolved, budget, goal);
    return Success(Join(resolved, '/'));
  }

  // ----- The link limit -----

  /** A walk cut down to `cut` fewer links. */
  function Truncate(walk: Walk, cut: nat): Walk {
    if walk.TooManyLinks? || walk.left < cut then TooManyLinks else walk.(left := walk.left - cut)
  }

  /** The walk is the one allowed `cut` more links, cut short. */
  predicate CutShort(
    readlink: Resolver, rel: string, comps: seq<string>, resolved: seq<string>, budget: nat, cut: nat)
  {
    Follow(readlink, rel, comps, resolved, budget)
    == Truncate(Follow(readlink, rel, comps, resolved, budget + cut), cut)
  }

  lemma CutShortAfterLink(readlink: Resolver, rel: string, comps: seq<string>, resolved: seq<string>, budget: nat,
                          cut: nat, target: string)
    requires comps != [] && EffectOf(readlink, rel, comps[0], resolved) == Expand(target)
    requires budget > 0 && !StartsWith(target, '/')
    requires CutShort(readlink, rel, Split(target, '/'), resolved, budget - 1, cut)
    requires var inner := Follow(readlink, rel, Split(target, '/'), resolved, budget - 1);
             inner.Arrived? ==> CutShort(readlink, rel, comps[1..], inner.resolved, inner.left, cut)
    ensures CutShort(readlink, rel, comps, resolved, budget, cut)
  {
  }

  lemma CutShortAtOnce(
    readlink: Resolver, rel: string, comps: seq<string>, resolved: seq<string>, budget: nat, cut: nat)
    requires comps != []
    requires match EffectOf(readlink, rel, comps[0], resolved)
             case Goto(there) => CutShort(readlink, rel, comps[1..], there, budget, cut)
             case Halt(_) => true
             case Expand(target) => budget == 0 || StartsWith(target, '/')
    ensures CutShort(readlink, rel, comps, resolved, budget, cut)
  {
  }

  /** A smaller allowance gives the same walk, cut short where the allowance runs out. */
  lemma {:induction false} SmallerBudget(
    readlink: Resolver, rel: string, comps: seq<string>, resolved: seq<string>, budget: nat, cut: nat)
    ensures CutShort(readlink, rel, comps, resolved, budget, cut)
    decreases budget, |comps|
  {
    if comps != [] {
      var effect := EffectOf(readlink, rel, comps[0], resolved);
      if effect.Expand? && budget > 0 && !StartsWith(effect.target, '/') {
        var inner := Follow(readlink, rel, Split(effect.target, '/'), resolved, budget - 1);
        SmallerBudget(readlink, rel, Split(effect.target, '/'), resolved, budget - 1, cut);
        if inner.Arrived? {
          SmallerBudget(readlink, rel, comps[1..], inner.resolved, inner.left, cut);
        }
        CutShortAfterLink(readlink, rel, comps, resolved, budget, cut, effect.target);
      } else {
        if effect.Goto? {
          SmallerBudget(readlink, rel, comps[1..], effect.resolved, budget, cut);
        }
        CutShortAtOnce(readlink, rel, comps, resolved, budget, cut);
      }
    }
  }

  /** The walk allowed `budget` links follows a 33rd one. */
  predicate FollowsThirtyThird(readlink: Resolver, rel: string, budget: nat) {
    var walk := WalkPath(readlink, rel, budget);
    walk.TooManyLinks? || budget - walk.left > MAX_SYMLINK_EXPANSIONS
  }

  /** `sanitize` reports too many links exactly when the meaning, under any larger allowance,
      follows a 33rd link before it arrives or fails; otherwise its answer is the one any larger
      allowance gives. */
  lemma LimitIsExact(readlink: Resolver, rel: string, budget: nat)
    requires budget > MAX_SYMLINK_EXPANSIONS
    ensures Resolve(readlink, rel) == Failure(TooManyLevels) <==> FollowsThirtyThird(readlink, rel, budget)
    ensures !FollowsThirtyThird(readlink, rel, budget) ==>
              Resolve(readlink, rel) == Answer(WalkPath(readlink, rel, budget))
  {
    var cut := budget - MAX_SYMLINK_EXPANSIONS;
    NoOtherTooMany(readlink, rel, Split(rel, '/'), [], MAX_SYMLINK_EXPANSIONS);
    assert WalkPath(readlink, rel, MAX_SYMLINK_EXPANSIONS) == Truncate(WalkPath(readlink, rel, budget), cut) by {
      SmallerBudget(readlink, rel, Split(rel, '/'), [], MAX_SYMLINK_EXPANSIONS, cut);
    }
  }

  /** No other failure carries the too-many-links error. */
  lemma {:induction false} NoOtherTooMany(
    readlink: Resolver, rel: string, comps: seq<string>, resolved: seq<string>, budget: nat)
    ensures var walk := Follow(readlink, rel, comps, resolved, budget);
            walk.Stopped? ==> walk.error != TooManyLevels
    decreases budget, |comps|
  {
    if comps != [] {
      match EffectOf(readlink, rel, comps[0], resolved) {
        case Goto(there) => NoOtherTooMany(readlink, rel, comps[1..], there, budget);
        case Halt(_) =>
        case Expand(target) =>
          if budget > 0 && !StartsWith(target, '/') {
            NoOtherTooMany(readlink, rel, Split(target, '/'), resolved, budget - 1);
            var inner := Follow(readlink, rel, Split(target, '/'), resolved, budget - 1);
            if inner.Arrived? {
              NoOtherTooMany(readlink, rel, comps[1..], inner.resolved, inner.left);
            }
          }
      }
    }
  }

  // ----- Canonical results -----

  predicate ValidName(name: string) {
    name != "" && name != "." && name != ".." && name != ".spin" && '/' !in name
  }

  /** Every component is an ordinary name and every non-empty prefix was reported not a link. */
  predicate Canonical(readlink: Resolver, comps: seq<string>) {
    forall i :: 0 <= i < |comps| ==> ValidName(comps[i]) && IsNotALink(readlink(Join(comps[..i + 1], '/')))
  }

  lemma CanonicalExtend(readlink: Resolver, comps: seq<string>, name: string)
    requires Canonical(readlink, comps) && ValidName(name)
    requires IsNotALink(readlink(Join(comps + [name], '/')))
    ensures Canonical(readlink, comps + [name])
  {
    var more := comps + [name];
    forall i | 0 <= i < |more| ensures ValidName(more[i]) && IsNotALink(readlink(Join(more[..i + 1], '/'))) {
      if i < |comps| {
        assert more[i] == comps[i] && more[..i + 1] == comps[..i + 1];
      } else {
        assert more[i] == name && more[..i + 1] == more;
      }
    }
  }

  lemma CanonicalPrefix(readlink: Resolver, comps: seq<string>, n: nat)
    requires Canonical(readlink, comps) && n <= |comps|
    ensures Canonical(readlink, comps[..n])
  {
    var fewer := comps[..n];
    forall i | 0 <= i < n ensures ValidName(fewer[i]) && IsNotALink(readlink(Join(fewer[..i + 1], '/'))) {
      assert fewer[i] == comps[i] && fewer[..i + 1] == comps[..i + 1];
    }
  }

  lemma GotoCanonical(readlink: Resolver, rel: string, comp: string, resolved: seq<string>)
    requires Canonical(readlink, resolved) && '/' !in comp
    ensures var effect := EffectOf(readlink, rel, comp, resolved);
            effect.Goto? ==> Canonical(readlink, effect.resolved)
  {
    var effect := EffectOf(readlink, rel, comp, resolved);
    if effect.Goto? {
      if comp == ".." {
        CanonicalPrefix(readlink, resolved, |resolved| - 1);
      } else if comp != "" && comp != "." {
        CanonicalExtend(readlink, resolved, comp);
      }
    }
  }

  lemma {:induction false} FollowCanonical(
    readlink: Resolver, rel: string, comps: seq<string>, resolved: seq<string>, budget: nat)
    requires Canonical(readlink, resolved) && NoneHas(comps, '/')
    ensures var walk := Follow(readlink, rel, comps, resolved, budget);
            walk.Arrived? ==> Canonical(readlink, walk.resolved)
    decreases budget, |comps|
  {
    if comps != [] {
      GotoCanonical(readlink, rel, comps[0], resolved);
      match EffectOf(readlink, rel, comps[0], resolved) {
        case Goto(there) => FollowCanonical(readlink, rel, comps[1..], there, budget);
        case Halt(_) =>
        case Expand(target) =>
          if budget > 0 && !StartsWith(target, '/') {
            SplitParts(target, '/');
            FollowCanonical(readlink, rel, Split(target, '/'), resolved, budget - 1);
            var inner := Follow(readlink, rel, Split(target, '/'), resolved, budget - 1);
            if inner.Arrived? {
              FollowCanonical(readlink, rel, comps[1..], inner.resolved, inner.left);
            }
          }
      }
    }
  }

  /** From a canonical directory, canonical components are walked as they stand, following no link. */
  lemma {:induction false} CanonicalStays(
    readlink: Resolver, rel: string, prefix: seq<string>, comps: seq<string>, budget: nat)
    requires Canonical(readlink, prefix + comps)
    ensures Follow(readlink, rel, comps, prefix, budget) == Arrived(prefix + comps, budget)
    decreases comps
  {
    if comps == [] {
      assert prefix + comps == prefix;
    } else {
      var whole := prefix + comps;
      assert whole[|prefix|] == comps[0] && whole[..|prefix| + 1] == prefix + [comps[0]];
      assert (prefix + [comps[0]]) + comps[1..] == whole;
      assert EffectOf(readlink, rel, comps[0], prefix) == Goto(prefix + [comps[0]]);
      CanonicalStays(readlink, rel, prefix + [comps[0]], comps[1..], budget);
    }
  }

  /** The components of a path in canonical form: the root is the empty path. */
  function Components(path: string): seq<string> {
    if path == "" then [] else Split(path, '/')
  }

  lemma JoinedComponents(readlink: Resolver, comps: seq<string>)
    requires Canonical(readlink, comps)
    ensures Components(Join(comps, '/')) == comps
    ensures !StartsWith(Join(comps, '/'), '/')
  {
    if comps != [] {
      assert ValidName(comps[0]);
      SplitJoin(comps, '/');
      if |comps| > 1 {
        assert Join(comps, '/')[0] == comps[0][0];
      }
      assert comps[0][0] in comps[0];
    }
  }

  /** A canonical path resolves to itself from the root, following no link. */
  lemma CanonicalPathStays(readlink: Resolver, path: string, budget: nat)
    requires Canonical(readlink, Components(path)) && !StartsWith(path, '/')
    ensures WalkPath(readlink, path, budget) == Arrived(Components(path), budget)
    ensures Resolve(readlink, path) == Success(path)
  {
    var comps := Components(path);
    if path == "" {
      FollowNext(readlink, path, "", [], [], budget);
      FollowNext(readlink, path, "", [], [], MAX_SYMLINK_EXPANSIONS);
      assert [""] + [] == Split(path, '/');
    } else {
      assert [] + comps == comps;
      CanonicalStays(readlink, path, [], comps, budget);
      CanonicalStays(readlink, path, [], comps, MAX_SYMLINK_EXPANSIONS);
      JoinSplit(path, '/');
    }
  }

  /** Every successful resolution is canonical and resolves to itself. */
  lemma ResolutionIsCanonical(readlink: Resolver, rel: string)
    requires Resolve(readlink, rel).Success?
    ensures var path := Resolve(readlink, rel).value;
            && Canonical(readlink, Components(path))
            && !StartsWith(path, '/')
            && Resolve(readlink, path) == Success(path)
  {
    SplitParts(rel, '/');
    FollowCanonical(readlink, rel, Split(rel, '/'), [], MAX_SYMLINK_EXPANSIONS);
    var walk := WalkPath(readlink, rel, MAX_SYMLINK_EXPANSIONS);
    JoinedComponents(readlink, walk.resolved);
    CanonicalPathStays(readlink, Join(walk.resolved, '/'), 0);
  }

  // ----- Compositionality -----

  /** `b` below `a`; the root is the empty path. */
  function JoinPath(a: string, b: string): string {
    if a == "" then b else a + "/" + b
  }

  /** The number of links `sanitize` follows when it succeeds. */
  function LinksFollowed(readlink: Resolver, rel: string): nat
    requires Resolve(readlink, rel).Success?
  {
    MAX_SYMLINK_EXPANSIONS - WalkPath(readlink, rel, MAX_SYMLINK_EXPANSIONS).left
  }

  /** The error text names the whole path; nothing else in a walk depends on it. */
  predicate SameButName(a: Walk, b: Walk) {
    if a.Stopped? then b.Stopped? && a.left == b.left else a == b
  }

  lemma {:induction false} NameDoesNotMatter(
    readlink: Resolver, rel: string, other: string, comps: seq<string>, resolved: seq<string>, budget: nat)
    ensures SameButName(Follow(readlink, rel, comps, resolved, budget),
                        Follow(readlink, other, comps, resolved, budget))
    decreases budget, |comps|
  {
    if comps != [] {
      match EffectOf(readlink, rel, comps[0], resolved) {
        case Goto(there) => NameDoesNotMatter(readlink, rel, other, comps[1..], there, budget);
        case Halt(_) =>
        case Expand(target) =>
          if budget > 0 && !StartsWith(target, '/') {
            NameDoesNotMatter(readlink, rel, other, Split(target, '/'), resolved, budget - 1);
            var inner := Follow(readlink, rel, Split(target, '/'), resolved, budget - 1);
            if inner.Arrived? {
              NameDoesNotMatter(readlink, rel, other, comps[1..], inner.resolved, inner.left);
            }
          }
      }
    }
  }

  /** Walking `a/b` is walking `a`, then walking `b` from where `a` arrived. */
  lemma WalkJoined(readlink: Resolver, a: string, b: string, budget: nat)
    requires a != "" && !StartsWith(a, '/')
    ensures WalkPath(readlink, JoinPath(a, b), budget)
            == Onward(readlink, JoinPath(a, b),
                      Follow(readlink, JoinPath(a, b), Split(a, '/'), [], budget), Split(b, '/'))
  {
    SplitConcat(a, b, '/');
    assert a + ['/'] + b == JoinPath(a, b);
    assert JoinPath(a, b)[0] == a[0];
    FollowConcat(readlink, JoinPath(a, b), Split(a, '/'), Split(b, '/'), [], budget);
  }

  /** Walking below a canonical path follows only the links of the rest. */
  lemma WalkBelowCanonical(readlink: Resolver, path: string, b: string, budget: nat)
    requires Canonical(readlink, Components(path)) && !StartsWith(path, '/') && !StartsWith(b, '/')
    ensures WalkPath(readlink, JoinPath(path, b), budget)
            == Follow(readlink, JoinPath(path, b), Split(b, '/'), Components(path), budget)
  {
    if path != "" {
      WalkJoined(readlink, path, b, budget);
      assert [] + Components(path) == Components(path);
      CanonicalStays(readlink, JoinPath(path, b), [], Components(path), budget);
    }
  }

  /** The walk of `a/b` is the walk of what `a` resolves to joined to `b`, cut short by the links
      that `a` takes. */
  lemma JoinedWalk(readlink: Resolver, a: string, b: string)
    requires a != "" && !StartsWith(b, '/') && Resolve(readlink, a).Success?
    ensures SameButName(
              WalkPath(readlink, JoinPath(a, b), MAX_SYMLINK_EXPANSIONS),
              Truncate(WalkPath(readlink, JoinPath(Resolve(readlink, a).value, b), MAX_SYMLINK_EXPANSIONS),
                       LinksFollowed(readlink, a)))
  {
    var ab, comps := JoinPath(a, b), Split(b, '/');
    WalkJoined(readlink, a, b, MAX_SYMLINK_EXPANSIONS);
    NameDoesNotMatter(readlink, a, ab, Split(a, '/'), [], MAX_SYMLINK_EXPANSIONS);
    var first := WalkPath(readlink, a, MAX_SYMLINK_EXPANSIONS);
    ResolutionIsCanonical(readlink, a);
    SplitParts(a, '/');
    FollowCanonical(readlink, a, Split(a, '/'), [], MAX_SYMLINK_EXPANSIONS);
    JoinedComponents(readlink, first.resolved);
    var below := JoinPath(Join(first.resolved, '/'), b);
    WalkBelowCanonical(readlink, Join(first.resolved, '/'), b, MAX_SYMLINK_EXPANSIONS);
    NameDoesNotMatter(readlink, ab, below, comps, first.resolved, MAX_SYMLINK_EXPANSIONS);
    SmallerBudget(readlink, ab, comps, first.resolved, first.left, MAX_SYMLINK_EXPANSIONS - first.left);
  }

  /** If `a` does not resolve, nothing below it does. */
  lemma NothingBelow(readlink: Resolver, a: string, b: string)
    requires a != "" && !Resolve(readlink, a).Success?
    ensures !Resolve(readlink, JoinPath(a, b)).Success?
  {
    if StartsWith(a, '/') {
      assert JoinPath(a, b)[0] == a[0];
    } else {
      WalkJoined(readlink, a, b, MAX_SYMLINK_EXPANSIONS);
      NameDoesNotMatter(readlink, a, JoinPath(a, b), Split(a, '/'), [], MAX_SYMLINK_EXPANSIONS);
    }
  }

  /** Resolving `a/b` succeeds with `path` exactly when resolving `a` succeeds, resolving what it
      gave joined to `b` succeeds with `path`, and the two runs together follow at most 32 links. */
  lemma ResolutionComposes(readlink: Resolver, a: string, b: string, path: string)
    requires !StartsWith(b, '/')
    ensures Resolve(readlink, JoinPath(a, b)) == Success(path) <==>
              && Resolve(readlink, a).Success?
              && var below := JoinPath(Resolve(readlink, a).value, b);
              && Resolve(readlink, below) == Success(path)
              && LinksFollowed(readlink, a) + LinksFollowed(readlink, below) <= MAX_SYMLINK_EXPANSIONS
  {
    if a == "" {
      assert Components("") == [];
      CanonicalPathStays(readlink, "", MAX_SYMLINK_EXPANSIONS);
    } else if Resolve(readlink, a).Success? {
      JoinedWalk(readlink, a, b);
    } else {
      NothingBelow(readlink, a, b);
    }
  }
}
