/** What resolving one more component gives, in terms of the answer `readlink` has for it. */
module PathLaws {
  import opened Wrappers
  import opened Strings
  import opened PathResolution

  lemma NameIsWord(name: string)
    requires ValidName(name)
    ensures Split(name, '/') == [name] && !StartsWith(name, '/')
  {
    SplitWord(name, '/');
    assert name[0] in name;
  }

  /** A path that resolves to itself is canonical. */
  lemma ResolvedIsCanonical(readlink: Resolver, path: string)
    requires Resolve(readlink, path) == Success(path)
    ensures Canonical(readlink, Components(path)) && !StartsWith(path, '/')
  {
    ResolutionIsCanonical(readlink, path);
  }

  lemma NameBelow(path: string, name: string)
    requires path == "" || Join(Components(path), '/') == path
    requires name != ""
    ensures Join(Components(path) + [name], '/') == JoinPath(path, name)
  {
    if path != "" {
      JoinConcat(Components(path), [name], '/');
    }
  }

  /** What a last component `name` does below a resolved path. */
  lemma LastComponent(readlink: Resolver, path: string, name: string)
    requires Resolve(readlink, path) == Success(path) && '/' !in name
    ensures var full := JoinPath(path, name);
            WalkPath(readlink, full, MAX_SYMLINK_EXPANSIONS)
            == AfterEffect(readlink, full, EffectOf(readlink, full, name, Components(path)), [], Components(path),
                           MAX_SYMLINK_EXPANSIONS)
  {
    ResolvedIsCanonical(readlink, path);
    SplitWord(name, '/');
    assert name != "" ==> name[0] in name;
    WalkBelowCanonical(readlink, path, name, MAX_SYMLINK_EXPANSIONS);
    assert [name] + [] == [name];
    FollowNext(readlink, JoinPath(path, name), name, [], Components(path), MAX_SYMLINK_EXPANSIONS);
  }

  lemma ComponentsRejoin(readlink: Resolver, path: string)
    requires Resolve(readlink, path) == Success(path)
    ensures Join(Components(path), '/') == path
  {
    if path != "" {
      JoinSplit(path, '/');
    }
  }

  /** A name below a resolved path that is no link, or does not exist yet, resolves to itself; any
      other answer than a link's target is an error that names the path. */
  lemma OneMoreName(readlink: Resolver, path: string, name: string)
    requires Resolve(readlink, path) == Success(path) && ValidName(name)
    ensures var full := JoinPath(path, name);
            && (readlink(full) == Failure(Invalid) ==> Resolve(readlink, full) == Success(full))
            && (readlink(full) == Failure(NoEntry) ==> Resolve(readlink, full) == Success(full))
            && (readlink(full) == Failure(NotDirectory) ==> Resolve(readlink, full) == Success(full))
            && (readlink(full) == Failure(Access) ==> Resolve(readlink, full) == Failure(PermissionDenied(full)))
            && (readlink(full) == Failure(NotPermitted) ==> Resolve(readlink, full) == Failure(PermissionDenied(full)))
            && (readlink(full).Failure? && readlink(full).error.Other? ==>
                  Resolve(readlink, full) == Failure(Io(readlink(full).error, full)))
  {
    ComponentsRejoin(readlink, path);
    NameBelow(path, name);
    LastComponent(readlink, path, name);
  }

  /** A link below a resolved path: an absolute target escapes; any other resolves as it does in the
      directory that holds the link, one link later. */
  lemma OneMoreLink(readlink: Resolver, path: string, name: string, target: string, answer: string)
    requires Resolve(readlink, path) == Success(path) && ValidName(name)
    requires readlink(JoinPath(path, name)) == Success(target)
    ensures var full, there := JoinPath(path, name), JoinPath(path, target);
            if StartsWith(target, '/') then Resolve(readlink, full) == Failure(PathEscape(full))
            else
              Resolve(readlink, full) == Success(answer) <==>
                Resolve(readlink, there) == Success(answer) && LinksFollowed(readlink, there) + 1 <= 32
  {
    var full, there := JoinPath(path, name), JoinPath(path, target);
    ComponentsRejoin(readlink, path);
    NameBelow(path, name);
    LastComponent(readlink, path, name);
    if !StartsWith(target, '/') {
      var comps, budget := Split(target, '/'), MAX_SYMLINK_EXPANSIONS;
      assert comps + [] == comps;
      ResolvedIsCanonical(readlink, path);
      WalkBelowCanonical(readlink, path, target, budget);
      NameDoesNotMatter(readlink, full, there, comps, Components(path), budget - 1);
      SmallerBudget(readlink, there, comps, Components(path), budget - 1, 1);
    }
  }

  /** Empty components and `.` stay where they are; `..` leads to the directory above, or out of the
      workspace at its root; `.spin` is reserved everywhere. */
  lemma SpecialComponents(readlink: Resolver, path: string)
    requires Resolve(readlink, path) == Success(path)
    ensures Resolve(readlink, JoinPath(path, "")) == Success(path)
    ensures Resolve(readlink, JoinPath(path, ".")) == Success(path)
    ensures path == "" ==> Resolve(readlink, JoinPath(path, "..")) == Failure(PathEscape(".."))
    ensures Resolve(readlink, JoinPath(path, ".spin")) == Failure(Reserved(JoinPath(path, ".spin")))
  {
    ComponentsRejoin(readlink, path);
    LastComponent(readlink, path, "");
    LastComponent(readlink, path, ".");
    LastComponent(readlink, path, "..");
    LastComponent(readlink, path, ".spin");
  }

  lemma ComponentsBelow(path: string, name: string)
    requires ValidName(name)
    ensures Components(JoinPath(path, name)) == Components(path) + [name]
  {
    NameIsWord(name);
    if path != "" {
      SplitConcat(path, name, '/');
      assert path + ['/'] + name == JoinPath(path, name);
    }
  }

  /** `..` undoes a name. */
  lemma UpAgain(readlink: Resolver, path: string, name: string)
    requires Resolve(readlink, path) == Success(path) && ValidName(name)
    requires Resolve(readlink, JoinPath(path, name)) == Success(JoinPath(path, name))
    ensures Resolve(readlink, JoinPath(path, name) + "/..") == Success(path)
  {
    var full := JoinPath(path, name);
    var above := Components(path);
    ComponentsBelow(path, name);
    ComponentsRejoin(readlink, path);
    assert EffectOf(readlink, full + "/..", "..", above + [name]) == Goto(above) by {
      assert (above + [name])[..|above|] == above;
    }
    LastComponent(readlink, full, "..");
    assert JoinPath(full, "..") == full + "/..";
  }

  lemma AbsoluteEscapes(readlink: Resolver, rel: string)
    requires rel != "" && rel[0] == '/'
    ensures Resolve(readlink, rel) == Failure(PathEscape(rel))
  {
  }

  // ----- How many links may be followed -----

  /** A workspace whose one entry links to the directory it lies in. */
  function LinkToHere(path: string): Result<string, ErrorCode> {
    if path == "l" then Success(".") else Failure(NoEntry)
  }

  function Repeated(comp: string, n: nat): (comps: seq<string>)
    ensures |comps| == n
  {
    if n == 0 then [] else [comp] + Repeated(comp, n - 1)
  }

  lemma {:induction false} LinkAgain(rel: string, n: nat, budget: nat)
    ensures Follow(LinkToHere, rel, Repeated("l", n), [], budget)
            == if n <= budget then Arrived([], budget - n) else TooManyLinks
    decreases n
  {
    if n > 0 {
      assert [] + ["l"] == ["l"];
      FollowNext(LinkToHere, rel, "l", Repeated("l", n - 1), [], budget);
      if budget > 0 {
        SplitWord(".", '/');
        FollowNext(LinkToHere, rel, ".", Repeated("l", n - 1), [], budget - 1);
        LinkAgain(rel, n - 1, budget - 1);
      }
    }
  }

  lemma {:induction false} RepeatedHasNo(comp: string, n: nat)
    requires '/' !in comp
    ensures NoneHas(Repeated(comp, n), '/')
  {
    if n > 0 {
      RepeatedHasNo(comp, n - 1);
    }
  }

  lemma {:induction false} JoinedStart(n: nat)
    requires n > 0
    ensures !StartsWith(Join(Repeated("l", n), '/'), '/')
  {
    assert Repeated("l", n)[0] == "l";
  }

  /** Going through `n` links succeeds exactly when `n` is at most 32. */
  lemma ThirtyTwoLinks(n: nat)
    requires n > 0
    ensures Resolve(LinkToHere, Join(Repeated("l", n), '/'))
            == if n <= 32 then Success("") else Failure(TooManyLevels)
  {
    var rel := Join(Repeated("l", n), '/');
    RepeatedHasNo("l", n);
    SplitJoin(Repeated("l", n), '/');
    JoinedStart(n);
    LinkAgain(rel, n, MAX_SYMLINK_EXPANSIONS);
  }
}
