/** A project's view of the workspace: paths are normalised lexically, joined below the
    project's base directory, resolved, and handed back relative to the base. */
module WorkspaceVfs {
  import opened Wrappers
  import opened Strings
  import opened PathResolution

  datatype VfsError = Escape(path: string) | Filesystem(error: FsError)

  /** `normalize_vfs_path`, on the components still to read and those kept so far. */
  function Normalize(comps: seq<string>, kept: seq<string>): Option<seq<string>> {
    if comps == [] then Some(kept)
    else if comps[0] == "" || comps[0] == "." then Normalize(comps[1..], kept)
    else if comps[0] == ".." then
      if kept == [] then None else Normalize(comps[1..], kept[..|kept| - 1])
    else Normalize(comps[1..], kept + [comps[0]])
  }

  function NormalizedPath(raw: string): Result<string, VfsError> {
    match Normalize(Split(Replace(raw, '\\', "/"), '/'), [])
    case None => Failure(Escape(raw))
    case Some(parts) => Success(Join(parts, '/'))
  }

  method NormalizeVfsPath(raw: string) returns (result: Result<string, VfsError>)
    ensures result == NormalizedPath(raw)
  {
    var segments := Split(Replace(raw, '\\', "/"), '/');
    var parts: seq<string> := [];
    for i := 0 to |segments|
      invariant Normalize(segments[i..], parts) == Normalize(segments, [])
    {
      assert segments[i..][1..] == segments[i + 1..];
      if segments[i] == "" || segments[i] == "." {
        continue;
      }
      if segments[i] == ".." {
        if parts == [] {
          return Failure(Escape(raw));
        }
        parts := parts[..|parts| - 1];
      } else {
        parts := parts + [segments[i]];
      }
    }
    return Success(Join(parts, '/'));
  }

  function WorkspacePath(raw: string): Result<string, VfsError> {
    match NormalizedPath(raw)
    case Failure(e) => Failure(e)
    case Success(path) => if ".spin" in Split(path, '/') then Failure(Escape(raw)) else Success(path)
  }

  /** `HostFsVfs::resolve`: where a project path lies in the workspace. */
  function Locate(base: string, rel: string): Result<string, VfsError> {
    match WorkspacePath(rel)
    case Failure(e) => Failure(e)
    case Success(norm) =>
      if base == "" then Success(norm)
      else if norm == "" then Success(base)
      else Success(TrimEnd(base, '/') + "/" + norm)
  }

  /** `strip_prefix(prefix).unwrap_or(s)`. */
  function StripPrefixOrKeep(s: string, prefix: string): string {
    if prefix <= s then s[|prefix|..] else s
  }

  /** `HostFsVfs::strip_base`. */
  function StripBase(base: string, full: string): string {
    if TrimEnd(full, '/') == TrimEnd(base, '/') then ""
    else if base == "" then full
    else StripPrefixOrKeep(full, TrimEnd(TrimStart(base, '/'), '/') + "/")
  }

  /** `resolved` is the project's base directory or lies below it. */
  predicate Inside(base: string, resolved: string) {
    base == "" || resolved == TrimEnd(base, '/') || TrimEnd(base, '/') + "/" <= resolved
  }

  /** `HostFsVfs::canonicalize`. */
  function Canonicalize(readlink: Resolver, base: string, path: string): Result<string, VfsError> {
    match Locate(base, path)
    case Failure(e) => Failure(e)
    case Success(full) =>
      match Resolve(readlink, full)
      case Failure(e) => Failure(Filesystem(e))
      case Success(resolved) =>
        if !Inside(base, resolved) then Failure(Escape(path)) else Success(StripBase(base, resolved))
  }

  lemma {:induction false} TrimStartKeeps(s: string, c: char)
    requires !StartsWith(s, c)
    ensures TrimStart(s, c) == s
  {
  }

  /** A canonical path has no slash at either end. */
  lemma CanonicalEnds(readlink: Resolver, path: string)
    requires Canonical(readlink, Components(path)) && path != ""
    ensures path[|path| - 1] != '/'
  {
    var comps := Components(path);
    JoinSplit(path, '/');
    var last := comps[|comps| - 1];
    assert ValidName(last);
    assert comps == comps[..|comps| - 1] + [last];
    if |comps| > 1 {
      JoinConcat(comps[..|comps| - 1], [last], '/');
    }
    assert path[|path| - 1] == last[|last| - 1];
    assert last[|last| - 1] in last;
  }

  /** The base directory a successful lookup was made from does not start with a slash. */
  lemma BaseIsRelative(readlink: Resolver, base: string, path: string, full: string)
    requires Locate(base, path) == Success(full) && Resolve(readlink, full).Success?
    requires Inside(base, Resolve(readlink, full).value) && base != ""
    ensures !StartsWith(base, '/') && TrimEnd(base, '/') != ""
  {
    ResolutionIsCanonical(readlink, full);
  }

  /** Whatever the base directory is, a successful `canonicalize` gives a path that, joined to the
      base again, is the resolution of the path it was asked for; and it succeeds exactly when
      that resolution exists and lies inside the base. */
  lemma RejoinsToResolution(readlink: Resolver, base: string, path: string)
    ensures Canonicalize(readlink, base, path).Success? <==>
              && Locate(base, path).Success?
              && Resolve(readlink, Locate(base, path).value).Success?
              && Inside(base, Resolve(readlink, Locate(base, path).value).value)
    ensures var result := Canonicalize(readlink, base, path);
            result.Success? ==>
              var resolved := Resolve(readlink, Locate(base, path).value).value;
              if result.value == "" then resolved == TrimEnd(base, '/')
              else resolved == JoinPath(TrimEnd(base, '/'), result.value)
  {
    var result := Canonicalize(readlink, base, path);
    if result.Success? {
      var full := Locate(base, path).value;
      var resolved := Resolve(readlink, full).value;
      ResolutionIsCanonical(readlink, full);
      if resolved != "" {
        CanonicalEnds(readlink, resolved);
      }
      assert TrimEnd(resolved, '/') == resolved;
      if base != "" {
        BaseIsRelative(readlink, base, path, full);
        TrimStartKeeps(base, '/');
        if resolved != TrimEnd(base, '/') {
          var prefix := TrimEnd(base, '/') + "/";
          assert resolved == prefix + resolved[|prefix|..];
        }
      }
    }
  }

  // ----- Canonical project paths are fixed points -----

  predicate ValidNames(comps: seq<string>) {
    forall i :: 0 <= i < |comps| ==> ValidName(comps[i])
  }

  lemma {:induction false} NormalizeKeeps(comps: seq<string>, kept: seq<string>)
    requires ValidNames(comps)
    ensures Normalize(comps, kept) == Some(kept + comps)
  {
    if comps == [] {
      assert kept + comps == kept;
    } else {
      assert kept + [comps[0]] + comps[1..] == kept + comps;
      NormalizeKeeps(comps[1..], kept + [comps[0]]);
    }
  }

  lemma WorkspacePathKeeps(path: string)
    requires ValidNames(Components(path)) && '\\' !in path
    ensures WorkspacePath(path) == Success(path)
  {
    ReplaceNone(path, '\\', "/");
    if path != "" {
      NormalizeKeeps(Components(path), []);
      assert [] + Components(path) == Components(path);
      JoinSplit(path, '/');
    }
  }

  /** Ordinary names, but for the reserved one. */
  predicate PlainNames(comps: seq<string>) {
    forall i :: 0 <= i < |comps| ==> comps[i] != "" && comps[i] != "." && comps[i] != ".."
  }

  lemma {:induction false} NormalizeGivesNames(comps: seq<string>, kept: seq<string>)
    requires PlainNames(kept)
    ensures var parts := Normalize(comps, kept); parts.Some? ==> PlainNames(parts.value)
    decreases |comps|
  {
    if comps != [] {
      if comps[0] == "" || comps[0] == "." {
        NormalizeGivesNames(comps[1..], kept);
      } else if comps[0] == ".." {
        if kept != [] {
          NormalizeGivesNames(comps[1..], kept[..|kept| - 1]);
        }
      } else {
        NormalizeGivesNames(comps[1..], kept + [comps[0]]);
      }
    }
  }

  lemma {:induction false} NormalizeHasNo(comps: seq<string>, kept: seq<string>, c: char)
    requires NoneHas(comps, c) && NoneHas(kept, c)
    ensures var parts := Normalize(comps, kept); parts.Some? ==> NoneHas(parts.value, c)
    decreases |comps|
  {
    if comps != [] {
      if comps[0] == "" || comps[0] == "." {
        NormalizeHasNo(comps[1..], kept, c);
      } else if comps[0] == ".." {
        if kept != [] {
          NormalizeHasNo(comps[1..], kept[..|kept| - 1], c);
        }
      } else {
        NormalizeHasNo(comps[1..], kept + [comps[0]], c);
      }
    }
  }

  /** A lexically accepted path has ordinary names only and is accepted again as it stands. */
  lemma WorkspacePathIsIdempotent(raw: string)
    requires WorkspacePath(raw).Success?
    ensures ValidNames(Components(WorkspacePath(raw).value)) && '\\' !in WorkspacePath(raw).value
    ensures WorkspacePath(WorkspacePath(raw).value) == WorkspacePath(raw)
  {
    var segments := Split(Replace(raw, '\\', "/"), '/');
    var parts := Normalize(segments, []).value;
    Replaced(raw, '\\', "/");
    SplitHasNo(Replace(raw, '\\', "/"), '\\');
    SplitParts(Replace(raw, '\\', "/"), '/');
    NormalizeGivesNames(segments, []);
    NormalizeHasNo(segments, [], '/');
    NormalizeHasNo(segments, [], '\\');
    JoinHasNo(parts, '/', '\\');
    if parts != [] {
      SplitJoin(parts, '/');
    }
    WorkspacePathKeeps(Join(parts, '/'));
  }

  /** Slashes after a canonical path change nothing. */
  lemma {:induction false} TrailingSlashes(readlink: Resolver, path: string, written: string)
    requires Canonical(readlink, Components(path)) && path != "" && !StartsWith(path, '/')
    requires path <= written && forall i :: |path| <= i < |written| ==> written[i] == '/'
    ensures Resolve(readlink, written) == Success(path)
  {
    CanonicalPathStays(readlink, path, 0);
    if written != path {
      var shorter := written[..|written| - 1];
      TrailingSlashes(readlink, path, shorter);
      assert written == JoinPath(shorter, "");
      WalkBelowCanonical(readlink, path, "", MAX_SYMLINK_EXPANSIONS);
      FollowNext(readlink, JoinPath(path, ""), "", [], Components(path), MAX_SYMLINK_EXPANSIONS);
      assert [""] + [] == Split("", '/');
      JoinSplit(path, '/');
      SlashTail(readlink, path, shorter);
    }
  }

  lemma SlashTail(readlink: Resolver, path: string, shorter: string)
    requires shorter != "" && Resolve(readlink, shorter) == Success(path)
    requires Canonical(readlink, Components(path))
    ensures Resolve(readlink, JoinPath(shorter, "")) == Success(path)
  {
    var written := JoinPath(shorter, "");
    WalkJoined(readlink, shorter, "", MAX_SYMLINK_EXPANSIONS);
    NameDoesNotMatter(readlink, shorter, written, Split(shorter, '/'), [], MAX_SYMLINK_EXPANSIONS);
    var first := WalkPath(readlink, shorter, MAX_SYMLINK_EXPANSIONS);
    FollowNext(readlink, written, "", [], first.resolved, first.left);
    assert [""] + [] == Split("", '/');
  }

  /** The names of the path handed back are ordinary ones. */
  lemma ResultNames(readlink: Resolver, base: string, path: string)
    requires Canonicalize(readlink, base, path).Success?
    ensures ValidNames(Components(Canonicalize(readlink, base, path).value))
  {
    var full := Locate(base, path).value;
    var resolved := Resolve(readlink, full).value;
    var result := Canonicalize(readlink, base, path).value;
    RejoinsToResolution(readlink, base, path);
    ResolutionIsCanonical(readlink, full);
    if result != "" && TrimEnd(base, '/') != "" {
      var trimmed := TrimEnd(base, '/');
      assert trimmed + ['/'] + result == resolved;
      SplitConcat(trimmed, result, '/');
      forall i | 0 <= i < |Split(result, '/')| ensures ValidName(Split(result, '/')[i]) {
        assert Components(resolved)[|Split(trimmed, '/')| + i] == Split(result, '/')[i];
      }
    }
  }

  /** A canonical project path is a fixed point, as long as no file name in it holds a backslash. */
  lemma CanonicalizeIsIdempotent(readlink: Resolver, base: string, path: string)
    requires Canonicalize(readlink, base, path).Success?
    requires '\\' !in Canonicalize(readlink, base, path).value
    ensures var result := Canonicalize(readlink, base, path);
            Canonicalize(readlink, base, result.value) == result
  {
    var full := Locate(base, path).value;
    var resolved := Resolve(readlink, full).value;
    var result := Canonicalize(readlink, base, path).value;
    RejoinsToResolution(readlink, base, path);
    ResolutionIsCanonical(readlink, full);
    ResultNames(readlink, base, path);
    WorkspacePathKeeps(result);
    if base != "" && result == "" {
      BaseIsRelative(readlink, base, path, full);
      TrailingSlashes(readlink, resolved, base);
    }
  }

  // ----- When a file name holds a backslash -----

  /** A walk along ordinary names that follows no link goes where they say. */
  lemma {:induction false} NoLinkFollowed(
    readlink: Resolver, rel: string, comps: seq<string>, resolved: seq<string>, budget: nat)
    requires ValidNames(comps)
    requires var walk := Follow(readlink, rel, comps, resolved, budget); walk.Arrived? && walk.left == budget
    ensures Follow(readlink, rel, comps, resolved, budget).resolved == resolved + comps
    decreases |comps|
  {
    if comps == [] {
      assert resolved + comps == resolved;
    } else {
      assert ValidName(comps[0]);
      var effect := EffectOf(readlink, rel, comps[0], resolved);
      if effect.Goto? {
        NoLinkFollowed(readlink, rel, comps[1..], effect.resolved, budget);
        assert resolved + [comps[0]] + comps[1..] == resolved + comps;
      }
    }
  }

  lemma NamesResolveToThemselves(readlink: Resolver, path: string)
    requires ValidNames(Components(path))
    requires Resolve(readlink, path).Success? && LinksFollowed(readlink, path) == 0
    ensures Resolve(readlink, path) == Success(path)
  {
    if path == "" {
      CanonicalPathStays(readlink, path, 0);
    } else {
      NoLinkFollowed(readlink, path, Split(path, '/'), [], MAX_SYMLINK_EXPANSIONS);
      assert [] + Split(path, '/') == Split(path, '/');
      JoinSplit(path, '/');
    }
  }

  /** What lies below the base has the base's names in front, which are canonical themselves. */
  lemma BaseNames(readlink: Resolver, base: string, below: string)
    requires base != "" && below != "" && Canonical(readlink, Components(JoinPath(base, below)))
    ensures Canonical(readlink, Components(base))
  {
    SplitConcat(base, below, '/');
    assert base + ['/'] + below == JoinPath(base, below);
    CanonicalPrefix(readlink, Components(JoinPath(base, below)), |Split(base, '/')|);
    assert Components(JoinPath(base, below))[..|Split(base, '/')|] == Components(base);
  }

  lemma JoinedNames(base: string, below: string)
    requires base != "" && below != "" && ValidNames(Components(base)) && ValidNames(Components(below))
    ensures ValidNames(Components(JoinPath(base, below)))
  {
    SplitConcat(base, below, '/');
    assert base + ['/'] + below == JoinPath(base, below);
  }

  /** Below a base, names resolve to themselves joined to the base, if no link is followed. */
  lemma ResolvesBelow(readlink: Resolver, base: string, trimmed: string, read: string)
    requires trimmed == TrimEnd(base, '/') && Canonical(readlink, Components(trimmed))
    requires trimmed != "" && !StartsWith(trimmed, '/') && ValidNames(Components(read))
    requires var full := if read == "" then base else JoinPath(trimmed, read);
             Resolve(readlink, full).Success? && LinksFollowed(readlink, full) == 0
    ensures Resolve(readlink, if read == "" then base else JoinPath(trimmed, read))
            == Success(if read == "" then trimmed else JoinPath(trimmed, read))
  {
    if read == "" {
      TrailingSlashes(readlink, trimmed, base);
    } else {
      JoinedNames(trimmed, read);
      NamesResolveToThemselves(readlink, JoinPath(trimmed, read));
    }
  }

  lemma JoinIsInjective(base: string, a: string, b: string)
    requires base != "" && b != ""
    ensures (if a == "" then base else JoinPath(base, a)) == JoinPath(base, b) ==> a == b
  {
    assert b == JoinPath(base, b)[|base| + 1..];
    if a != "" {
      assert a == JoinPath(base, a)[|base| + 1..];
    }
  }

  /** What a canonical project path with a backslash is located at does not resolve to where the
      path itself lies, unless a link leads there. */
  lemma LocatedElsewhere(readlink: Resolver, base: string, path: string, full: string)
    requires '\\' in path && Locate(base, path) == Success(full)
    requires Canonical(readlink, Components(JoinPath(TrimEnd(base, '/'), path)))
    requires base != "" ==> TrimEnd(base, '/') != "" && !StartsWith(TrimEnd(base, '/'), '/')
    requires Resolve(readlink, full).Success? && LinksFollowed(readlink, full) == 0
    ensures Resolve(readlink, full).value != JoinPath(TrimEnd(base, '/'), path)
  {
    var trimmed, read := TrimEnd(base, '/'), WorkspacePath(path).value;
    WorkspacePathIsIdempotent(path);
    if base == "" {
      NamesResolveToThemselves(readlink, read);
    } else {
      BaseNames(readlink, trimmed, path);
      ResolvesBelow(readlink, base, trimmed, read);
      JoinIsInjective(trimmed, read, path);
    }
  }

  /** The lookup of the canonical path itself follows a link. */
  predicate FollowsALink(readlink: Resolver, base: string, path: string) {
    && Locate(base, path).Success?
    && Resolve(readlink, Locate(base, path).value).Success?
    && LinksFollowed(readlink, Locate(base, path).value) > 0
  }

  /** Unless its own lookup follows a link, a canonical project path is a fixed point exactly when
      no file name in it holds a backslash. */
  lemma FixedPointsHaveNoBackslash(readlink: Resolver, base: string, path: string)
    requires Canonicalize(readlink, base, path).Success?
    ensures var result := Canonicalize(readlink, base, path);
            !FollowsALink(readlink, base, result.value) ==>
              (Canonicalize(readlink, base, result.value) == result <==> '\\' !in result.value)
  {
    var result := Canonicalize(readlink, base, path);
    if '\\' !in result.value {
      CanonicalizeIsIdempotent(readlink, base, path);
    } else if Canonicalize(readlink, base, result.value) == result {
      RejoinsToResolution(readlink, base, path);
      RejoinsToResolution(readlink, base, result.value);
      ResolutionIsCanonical(readlink, Locate(base, path).value);
      if base != "" {
        BaseIsRelative(readlink, base, path, Locate(base, path).value);
      }
      var full := Locate(base, result.value).value;
      if LinksFollowed(readlink, full) == 0 {
        LocatedElsewhere(readlink, base, result.value, full);
      }
    }
  }

  /** A workspace whose only link leads to a file named by a backslash. */
  function OneLink(path: string): Result<string, ErrorCode> {
    if path == "k" then Success("\\") else Failure(Invalid)
  }

  lemma LinkResolves()
    ensures Resolve(OneLink, "k") == Success("\\")
  {
    SplitWord("k", '/');
    SplitWord("\\", '/');
    assert ["k"] + [] == ["k"] && ["\\"] + [] == ["\\"];
    assert [] + ["k"] == ["k"] && [] + ["\\"] == ["\\"];
    FollowNext(OneLink, "k", "k", [], [], MAX_SYMLINK_EXPANSIONS);
    FollowNext(OneLink, "k", "\\", [], [], MAX_SYMLINK_EXPANSIONS - 1);
  }

  lemma BackslashIsTheRoot()
    ensures WorkspacePath("\\") == Success("")
  {
    assert "\\"[1..] == "";
    assert Replace("\\", '\\', "/") == "/";
    assert "/"[1..] == "";
    assert Split("/", '/') == ["", ""];
    assert Normalize(["", ""], []) == Normalize([""], []) == Normalize([], []);
  }

  /** A backslash in a file name is read as a separator the second time. */
  lemma BackslashIsReadAsSeparator()
    ensures Canonicalize(OneLink, "", "k") == Success("\\")
    ensures Canonicalize(OneLink, "", "\\") == Success("")
  {
    SplitWord("k", '/');
    WorkspacePathKeeps("k");
    LinkResolves();
    BackslashIsTheRoot();
    CanonicalPathStays(OneLink, "", 0);
  }
}
