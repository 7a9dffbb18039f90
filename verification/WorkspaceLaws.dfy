/** What the project's view comes to, in terms of resolution and of the paths' texts alone. */
module WorkspaceLaws {
  import opened Wrappers
  import opened Strings
  import opened PathResolution
  import opened WorkspaceVfs
  import BridgePaths

  // ----- The lexical rules -----

  lemma {:induction false} NormalizeWalks(
    readlink: Resolver, rel: string, segs: seq<string>, kept: seq<string>, budget: nat)
    requires BridgePaths.LinkFree(readlink) && ".spin" !in segs
    ensures var walk := Follow(readlink, rel, segs, kept, budget);
            Normalize(segs, kept) == if walk.Arrived? then Some(walk.resolved) else None
    decreases |segs|
  {
    if segs != [] {
      BridgePaths.LinkFreeEffect(readlink, rel, segs[0], kept);
      var effect := EffectOf(readlink, rel, segs[0], kept);
      if effect.Goto? {
        NormalizeWalks(readlink, rel, segs[1..], effect.resolved, budget);
      }
    }
  }

  /** In a workspace without links, the lexical rules give what resolution gives, for any relative
      path that does not mention the reserved name. */
  lemma LexicalIsResolution(readlink: Resolver, raw: string, path: string)
    requires BridgePaths.LinkFree(readlink)
    requires '\\' !in raw && !StartsWith(raw, '/') && ".spin" !in Split(raw, '/')
    ensures NormalizedPath(raw) == Success(path) <==> Resolve(readlink, raw) == Success(path)
  {
    ReplaceNone(raw, '\\', "/");
    NormalizeWalks(readlink, raw, Split(raw, '/'), [], MAX_SYMLINK_EXPANSIONS);
  }

  /** A backslash reads as a slash. */
  lemma BackslashIsSlash(a: string, b: string, path: string)
    ensures NormalizedPath(a + "\\" + b) == Success(path) <==> NormalizedPath(a + "/" + b) == Success(path)
  {
    ReplaceConcat(a + "\\", b, '\\', "/");
    ReplaceConcat(a, "\\", '\\', "/");
    ReplaceConcat(a + "/", b, '\\', "/");
    ReplaceConcat(a, "/", '\\', "/");
    ReplacedSlashes();
  }

  lemma ReplacedSlashes()
    ensures Replace("\\", '\\', "/") == "/" && Replace("/", '\\', "/") == "/"
  {
    assert "\\"[1..] == "" && "/"[1..] == "";
  }

  /** A leading slash is dropped. */
  lemma LeadingSlashIsDropped(raw: string, path: string)
    ensures NormalizedPath("/" + raw) == Success(path) <==> NormalizedPath(raw) == Success(path)
  {
    var clean := Replace(raw, '\\', "/");
    ReplaceConcat("/", raw, '\\', "/");
    ReplacedSlashes();
    SplitConcat("", clean, '/');
    assert "" + ['/'] + clean == "/" + clean;
    assert Split("/" + clean, '/')[1..] == Split(clean, '/');
  }

  /** A normalised path is accepted unless it mentions the reserved name. */
  lemma ReservedIsRefused(raw: string, path: string)
    ensures WorkspacePath(raw) == Success(path) <==>
              NormalizedPath(raw) == Success(path) && ".spin" !in Split(path, '/')
    ensures WorkspacePath(raw).Failure? ==> WorkspacePath(raw) == Failure(Escape(raw))
  {
  }

  // ----- Canonicalisation -----

  /** `path` below the project's directory, the project itself being the empty path. */
  function Below(base: string, path: string): string {
    if path == "" then base else JoinPath(base, path)
  }

  lemma LocatesBelow(readlink: Resolver, base: string, raw: string, path: string)
    requires Resolve(readlink, base) == Success(base) && WorkspacePath(raw) == Success(path)
    ensures TrimEnd(base, '/') == base && TrimStart(base, '/') == base
    ensures Locate(base, raw) == Success(Below(base, path))
  {
    ResolutionIsCanonical(readlink, base);
    TrimStartKeeps(base, '/');
    if base != "" {
      CanonicalEnds(readlink, base);
    }
  }

  /** What lies below the base is inside it, and is handed back relative to it. */
  lemma StripsBase(readlink: Resolver, base: string, resolved: string, path: string)
    requires TrimEnd(base, '/') == base && TrimStart(base, '/') == base
    requires Resolve(readlink, resolved) == Success(resolved)
    ensures resolved == Below(base, path) <==> Inside(base, resolved) && StripBase(base, resolved) == path
  {
    ResolutionIsCanonical(readlink, resolved);
    if resolved != "" {
      CanonicalEnds(readlink, resolved);
    }
    assert TrimEnd(resolved, '/') == resolved;
    var prefix := base + "/";
    if base != "" && prefix <= resolved {
      assert resolved == prefix + resolved[|prefix|..];
      assert resolved[|prefix|..] != "" by {
        assert resolved[|resolved| - 1] != '/';
      }
    }
    if base != "" && path != "" && resolved == JoinPath(base, path) {
      assert prefix <= resolved && resolved[|prefix|..] == path;
    }
  }

  /** For a base that resolves to itself: an accepted path is canonicalised to `path` exactly when,
      below the base, it resolves to `path` below the base. Everything else is an escape, or the
      file system's own error. */
  lemma CanonicalizeIsExact(readlink: Resolver, base: string, raw: string, written: string, path: string)
    requires Resolve(readlink, base) == Success(base) && WorkspacePath(raw) == Success(written)
    ensures Canonicalize(readlink, base, raw) == Success(path) <==>
              Resolve(readlink, Below(base, written)) == Success(Below(base, path))
    ensures Canonicalize(readlink, base, raw).Failure? ==>
              Canonicalize(readlink, base, raw)
              == if Resolve(readlink, Below(base, written)).Success? then Failure(Escape(raw))
                 else Failure(Filesystem(Resolve(readlink, Below(base, written)).error))
  {
    LocatesBelow(readlink, base, raw, written);
    if Resolve(readlink, Below(base, written)).Success? {
      ResolutionIsCanonical(readlink, Below(base, written));
      StripsBase(readlink, base, Resolve(readlink, Below(base, written)).value, path);
    }
  }
}
