/** Redirects, one kind of location at a time: what the URL is made of, in terms of the texts of the
    base and the location. */
module RedirectLaws {
  import opened Collections
  import opened Wrappers
  import opened Strings
  import opened DotSegments
  import opened UriReference
  import opened Redirect

  // ----- Merging -----

  lemma {:induction false} ThroughSlash(dir: string, last: string)
    requires '/' !in last
    ensures ThroughLastSlash(dir + "/" + last) == dir + "/"
  {
    var path := dir + "/" + last;
    if last == "" {
      assert path == dir + "/" && path[|path| - 1] == '/';
    } else {
      var front := last[..|last| - 1];
      assert path[..|path| - 1] == dir + "/" + front && path[|path| - 1] == last[|last| - 1];
      ThroughSlash(dir, front);
    }
  }

  lemma {:induction false} NoSlash(path: string)
    requires '/' !in path
    ensures ThroughLastSlash(path) == ""
  {
    if path != "" {
      NoSlash(path[..|path| - 1]);
    }
  }

  /** A relative path replaces what follows the last slash of the base path; below an authority an
      empty base path counts as `/`. */
  lemma MergesAfterLastSlash(dir: string, last: string, refPath: string, hasAuthority: bool)
    requires '/' !in last
    ensures MergePaths(dir + "/" + last, refPath, hasAuthority) == dir + "/" + refPath
    ensures MergePaths("", refPath, true) == "/" + refPath
    ensures last != "" || !hasAuthority ==> MergePaths(last, refPath, hasAuthority) == refPath
  {
    ThroughSlash(dir, last);
    NoSlash(last);
    assert "" + refPath == refPath;
  }

  // ----- The kinds of locations -----

  /** The location as it stands is the reference, with nothing to trim. */
  predicate Locates(location: string, r: Reference) {
    Parts(r) && location == Text(r) && Trim(location) == location
  }

  lemma RedirectedTo(base: BaseUri, location: string, r: Reference)
    requires ValidBase(base) && Locates(location, r)
    ensures Redirected(base, location) == Success(Text(Transform(base, r)))
  {
    ParsesText(r);
    TargetIsCuttable(base, location);
  }

  /** A location with a scheme keeps all but the dot segments of its path. */
  lemma AbsoluteUrl(base: BaseUri, location: string, r: Reference)
    requires ValidBase(base) && Locates(location, r) && r.scheme.Some?
    ensures Redirected(base, location)
            == Success(Text(Reference(r.scheme, r.authority, RemoveDots(r.path), r.query, r.fragment)))
  {
    RedirectedTo(base, location, r);
  }

  /** One with an authority takes the base's scheme only. */
  lemma NetworkPath(base: BaseUri, location: string, r: Reference)
    requires ValidBase(base) && Locates(location, r) && r.scheme.None? && r.authority.Some?
    ensures Redirected(base, location)
            == Success(Text(Reference(base.scheme, r.authority, RemoveDots(r.path), r.query, r.fragment)))
  {
    RedirectedTo(base, location, r);
  }

  /** An absolute path takes the scheme and the authority. */
  lemma AbsolutePath(base: BaseUri, location: string, r: Reference)
    requires ValidBase(base) && Locates(location, r) && r.scheme.None? && r.authority.None?
    requires r.path != "" && r.path[0] == '/'
    ensures Redirected(base, location)
            == Success(Text(Reference(base.scheme, base.authority, RemoveDots(r.path), r.query, r.fragment)))
  {
    RedirectedTo(base, location, r);
  }

  /** A relative path is resolved in the directory of the base path. */
  lemma RelativePath(base: BaseUri, location: string, r: Reference, dir: string, last: string)
    requires ValidBase(base) && Locates(location, r) && r.scheme.None? && r.authority.None?
    requires r.path != "" && r.path[0] != '/'
    requires base.path == dir + "/" + last && '/' !in last
    ensures Redirected(base, location)
            == Success(Text(Reference(base.scheme, base.authority, RemoveDots(dir + "/" + r.path),
                                      r.query, r.fragment)))
  {
    RedirectedTo(base, location, r);
    MergesAfterLastSlash(dir, last, r.path, base.authority.Some?);
  }

  /** A location without a path keeps the base's, and the base's query if it has none. */
  lemma SamePath(base: BaseUri, location: string, r: Reference)
    requires ValidBase(base) && Locates(location, r) && r.scheme.None? && r.authority.None? && r.path == ""
    ensures Redirected(base, location)
            == Success(Text(Reference(base.scheme, base.authority, base.path,
                                      if r.query.Some? then r.query else base.query, r.fragment)))
  {
    RedirectedTo(base, location, r);
  }

  /** A relative path below an authority, which no URL has but the base may be given with, is made
      absolute by a slash. */
  lemma SlashIsPutIn(base: BaseUri, location: string, r: Reference)
    requires base.scheme.Some? && base.authority.Some? && base.path != "" && base.path[0] != '/'
    requires Locates(location, r) && r.scheme.None? && r.authority.None? && r.path == ""
    ensures Redirected(base, location)
            == Success(Text(Reference(base.scheme, base.authority, "/" + base.path,
                                      if r.query.Some? then r.query else base.query, r.fragment)))
  {
    ParsesText(r);
  }

  /** Without a scheme in the base there is nothing to resolve against, and nothing else fails. */
  lemma BaseNeedsScheme(base: BaseUri, location: string)
    ensures base.scheme.None? ==> Redirected(base, location) == Failure("base URI missing scheme")
    ensures base.scheme.Some? ==> Redirected(base, location).Success?
  {
  }

  // ----- White space around the location -----

  predicate AllBlank(s: string) {
    forall i :: 0 <= i < |s| ==> s[i] in {' ', '\t', '\n', '\r', '\U{b}', '\U{c}', '\U{a0}', '\U{3000}'}
  }

  lemma {:induction false} TrimsFront(blank: string, s: string)
    requires AllBlank(blank)
    ensures TrimLeft(blank + s) == TrimLeft(s)
  {
    if blank == "" {
      assert blank + s == s;
    } else {
      assert (blank + s)[1..] == blank[1..] + s && (blank + s)[0] == blank[0];
      TrimsFront(blank[1..], s);
    }
  }

  lemma {:induction false} TrimsBack(s: string, blank: string)
    requires AllBlank(blank)
    ensures TrimRight(s + blank) == TrimRight(s)
  {
    if blank == "" {
      assert s + blank == s;
    } else {
      var n := |blank| - 1;
      assert (s + blank)[..|s| + n] == s + blank[..n] && (s + blank)[|s| + n] == blank[n];
      TrimsBack(s, blank[..n]);
    }
  }

  /** White space before and after the location does not matter. */
  lemma BlanksDoNotMatter(base: BaseUri, before: string, first: char, rest: string, after: string)
    requires AllBlank(before) && AllBlank(after) && !IsSpace(first)
    ensures Redirected(base, before + [first] + rest + after) == Redirected(base, [first] + rest)
  {
    var location := [first] + rest;
    assert before + [first] + rest + after == before + (location + after);
    TrimsFront(before, location + after);
    assert TrimLeft(location + after) == location + after && TrimLeft(location) == location;
    TrimsBack(location, after);
  }

  // ----- Schemes -----

  predicate IsLetter(c: char) {
    'a' <= c <= 'z' || 'A' <= c <= 'Z'
  }

  predicate MayFollow(c: char) {
    IsLetter(c) || c in "0123456789" || c in "+-."
  }

  lemma SchemeCharacters(c: char)
    ensures IsSchemeChar(c) <==> MayFollow(c)
  {
    assert c in "0123456789" <==> '0' <= c <= '9' by {
      if '0' <= c <= '9' {
        assert "0123456789"[c as int - '0' as int] == c;
      }
    }
  }

  /** A scheme is a letter and then letters, digits and the characters `+`, `-` and `.`, as section
      3.1 of RFC 3986 has it; it ends at the first colon. */
  lemma SchemesAreRead(first: char, more: string, rest: string)
    requires ':' !in [first] + more
    ensures ExtractScheme([first] + more + ":" + rest)
            == if IsLetter(first) && forall i :: 0 <= i < |more| ==> MayFollow(more[i])
               then Some(([first] + more, rest)) else None
  {
    var scheme := [first] + more;
    assert [first] + more + ":" + rest == scheme + [':'] + rest;
    SplitOnceConcat(scheme, rest, ':');
    forall i | 0 <= i < |more| ensures IsSchemeChar(more[i]) <==> MayFollow(more[i]) {
      SchemeCharacters(more[i]);
    }
    assert scheme[0] == first && forall i :: 0 <= i < |more| ==> scheme[i + 1] == more[i];
    if IsScheme(scheme) {
      forall i | 0 <= i < |more| ensures MayFollow(more[i]) {
        assert IsSchemeChar(scheme[i + 1]);
      }
    }
    if IsLetter(first) && forall i :: 0 <= i < |more| ==> MayFollow(more[i]) {
      forall i | 0 <= i < |scheme| ensures IsSchemeChar(scheme[i]) {
        assert i > 0 ==> scheme[i] == more[i - 1];
      }
      assert '/' !in scheme;
    }
  }
}
