/** Redirect resolution: sections 5.2.2, 5.2.3 and 5.3 of RFC 3986. */
module Redirect {
  import opened Collections
  import opened Wrappers
  import opened Strings
  import opened DotSegments
  import opened UriReference

  /** The parsed URI a redirect was answered from. */
  datatype BaseUri = BaseUri(scheme: Option<string>, authority: Option<string>, path: string, query: Option<string>)

  // ----- Section 5.2 -----

  /** The text up to and including the last slash. */
  function ThroughLastSlash(path: string): (t: string)
    ensures t <= path
    ensures t == "" || t[|t| - 1] == '/'
  {
    if path == "" || path[|path| - 1] == '/' then path else ThroughLastSlash(path[..|path| - 1])
  }

  /** Section 5.2.3. */
  function MergePaths(basePath: string, refPath: string, hasAuthority: bool): string {
    if hasAuthority && basePath == "" then "/" + refPath else ThroughLastSlash(basePath) + refPath
  }

  /** Section 5.2.2, for a base with a scheme. */
  function Transform(base: BaseUri, r: Reference): Reference
    requires base.scheme.Some?
  {
    if r.scheme.Some? then r.(path := RemoveDots(r.path))
    else if r.authority.Some? then r.(scheme := base.scheme, path := RemoveDots(r.path))
    else
      var (path, query) :=
        if r.path == "" then (base.path, if r.query.Some? then r.query else base.query)
        else if StartsWith(r.path, '/') then (RemoveDots(r.path), r.query)
        else (RemoveDots(MergePaths(base.path, r.path, base.authority.Some?)), r.query);
      Reference(base.scheme, base.authority, path, query, r.fragment)
  }

  /** A path after an authority is made to start with a slash. */
  function Rooted(r: Reference): Reference {
    if r.authority.Some? && r.path != "" && !StartsWith(r.path, '/') then r.(path := "/" + r.path) else r
  }

  /** What `resolve_redirect` returns. */
  function Redirected(base: BaseUri, location: string): Result<string, string> {
    if base.scheme.None? then Failure("base URI missing scheme")
    else Success(Text(Rooted(Transform(base, Parse(Trim(location))))))
  }

  method ResolveRedirect(base: BaseUri, location: string) returns (result: Result<string, string>)
    ensures result == Redirected(base, location)
  {
    if base.scheme.None? {
      return Failure("base URI missing scheme");
    }
    var target := ResolveTarget(base, Trim(location));
    var text := Recompose(target);
    return Success(text);
  }

  /** The branches that choose the target's components. */
  method ResolveTarget(base: BaseUri, location: string) returns (target: Reference)
    requires base.scheme.Some?
    ensures target == Transform(base, Parse(location))
  {
    var withoutFragment, fragment := Lead(location, '#'), Trail(location, '#');
    var withoutQuery, query := Lead(withoutFragment, '?'), Trail(withoutFragment, '?');
    var scheme: Option<string>, authority: Option<string>, path: string;
    match ExtractScheme(withoutQuery) {
      case Some((found, rest)) =>
        scheme := Some(found);
        if "//" <= rest {
          var cut := UpToSlash(rest[2..]);
          authority := Some(cut.0);
          path := RemoveDotSegments(cut.1);
        } else {
          authority := None;
          path := RemoveDotSegments(rest);
        }
      case None =>
        scheme := base.scheme;
        if "//" <= withoutQuery {
          var cut := UpToSlash(withoutQuery[2..]);
          authority := Some(cut.0);
          path := RemoveDotSegments(cut.1);
        } else {
          authority := base.authority;
          if withoutQuery == "" {
            path := base.path;
            query := if query.Some? then query else base.query;
          } else if StartsWith(withoutQuery, '/') {
            path := RemoveDotSegments(withoutQuery);
          } else {
            path := RemoveDotSegments(MergePaths(base.path, withoutQuery, base.authority.Some?));
          }
        }
    }
    target := Reference(scheme, authority, path, query, fragment);
  }

  /** The appends that put the target together. */
  method Recompose(t: Reference) returns (text: string)
    requires t.scheme.Some?
    ensures text == Text(Rooted(t))
  {
    var head := RecomposeHead(t);
    text := head;
    if t.query.Some? {
      text := text + "?" + t.query.value;
      Regroup(head, "?", t.query.value);
    }
    ghost var lead := text;
    assert lead == head + Optional("?", t.query);
    if t.fragment.Some? {
      text := text + "#" + t.fragment.value;
      Regroup(lead, "#", t.fragment.value);
    }
  }

  method RecomposeHead(t: Reference) returns (text: string)
    requires t.scheme.Some?
    ensures text == Head(Rooted(t))
  {
    ghost var scheme := t.scheme.value + ":";
    text := t.scheme.value + ":";
    if t.authority.Some? {
      text := text + "//" + t.authority.value;
      Regroup(scheme, "//", t.authority.value);
    }
    ghost var lead := text;
    assert lead == scheme + Optional("//", t.authority);
    if t.path != "" {
      if t.authority.Some? && !StartsWith(t.path, '/') {
        text := text + "/";
        Regroup(lead, "/", t.path);
      }
      text := text + t.path;
    }
    Regroup(scheme, Optional("//", t.authority), Rooted(t).path);
  }

  // ----- A resolved URL is a fixed point -----

  predicate EndsWell(s: string) {
    s == "" || !IsSpace(s[|s| - 1])
  }

  /** What the URI type guarantees of a parsed base with a scheme. */
  predicate ValidBase(base: BaseUri) {
    && base.scheme.Some? && IsScheme(base.scheme.value)
    && HierarchyParts(base.authority, base.path)
    && '#' !in Hierarchy(base.authority, base.path) && '?' !in Hierarchy(base.authority, base.path)
    && (base.query.Some? ==> '#' !in base.query.value)
  }

  /** The base as a reference. */
  function AsReference(base: BaseUri): Reference {
    Reference(base.scheme, base.authority, base.path, base.query, None)
  }

  /** The reference leaves scheme, authority and path to the base. */
  predicate Inherits(r: Reference) {
    r.scheme.None? && r.authority.None? && r.path == ""
  }

  predicate InheritsPath(location: string) {
    Inherits(Parse(Trim(location)))
  }

  /** The URL takes its last character from the base, and that is white space. */
  predicate InheritsSpace(base: BaseUri, location: string) {
    Trim(location) == "" && !EndsWell(Text(AsReference(base)))
  }

  /** A target whose text can be cut again, up to a path that looks like an authority. */
  predicate Cuttable(t: Reference) {
    && t.scheme.Some? && IsScheme(t.scheme.value)
    && (t.authority.Some? ==> HierarchyParts(t.authority, t.path))
    && '#' !in Hierarchy(t.authority, t.path) && '?' !in Hierarchy(t.authority, t.path)
    && (t.query.Some? ==> '#' !in t.query.value)
  }

  /** The merged path starts with a slash below an authority, and brings in no new character. */
  lemma MergedPath(base: BaseUri, refPath: string, c: char)
    requires ValidBase(base) && c !in base.path && c !in refPath && c != '/'
    ensures var merged := MergePaths(base.path, refPath, base.authority.Some?);
            && c !in merged
            && (base.authority.Some? ==> StartsWith(merged, '/'))
  {
    if base.path != "" {
      SlashIsKept(base.path);
      assert c !in ThroughLastSlash(base.path) by {
        assert ThroughLastSlash(base.path) <= base.path;
      }
    }
  }

  lemma {:induction false} SlashIsKept(path: string)
    ensures StartsWith(path, '/') ==> StartsWith(ThroughLastSlash(path), '/')
  {
    if path != "" && path[|path| - 1] != '/' {
      SlashIsKept(path[..|path| - 1]);
    }
  }

  /** Removing dots keeps a path empty or absolute where it was. */
  lemma StillRooted(path: string)
    requires path == "" || StartsWith(path, '/')
    ensures RemoveDots(path) == "" || StartsWith(RemoveDots(path), '/')
    ensures RemoveDots(path) == "" ==> path == ""
  {
    if path == "" {
      NeverLonger(path);
    } else {
      StaysAbsolute(path);
    }
  }

  lemma ReferenceParts(location: string, c: char)
    requires c == '#' || c == '?'
    ensures var r := Parse(location);
            && c !in Hierarchy(r.authority, r.path) && c !in r.path
            && (r.scheme.Some? ==> IsScheme(r.scheme.value))
            && (r.authority.Some? ==> c !in r.authority.value)
            && (r.query.Some? ==> '#' !in r.query.value)
            && HierarchyParts(r.authority, r.path)
  {
    ParseGivesText(location);
  }

  /** What one component of the target needs, for the character `c`. */
  lemma TargetHasNo(base: BaseUri, r: Reference, c: char)
    requires ValidBase(base) && (c == '#' || c == '?')
    requires c !in r.path && (r.authority.Some? ==> c !in r.authority.value)
    ensures c !in Hierarchy(Transform(base, r).authority, Transform(base, r).path)
  {
    ResultHasNo(r.path, c);
    assert base.authority.Some? ==> c !in base.authority.value by {
      assert base.authority.Some? ==>
          Hierarchy(base.authority, base.path) == "//" + base.authority.value + base.path;
    }
    if r.scheme.None? && r.authority.None? && r.path != "" && !StartsWith(r.path, '/') {
      MergedPath(base, r.path, c);
      ResultHasNo(MergePaths(base.path, r.path, base.authority.Some?), c);
    }
  }

  lemma TargetIsRooted(base: BaseUri, r: Reference)
    requires ValidBase(base) && HierarchyParts(r.authority, r.path)
    requires '?' !in r.path && '?' !in base.path
    ensures var t := Transform(base, r);
            && (t.authority.Some? ==> HierarchyParts(t.authority, t.path))
            && Rooted(t) == t
  {
    if r.path == "" || StartsWith(r.path, '/') {
      StillRooted(r.path);
    } else if r.scheme.None? && r.authority.None? && base.authority.Some? {
      MergedPath(base, r.path, '?');
      StillRooted(MergePaths(base.path, r.path, true));
    }
  }

  /** For a valid base the target never needs a slash put in, and its text can be cut again. */
  lemma TargetIsCuttable(base: BaseUri, location: string)
    requires ValidBase(base)
    ensures var t := Transform(base, Parse(location));
            Cuttable(t) && Rooted(t) == t
  {
    var r := Parse(location);
    ReferenceParts(location, '#');
    ReferenceParts(location, '?');
    TargetHasNo(base, r, '#');
    TargetHasNo(base, r, '?');
    TargetIsRooted(base, r);
  }

  // ----- White space at the ends -----

  lemma EndOfConcat(a: string, b: string)
    ensures EndsWell(a + b) <==> (if b == "" then EndsWell(a) else EndsWell(b))
  {
    if b == "" {
      assert a + b == a;
    }
  }

  /** A text ends well when its last written component does. */
  lemma EndOfText(r: Reference)
    ensures EndsWell(Text(r)) <==>
              if r.fragment.Some? then EndsWell(r.fragment.value)
              else if r.query.Some? then EndsWell(r.query.value)
              else EndsWell(Head(r))
  {
    EndOfConcat(Head(r) + Optional("?", r.query), Optional("#", r.fragment));
    EndOfConcat(Head(r), Optional("?", r.query));
    if r.fragment.Some? {
      EndOfConcat("#", r.fragment.value);
    } else if r.query.Some? {
      EndOfConcat("?", r.query.value);
    }
  }

  lemma EndOfHead(r: Reference)
    ensures EndsWell(Head(r)) <==>
              if r.path != "" then EndsWell(r.path)
              else r.authority.Some? ==> EndsWell(r.authority.value)
  {
    EndOfConcat(SchemeText(r.scheme), Hierarchy(r.authority, r.path));
    EndOfConcat(Optional("//", r.authority), r.path);
    if r.authority.Some? {
      EndOfConcat("//", r.authority.value);
    } else if r.scheme.Some? {
      EndOfConcat(r.scheme.value, ":");
    }
  }

  lemma RemoveDotsEndsWell(path: string)
    requires EndsWell(path)
    ensures EndsWell(RemoveDots(path))
  {
    ResultEnds(path);
  }

  lemma MergedEndsWell(base: BaseUri, refPath: string)
    requires EndsWell(refPath) && refPath != ""
    ensures EndsWell(RemoveDots(MergePaths(base.path, refPath, base.authority.Some?)))
  {
    EndOfConcat(ThroughLastSlash(base.path), refPath);
    EndOfConcat("/", refPath);
    RemoveDotsEndsWell(MergePaths(base.path, refPath, base.authority.Some?));
  }

  lemma HeadEndsWell(base: BaseUri, r: Reference)
    requires ValidBase(base) && HierarchyParts(r.authority, r.path) && EndsWell(Head(r)) && !Inherits(r)
    ensures EndsWell(Head(Transform(base, r)))
  {
    EndOfHead(r);
    EndOfHead(Transform(base, r));
    RemoveDotsEndsWell(r.path);
    if r.path == "" || StartsWith(r.path, '/') {
      StillRooted(r.path);
    } else if r.scheme.None? && r.authority.None? {
      MergedEndsWell(base, r.path);
      if base.authority.Some? {
        MergedIsRooted(base, r.path);
      }
    }
  }

  lemma MergedIsRooted(base: BaseUri, refPath: string)
    requires ValidBase(base) && base.authority.Some?
    ensures var merged := MergePaths(base.path, refPath, true);
            merged != "" && RemoveDots(merged) != ""
  {
    SlashIsKept(base.path);
    StillRooted(MergePaths(base.path, refPath, true));
  }

  /** Nothing but the empty location inherits all of the base. */
  lemma EmptyLocation(location: string)
    ensures var r := Parse(location);
            location == "" <==> Inherits(r) && r.query.None? && r.fragment.None?
  {
    ParseGivesText(location);
  }

  /** Given a location that ends well, the target's text does, exactly unless the location is empty
      and the base does not. */
  lemma TargetEndsWell(base: BaseUri, location: string)
    requires ValidBase(base) && EndsWell(location)
    ensures EndsWell(Text(Transform(base, Parse(location)))) <==>
              location != "" || EndsWell(Text(AsReference(base)))
  {
    var r := Parse(location);
    var t := Transform(base, r);
    EmptyLocation(location);
    if location == "" {
      assert t == AsReference(base);
    } else {
      assert EndsWell(Text(r)) by { ParseGivesText(location); }
      EndOfText(r);
      EndOfText(t);
      if r.fragment.None? && r.query.None? {
        assert HierarchyParts(r.authority, r.path) by { ParseGivesText(location); }
        HeadEndsWell(base, r);
      }
    }
  }

  /** Trimming leaves the target's text alone. */
  lemma TrimKeeps(s: string)
    requires s != "" && !IsSpace(s[0]) && EndsWell(s)
    ensures Trim(s) == s
  {
  }

  lemma TrimEndsWell(s: string)
    ensures EndsWell(Trim(s))
  {
  }

  // ----- Reading the target back -----

  /** The target read back: the same text, though a path that opens with two slashes is read as
      an authority and a path. */
  function ReadBack(t: Reference): Reference {
    var hierarchy := Hierarchy(t.authority, t.path);
    t.(authority := AuthorityOf(hierarchy), path := AfterAuthority(hierarchy))
  }

  lemma SameText(t: Reference)
    ensures HierarchyParts(ReadBack(t).authority, ReadBack(t).path)
    ensures Head(ReadBack(t)) == Head(t) && Text(ReadBack(t)) == Text(t)
  {
    HierarchyOf(Hierarchy(t.authority, t.path));
  }

  lemma SchemeHasNo(t: Reference, c: char)
    requires Cuttable(t) && (c == '#' || c == '?')
    ensures c !in Head(t)
  {
    assert c !in t.scheme.value && c !in SchemeText(t.scheme);
  }

  lemma ReadsBack(t: Reference)
    requires Cuttable(t)
    ensures Parse(Text(t)) == ReadBack(t) && Text(ReadBack(t)) == Text(t)
    ensures HierarchyParts(ReadBack(t).authority, ReadBack(t).path)
    ensures HierarchyParts(t.authority, t.path) ==> ReadBack(t) == t
  {
    SameText(t);
    SchemeHasNo(t, '#');
    SchemeHasNo(t, '?');
    ParsesText(ReadBack(t));
    if HierarchyParts(t.authority, t.path) {
      CutsHierarchy(t.authority, t.path);
    }
  }

  /** Texts that differ in their path only are equal when the paths are. */
  lemma PathIsDetermined(r: Reference, path: string)
    ensures Text(r.(path := path)) == Text(r) <==> path == r.path
  {
    var other := r.(path := path);
    var lead := SchemeText(r.scheme) + Optional("//", r.authority);
    var tail := Optional("?", r.query) + Optional("#", r.fragment);
    Regroup(SchemeText(r.scheme), Optional("//", r.authority), path);
    Regroup(SchemeText(r.scheme), Optional("//", r.authority), r.path);
    Regroup(Head(r), Optional("?", r.query), Optional("#", r.fragment));
    Regroup(Head(other), Optional("?", r.query), Optional("#", r.fragment));
    Cancel(lead, path, r.path, tail);
  }

  lemma Cancel(lead: string, a: string, b: string, tail: string)
    ensures (lead + a) + tail == (lead + b) + tail <==> a == b
  {
    var x, y := (lead + a) + tail, (lead + b) + tail;
    if x == y {
      assert |a| == |b|;
      assert a == x[|lead|..|lead| + |a|] && b == y[|lead|..|lead| + |b|];
    }
  }

  /** A reference with a scheme keeps all but the dots of its path, and needs no slash put in. */
  lemma TransformedAgain(base: BaseUri, r: Reference)
    requires base.scheme.Some? && r.scheme.Some? && HierarchyParts(r.authority, r.path)
    ensures Rooted(Transform(base, r)) == r.(path := RemoveDots(r.path))
  {
    if r.path == "" || StartsWith(r.path, '/') {
      StillRooted(r.path);
    }
  }

  lemma TextOpens(t: Reference)
    requires Cuttable(t)
    ensures var front := t.scheme.value + ":";
            front <= Text(t) && !IsSpace(front[0]) && !IsSpace(front[|front| - 1])
  {
    assert (t.scheme.value + ":")[0] == t.scheme.value[0];
  }

  /** Resolving the target's text reads it back and works off the dots of the path read. */
  lemma RedirectedAgain(base: BaseUri, t: Reference)
    requires base.scheme.Some? && Cuttable(t) && EndsWell(Text(t))
    ensures var back := ReadBack(t);
            Redirected(base, Text(t)) == Success(Text(back.(path := RemoveDots(back.path))))
  {
    TextOpens(t);
    TrimKeeps(Text(t));
    ReadsBack(t);
    TransformedAgain(base, ReadBack(t));
  }

  /** Resolving the target's text against any base changes it exactly when its path has dots. */
  lemma ResolvedAgain(base: BaseUri, t: Reference)
    requires base.scheme.Some? && Cuttable(t) && EndsWell(Text(t))
    ensures Redirected(base, Text(t)) == Success(Text(t)) <==> NoDots(Split(ReadBack(t).path, '/'))
  {
    var back := ReadBack(t);
    RedirectedAgain(base, t);
    SameText(t);
    PathIsDetermined(back, RemoveDots(back.path));
    FixedPoints(back.path);
  }

  lemma NoDotsConcat(a: seq<string>, b: seq<string>)
    ensures NoDots(a + b) <==> NoDots(a) && NoDots(b)
  {
    if NoDots(a + b) {
      forall i | 0 <= i < |a| ensures !IsDot(a[i]) {
        assert (a + b)[i] == a[i];
      }
      forall i | 0 <= i < |b| ensures !IsDot(b[i]) {
        assert (a + b)[|a| + i] == b[i];
      }
    }
  }

  lemma SuffixHasNoDots(front: string, rest: string)
    requires NoDots(Split(front + "/" + rest, '/'))
    ensures NoDots(Split("" + "/" + rest, '/'))
  {
    SplitConcat(front, rest, '/');
    SplitAfterSlash("", rest);
    NoDotsConcat(Split(front, '/'), Split(rest, '/'));
    NoDotsConcat([""], Split(rest, '/'));
  }

  lemma CutHasNoDots(path: string)
    requires "//" <= path && NoDots(Split(path, '/'))
    ensures NoDots(Split(UpToSlash(path[2..]).1, '/'))
  {
    var cut := UpToSlash(path[2..]);
    if cut.1 == "" {
      assert Split("", '/') == [""];
    } else {
      var front, rest := "//" + cut.0, cut.1[1..];
      assert path == front + "/" + rest;
      SuffixHasNoDots(front, rest);
      assert cut.1 == "" + "/" + rest;
    }
  }

  /** Reading a path back brings no dot segment in. */
  lemma ReadBackHasNoDots(t: Reference)
    requires Cuttable(t) && NoDots(Split(t.path, '/'))
    ensures NoDots(Split(ReadBack(t).path, '/'))
  {
    if HierarchyParts(t.authority, t.path) {
      CutsHierarchy(t.authority, t.path);
    } else {
      assert Hierarchy(t.authority, t.path) == t.path;
      CutHasNoDots(t.path);
    }
  }

  lemma TargetPathDots(base: BaseUri, r: Reference)
    requires base.scheme.Some?
    ensures var t, inherits := Transform(base, r), r.scheme.None? && r.authority.None? && r.path == "";
            if inherits then t.path == base.path && t.authority == base.authority else NoDots(Split(t.path, '/'))
  {
    NoDotsLeft(r.path);
    NoDotsLeft(MergePaths(base.path, r.path, base.authority.Some?));
  }

  lemma LeadAfter(front: string, s: string, sep: char)
    requires sep !in front
    ensures Lead(front + s, sep) == front + Lead(s, sep)
  {
    if SplitOnce(s, sep).Some? {
      var (head, tail) := SplitOnce(s, sep).value;
      assert front + s == (front + head) + [sep] + tail;
      SplitOnceConcat(front + head, tail, sep);
    }
  }

  /** A text that opens with a scheme and a colon has that scheme. */
  lemma SchemeIsRead(scheme: string, rest: string)
    requires IsScheme(scheme)
    ensures Parse(scheme + ":" + rest).scheme == Some(scheme)
  {
    var front := scheme + ":";
    LeadAfter(front, rest, '#');
    LeadAfter(front, Lead(rest, '#'), '?');
    ExtractsTheScheme(front + Lead(Lead(rest, '#'), '?'), scheme, Lead(Lead(rest, '#'), '?'));
  }

  /** Resolving a text with a scheme makes it no longer. */
  lemma ResolvingShortens(base: BaseUri, r: Reference)
    requires base.scheme.Some? && r.scheme.Some? && HierarchyParts(r.authority, r.path)
    ensures |Text(Rooted(Transform(base, r)))| <= |Text(r)|
  {
    TransformedAgain(base, r);
    NeverLonger(r.path);
  }

  lemma {:induction false} TrimRightKeepsStart(s: string, front: string)
    requires front <= s && front != "" && !IsSpace(front[|front| - 1])
    ensures front <= TrimRight(s)
  {
    if IsSpace(s[|s| - 1]) {
      assert s != front;
      TrimRightKeepsStart(s[..|s| - 1], front);
    }
  }

  lemma TrimShortens(s: string, front: string)
    requires front <= s && front != "" && !IsSpace(front[0]) && !IsSpace(front[|front| - 1]) && !EndsWell(s)
    ensures front <= Trim(s) && |Trim(s)| < |s|
  {
    assert TrimLeft(s) == s;
    TrimRightKeepsStart(s, front);
  }

  /** White space at the end of a URL is lost when it is resolved again. */
  lemma SpaceIsLost(base: BaseUri, t: Reference)
    requires base.scheme.Some? && Cuttable(t) && !EndsWell(Text(t))
    ensures Redirected(base, Text(t)) != Success(Text(t))
  {
    var text, front := Text(t), t.scheme.value + ":";
    var trimmed := Trim(text);
    TextOpens(t);
    TrimShortens(text, front);
    assert Parse(trimmed).scheme.Some? by {
      assert trimmed == t.scheme.value + ":" + trimmed[|front|..];
      SchemeIsRead(t.scheme.value, trimmed[|front|..]);
    }
    assert |Text(Rooted(Transform(base, Parse(trimmed))))| <= |trimmed| by {
      ParseGivesText(trimmed);
      ResolvingShortens(base, Parse(trimmed));
    }
  }

  /** Resolving a redirect gives a URL that resolves to itself against any base, exactly unless the
      location left the path to the base and the base's path has dot segments, or the location is
      empty and the base ends in white space. */
  lemma RedirectsAreFixedPoints(base: BaseUri, location: string, anyBase: BaseUri)
    requires ValidBase(base) && anyBase.scheme.Some?
    ensures var url := Redirected(base, location);
            && url.Success?
            && (Redirected(anyBase, url.value) == url <==>
                  (!InheritsPath(location) || NoDots(Split(base.path, '/'))) && !InheritsSpace(base, location))
  {
    var trimmed := Trim(location);
    var r := Parse(trimmed);
    var t := Transform(base, r);
    TargetIsCuttable(base, trimmed);
    TrimEndsWell(location);
    TargetEndsWell(base, trimmed);
    assert Redirected(base, location) == Success(Text(t));
    if InheritsSpace(base, location) {
      SpaceIsLost(anyBase, t);
    } else {
      ResolvedAgain(anyBase, t);
      DotsOfTarget(base, location);
    }
  }

  lemma DotsOfTarget(base: BaseUri, location: string)
    requires ValidBase(base)
    ensures var t := Transform(base, Parse(Trim(location)));
            NoDots(Split(ReadBack(t).path, '/')) <==> !InheritsPath(location) || NoDots(Split(base.path, '/'))
  {
    var r := Parse(Trim(location));
    TargetIsCuttable(base, Trim(location));
    TargetPathDots(base, r);
    if InheritsPath(location) {
      CutsHierarchy(base.authority, base.path);
    } else {
      ReadBackHasNoDots(Transform(base, r));
    }
  }

  // ----- Inputs that are not fixed points -----

  lemma EmptyLocationInherits(base: BaseUri)
    requires ValidBase(base)
    ensures Trim("") == "" && InheritsPath("")
    ensures Redirected(base, "") == Success(Text(AsReference(base)))
  {
    EmptyLocation("");
    TargetIsCuttable(base, "");
  }

  lemma PathHasDots()
    ensures !NoDots(Split("/a/../b", '/'))
  {
    assert "/a/../b" == "/a" + "/" + "../b" && "../b" == ".." + "/" + "b";
    SplitConcat("/a", "../b", '/');
    SplitAfterSlash("..", "b");
    NoDotsConcat(Split("/a", '/'), Split("../b", '/'));
    assert IsDot(Split("../b", '/')[0]);
  }

  /** Redirected to nowhere from `http://h/a/../b`, the dots stay; resolving once more drops them. */
  lemma InheritedDotsStay(anyBase: BaseUri)
    requires anyBase.scheme.Some?
    ensures var base := BaseUri(Some("http"), Some("h"), "/a/../b", None);
            && ValidBase(base)
            && Redirected(base, "") == Success(Text(AsReference(base)))
            && Redirected(anyBase, Text(AsReference(base))) != Redirected(base, "")
  {
    var base := BaseUri(Some("http"), Some("h"), "/a/../b", None);
    assert ValidBase(base);
    PathHasDots();
    EmptyLocationInherits(base);
    RedirectsAreFixedPoints(base, "", anyBase);
  }

  /** White space outside ASCII, which a URI's path may end in, is trimmed the second time. */
  lemma InheritedSpaceIsTrimmed(anyBase: BaseUri)
    requires anyBase.scheme.Some?
    ensures var base := BaseUri(Some("http"), Some("h"), "/\U{3000}", None);
            && ValidBase(base)
            && Redirected(base, "") == Success(Text(AsReference(base)))
            && Redirected(anyBase, Text(AsReference(base))) != Redirected(base, "")
  {
    var base := BaseUri(Some("http"), Some("h"), "/\U{3000}", None);
    assert ValidBase(base);
    EmptyLocationInherits(base);
    EndOfText(AsReference(base));
    EndOfHead(AsReference(base));
    RedirectsAreFixedPoints(base, "", anyBase);
  }
}
