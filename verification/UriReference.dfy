/** References as section 4.1 of RFC 3986 writes them: cutting a text into its five components and
    putting them together again. */
module UriReference {
  import opened Collections
  import opened Wrappers
  import opened Strings

  datatype Reference = Reference(
    scheme: Option<string>, authority: Option<string>, path: string, query: Option<string>, fragment: Option<string>)

  predicate IsAlpha(c: char) {
    'a' <= c <= 'z' || 'A' <= c <= 'Z'
  }

  predicate IsSchemeChar(c: char) {
    IsAlpha(c) || '0' <= c <= '9' || c == '+' || c == '-' || c == '.'
  }

  /** The scheme grammar of section 3.1. */
  predicate IsScheme(s: string) {
    s != "" && IsAlpha(s[0]) && forall i :: 0 <= i < |s| ==> IsSchemeChar(s[i])
  }

  /** `extract_scheme`: the part before the first colon, unless a slash comes first. */
  function ExtractScheme(s: string): Option<(string, string)> {
    var (scheme, rest) :- SplitOnce(s, ':');
    if '/' in scheme || !IsScheme(scheme) then None else Some((scheme, rest))
  }

  /** `extract_scheme` finds a scheme exactly where section 3.1 has one. */
  lemma ExtractsTheScheme(s: string, scheme: string, rest: string)
    ensures ExtractScheme(s) == Some((scheme, rest)) <==> IsScheme(scheme) && s == scheme + ":" + rest
  {
    if IsScheme(scheme) && s == scheme + ":" + rest {
      assert ':' !in scheme && '/' !in scheme;
      SplitOnceConcat(scheme, rest, ':');
    }
  }

  /** The text up to the first slash, and from it on. */
  function UpToSlash(s: string): (cut: (string, string))
    ensures s == cut.0 + cut.1 && '/' !in cut.0
    ensures cut.1 == "" || StartsWith(cut.1, '/')
  {
    match SplitOnce(s, '/')
    case None => (s, "")
    case Some((head, tail)) => (head, "/" + tail)
  }

  function Lead(s: string, sep: char): string {
    match SplitOnce(s, sep)
    case None => s
    case Some((head, _)) => head
  }

  function Trail(s: string, sep: char): Option<string> {
    match SplitOnce(s, sep)
    case None => None
    case Some((_, tail)) => Some(tail)
  }

  function SchemeOf(s: string): Option<string> {
    match ExtractScheme(s)
    case None => None
    case Some((scheme, _)) => Some(scheme)
  }

  function AfterScheme(s: string): string {
    match ExtractScheme(s)
    case None => s
    case Some((_, rest)) => rest
  }

  function AuthorityOf(s: string): Option<string> {
    if "//" <= s then Some(UpToSlash(s[2..]).0) else None
  }

  function AfterAuthority(s: string): string {
    if "//" <= s then UpToSlash(s[2..]).1 else s
  }

  function Parse(text: string): Reference {
    var head := Lead(Lead(text, '#'), '?');
    var rest := AfterScheme(head);
    Reference(SchemeOf(head), AuthorityOf(rest), AfterAuthority(rest), Trail(Lead(text, '#'), '?'), Trail(text, '#'))
  }

  // ----- Putting the components together -----

  function Optional(prefix: string, part: Option<string>): string {
    match part
    case None => ""
    case Some(text) => prefix + text
  }

  function SchemeText(scheme: Option<string>): string {
    match scheme
    case None => ""
    case Some(text) => text + ":"
  }

  function Hierarchy(authority: Option<string>, path: string): string {
    Optional("//", authority) + path
  }

  function Head(r: Reference): string {
    SchemeText(r.scheme) + Hierarchy(r.authority, r.path)
  }

  /** Section 5.3. */
  function Text(r: Reference): string {
    Head(r) + Optional("?", r.query) + Optional("#", r.fragment)
  }


  /** The authority and path the hierarchical part is cut into. */
  predicate HierarchyParts(authority: Option<string>, path: string) {
    match authority
    case None => !("//" <= path)
    case Some(a) => '/' !in a && (path == "" || StartsWith(path, '/'))
  }

  /** Components that are read back as they are. */
  predicate Parts(r: Reference) {
    && HierarchyParts(r.authority, r.path)
    && (match r.scheme
        case None => ExtractScheme(Hierarchy(r.authority, r.path)).None?
        case Some(scheme) => IsScheme(scheme))
    && '#' !in Head(r) && '?' !in Head(r)
    && (r.query.Some? ==> '#' !in r.query.value)
  }

  lemma CutsLead(head: string, tail: Option<string>, sep: char)
    requires sep !in head
    ensures Lead(head + Optional([sep], tail), sep) == head
    ensures Trail(head + Optional([sep], tail), sep) == tail
  {
    if tail.Some? {
      assert head + Optional([sep], tail) == head + [sep] + tail.value;
      SplitOnceConcat(head, tail.value, sep);
    } else {
      assert head + Optional([sep], tail) == head;
    }
  }

  lemma LeadAndTrail(s: string, sep: char)
    ensures s == Lead(s, sep) + Optional([sep], Trail(s, sep)) && sep !in Lead(s, sep)
  {
    if SplitOnce(s, sep).None? {
      assert s + "" == s;
    } else {
      var (head, tail) := SplitOnce(s, sep).value;
      assert head + [sep] + tail == head + ([sep] + tail);
    }
  }

  lemma CutsHierarchy(authority: Option<string>, path: string)
    requires HierarchyParts(authority, path)
    ensures AuthorityOf(Hierarchy(authority, path)) == authority
    ensures AfterAuthority(Hierarchy(authority, path)) == path
  {
    var s := Hierarchy(authority, path);
    match authority {
      case None => assert s == path;
      case Some(a) =>
        assert "//" <= s && s[2..] == a + path;
        if path == "" {
          assert a + path == a;
        } else {
          assert a + path == a + ['/'] + path[1..];
          SplitOnceConcat(a, path[1..], '/');
        }
    }
  }

  lemma HierarchyOf(s: string)
    ensures HierarchyParts(AuthorityOf(s), AfterAuthority(s))
    ensures Hierarchy(AuthorityOf(s), AfterAuthority(s)) == s
  {
    if "//" <= s {
      var cut := UpToSlash(s[2..]);
      assert s == "//" + (cut.0 + cut.1);
      Regroup("//", cut.0, cut.1);
      assert Hierarchy(Some(cut.0), cut.1) == ("//" + cut.0) + cut.1;
    } else {
      assert Hierarchy(None, s) == "" + s == s;
    }
  }

  lemma CutsHead(r: Reference)
    requires HierarchyParts(r.authority, r.path)
    requires match r.scheme
             case None => ExtractScheme(Hierarchy(r.authority, r.path)).None?
             case Some(scheme) => IsScheme(scheme)
    ensures SchemeOf(Head(r)) == r.scheme
    ensures AfterScheme(Head(r)) == Hierarchy(r.authority, r.path)
  {
    var hierarchy := Hierarchy(r.authority, r.path);
    match r.scheme {
      case None => assert Head(r) == hierarchy;
      case Some(scheme) => ExtractsTheScheme(Head(r), scheme, hierarchy);
    }
  }

  /** Components that can be read back are read back. */
  lemma ParsesText(r: Reference)
    requires Parts(r)
    ensures Parse(Text(r)) == r
  {
    var head, query := Head(r), Optional("?", r.query);
    assert '#' !in head + query;
    CutsLead(head + query, r.fragment, '#');
    CutsLead(head, r.query, '?');
    CutsHead(r);
    CutsHierarchy(r.authority, r.path);
  }

  lemma HeadOfParse(text: string)
    ensures Head(Parse(text)) == Lead(Lead(text, '#'), '?')
    ensures HierarchyParts(Parse(text).authority, Parse(text).path)
    ensures Hierarchy(Parse(text).authority, Parse(text).path) == AfterScheme(Lead(Lead(text, '#'), '?'))
  {
    var head := Lead(Lead(text, '#'), '?');
    HierarchyOf(AfterScheme(head));
    if ExtractScheme(head).Some? {
      var (scheme, rest) := ExtractScheme(head).value;
      ExtractsTheScheme(head, scheme, rest);
    } else {
      assert "" + head == head;
    }
  }

  /** Cutting a text gives components that make it up again. */
  lemma ParseGivesText(text: string)
    ensures Parts(Parse(text)) && Text(Parse(text)) == text
  {
    LeadAndTrail(text, '#');
    LeadAndTrail(Lead(text, '#'), '?');
    HeadOfParse(text);
    var r, head := Parse(text), Lead(Lead(text, '#'), '?');
    assert '#' !in head;
    if r.scheme.Some? {
      ExtractsTheScheme(head, r.scheme.value, AfterScheme(head));
    }
  }

  /** Cutting and putting together are inverse to each other. */
  lemma ParseInverts(text: string, r: Reference)
    ensures Parse(text) == r <==> Parts(r) && Text(r) == text
  {
    ParseGivesText(text);
    if Parts(r) {
      ParsesText(r);
    }
  }
}
