/** The string operations of the source language's standard library that the models use:
    `split(c)`, `join`, `split_once(c)`, `trim_end_matches(c)` and the prefix tests. */
module Strings {
  import opened Wrappers

  predicate StartsWith(s: string, c: char) {
    s != "" && s[0] == c
  }

  /** `s.split(sep)`: always at least one part. */
  function Split(s: string, sep: char): (parts: seq<string>)
    ensures |parts| >= 1
  {
    if s == "" then [""]
    else
      var rest := Split(s[1..], sep);
      if s[0] == sep then [""] + rest else [[s[0]] + rest[0]] + rest[1..]
  }

  /** `parts.join(sep)`. */
  function Join(parts: seq<string>, sep: char): string {
    if parts == [] then ""
    else if |parts| == 1 then parts[0]
    else parts[0] + [sep] + Join(parts[1..], sep)
  }

  predicate NoneHas(parts: seq<string>, c: char) {
    forall i :: 0 <= i < |parts| ==> c !in parts[i]
  }

  lemma {:induction false} SplitParts(s: string, sep: char)
    ensures NoneHas(Split(s, sep), sep)
  {
    if s != "" {
      SplitParts(s[1..], sep);
    }
  }

  lemma {:induction false} SplitHasNo(s: string, c: char)
    requires c !in s
    ensures NoneHas(Split(s, '/'), c)
  {
    if s != "" {
      SplitHasNo(s[1..], c);
    }
  }

  lemma {:induction false} JoinHasNo(parts: seq<string>, sep: char, c: char)
    requires NoneHas(parts, c) && c != sep
    ensures c !in Join(parts, sep)
  {
    if |parts| > 1 {
      JoinHasNo(parts[1..], sep, c);
    }
  }

  lemma JoinAfter(first: string, rest: seq<string>, sep: char)
    requires rest != []
    ensures Join([first] + rest, sep) == first + [sep] + Join(rest, sep)
  {
    assert ([first] + rest)[1..] == rest;
  }

  lemma JoinGrows(c: char, parts: seq<string>, sep: char)
    requires parts != []
    ensures Join([[c] + parts[0]] + parts[1..], sep) == [c] + Join(parts, sep)
  {
    var rest := parts[1..];
    if rest != [] {
      JoinAfter([c] + parts[0], rest, sep);
      assert parts == [parts[0]] + rest;
      JoinAfter(parts[0], rest, sep);
      assert ([c] + parts[0]) + [sep] + Join(rest, sep) == [c] + (parts[0] + [sep] + Join(rest, sep));
    }
  }

  lemma {:induction false} JoinSplit(s: string, sep: char)
    ensures Join(Split(s, sep), sep) == s
  {
    if s != "" {
      var rest := Split(s[1..], sep);
      JoinSplit(s[1..], sep);
      if s[0] == sep {
        JoinAfter("", rest, sep);
      } else {
        JoinGrows(s[0], rest, sep);
      }
    }
  }

  lemma {:induction false} SplitPrepend(word: string, s: string, sep: char)
    requires sep !in word
    ensures Split(word + s, sep) == [word + Split(s, sep)[0]] + Split(s, sep)[1..]
  {
    if word == "" {
      assert word + s == s;
      assert "" + Split(s, sep)[0] == Split(s, sep)[0];
    } else {
      assert (word + s)[1..] == word[1..] + s && (word + s)[0] == word[0];
      SplitPrepend(word[1..], s, sep);
      assert [word[0]] + (word[1..] + Split(s, sep)[0]) == word + Split(s, sep)[0];
    }
  }

  lemma SplitNext(c: char, s: string, sep: char)
    ensures Split([c] + s, sep)
            == if c == sep then [""] + Split(s, sep) else [[c] + Split(s, sep)[0]] + Split(s, sep)[1..]
  {
    assert ([c] + s)[1..] == s;
  }

  lemma Prepended(p: seq<string>, x: seq<string>, y: seq<string>)
    ensures p + (x + y) == (p + x) + y
    ensures x != [] ==> (x + y)[1..] == x[1..] + y && (x + y)[0] == x[0]
  {
  }

  /** One character before a text that has been split. */
  lemma SplitStep(c: char, whole: string, front: string, more: seq<string>, sep: char)
    requires Split(whole, sep) == Split(front, sep) + more
    ensures Split([c] + whole, sep) == Split([c] + front, sep) + more
  {
    var x := Split(front, sep);
    SplitNext(c, whole, sep);
    SplitNext(c, front, sep);
    Prepended([""], x, more);
    Prepended([[c] + x[0]], x[1..], more);
  }

  /** Splitting at a separator splits both sides. */
  lemma {:induction false} SplitConcat(a: string, b: string, sep: char)
    ensures Split(a + [sep] + b, sep) == Split(a, sep) + Split(b, sep)
  {
    if a == "" {
      assert a + [sep] + b == [sep] + b;
      SplitNext(sep, b, sep);
    } else {
      SplitConcat(a[1..], b, sep);
      SplitStep(a[0], a[1..] + [sep] + b, a[1..], Split(b, sep), sep);
      assert [a[0]] + a[1..] == a;
      assert [a[0]] + (a[1..] + [sep] + b) == a + [sep] + b;
    }
  }

  lemma {:induction false} SplitWord(word: string, sep: char)
    requires sep !in word
    ensures Split(word, sep) == [word]
  {
    SplitPrepend(word, "", sep);
    assert word + "" == word;
  }

  lemma {:induction false} SplitJoin(parts: seq<string>, sep: char)
    requires |parts| >= 1
    requires NoneHas(parts, sep)
    ensures Split(Join(parts, sep), sep) == parts
  {
    SplitWord(parts[0], sep);
    if |parts| > 1 {
      SplitJoin(parts[1..], sep);
      SplitConcat(parts[0], Join(parts[1..], sep), sep);
    }
  }

  lemma {:induction false} JoinConcat(xs: seq<string>, ys: seq<string>, sep: char)
    requires xs != [] && ys != []
    ensures Join(xs + ys, sep) == Join(xs, sep) + [sep] + Join(ys, sep)
  {
    if |xs| == 1 {
      assert (xs + ys)[1..] == ys;
    } else {
      assert (xs + ys)[1..] == xs[1..] + ys;
      JoinConcat(xs[1..], ys, sep);
    }
  }

  /** `s.split_once(sep)`: cut at the first separator. */
  function SplitOnce(s: string, sep: char): (cut: Option<(string, string)>)
    ensures cut.None? <==> sep !in s
    ensures cut.Some? ==> sep !in cut.value.0 && s == cut.value.0 + [sep] + cut.value.1
  {
    if s == "" then None
    else if s[0] == sep then Some(("", s[1..]))
    else
      match SplitOnce(s[1..], sep)
      case None => None
      case Some((head, tail)) =>
        assert s == [s[0]] + s[1..];
        Some(([s[0]] + head, tail))
  }

  lemma {:induction false} SplitOnceConcat(head: string, tail: string, sep: char)
    requires sep !in head
    ensures SplitOnce(head + [sep] + tail, sep) == Some((head, tail))
  {
    if head == "" {
      assert (head + [sep] + tail)[1..] == tail;
    } else {
      assert (head + [sep] + tail)[1..] == head[1..] + [sep] + tail && (head + [sep] + tail)[0] == head[0];
      SplitOnceConcat(head[1..], tail, sep);
      assert [head[0]] + head[1..] == head;
    }
  }

  /** `s.trim_end_matches(c)`. */
  function TrimEnd(s: string, c: char): (t: string)
    ensures t <= s
    ensures t == "" || t[|t| - 1] != c
    ensures forall i :: |t| <= i < |s| ==> s[i] == c
  {
    if s != "" && s[|s| - 1] == c then TrimEnd(s[..|s| - 1], c) else s
  }

  /** `s.trim_start_matches(c)`. */
  function TrimStart(s: string, c: char): string {
    if StartsWith(s, c) then TrimStart(s[1..], c) else s
  }

  /** `s.replace(c, text)`. */
  function Replace(s: string, c: char, text: string): string {
    if s == "" then "" else (if s[0] == c then text else [s[0]]) + Replace(s[1..], c, text)
  }

  lemma {:induction false} ReplaceNone(s: string, c: char, text: string)
    requires c !in s
    ensures Replace(s, c, text) == s
  {
    if s != "" {
      ReplaceNone(s[1..], c, text);
    }
  }

  lemma {:induction false} Replaced(s: string, c: char, text: string)
    requires c !in text
    ensures c !in Replace(s, c, text)
  {
    if s != "" {
      Replaced(s[1..], c, text);
    }
  }

  lemma {:induction false} ReplaceConcat(a: string, b: string, c: char, text: string)
    ensures Replace(a + b, c, text) == Replace(a, c, text) + Replace(b, c, text)
  {
    if a == "" {
      assert a + b == b;
    } else {
      assert (a + b)[1..] == a[1..] + b;
      ReplaceConcat(a[1..], b, c, text);
    }
  }

  /** White space as `str::trim` knows it. */
  predicate IsSpace(c: char) {
    var n := c as int;
    || 0x9 <= n <= 0xD || n == 0x20 || n == 0x85 || n == 0xA0 || n == 0x1680 || 0x2000 <= n <= 0x200A
    || n == 0x2028 || n == 0x2029 || n == 0x202F || n == 0x205F || n == 0x3000
  }

  function TrimLeft(s: string): (t: string)
    ensures t == "" || !IsSpace(t[0])
  {
    if s != "" && IsSpace(s[0]) then TrimLeft(s[1..]) else s
  }

  function TrimRight(s: string): (t: string)
    ensures t <= s
    ensures t == "" || !IsSpace(t[|t| - 1])
  {
    if s != "" && IsSpace(s[|s| - 1]) then TrimRight(s[..|s| - 1]) else s
  }

  function Trim(s: string): string {
    TrimRight(TrimLeft(s))
  }
}
