/** Reasoning text wrapped before an answer, so that it can be taken off again. */
module Reasoning {
  import opened Wrappers
  import opened Strings
  import opened Conversation

  // ----- Escaping -----

  function EscapedChar(c: char): string {
    if c == '&' then "&amp;" else if c == '<' then "&lt;" else if c == '>' then "&gt;" else [c]
  }

  function Escaped(s: string): string {
    if s == "" then "" else EscapedChar(s[0]) + Escaped(s[1..])
  }

  lemma OneCharReplaced(x: char, c: char, text: string)
    ensures Replace([x], c, text) == if x == c then text else [x]
  {
    assert [x][1..] == "";
  }

  /** One character through the three replacements. */
  lemma EscapesChar(x: char)
    ensures EscapeReasoning([x]) == EscapedChar(x)
  {
    OneCharReplaced(x, '&', "&amp;");
    if x == '&' {
      ReplaceNone("&amp;", '<', "&lt;");
      ReplaceNone("&amp;", '>', "&gt;");
    } else {
      OneCharReplaced(x, '<', "&lt;");
      if x == '<' {
        ReplaceNone("&lt;", '>', "&gt;");
      } else {
        OneCharReplaced(x, '>', "&gt;");
      }
    }
  }

  lemma EscapesConcat(a: string, b: string)
    ensures EscapeReasoning(a + b) == EscapeReasoning(a) + EscapeReasoning(b)
  {
    ReplaceConcat(a, b, '&', "&amp;");
    ReplaceConcat(Replace(a, '&', "&amp;"), Replace(b, '&', "&amp;"), '<', "&lt;");
    ReplaceConcat(Replace(Replace(a, '&', "&amp;"), '<', "&lt;"), Replace(Replace(b, '&', "&amp;"), '<', "&lt;"),
                '>', "&gt;");
  }

  /** The three replacements, one after the other, escape each character by itself. */
  lemma {:induction false} EscapesEachChar(s: string)
    ensures EscapeReasoning(s) == Escaped(s)
  {
    if s != "" {
      assert s == [s[0]] + s[1..];
      EscapesConcat([s[0]], s[1..]);
      EscapesChar(s[0]);
      EscapesEachChar(s[1..]);
    }
  }

  lemma {:induction false} EscapedHasNoMarkup(s: string)
    ensures '<' !in Escaped(s) && '>' !in Escaped(s)
  {
    if s != "" {
      EscapedHasNoMarkup(s[1..]);
    }
  }

  /** Different reasoning stays different: what a character was escaped to can be told from what follows. */
  lemma {:induction false} EscapedIsInjective(a: string, b: string)
    requires Escaped(a) == Escaped(b)
    ensures a == b
  {
    if a != "" && b != "" {
      var x, y := EscapedChar(a[0]), EscapedChar(b[0]);
      FirstIsTold(a[0], b[0], Escaped(a[1..]), Escaped(b[1..]));
      assert Escaped(a)[|x|..] == Escaped(a[1..]) && Escaped(b)[|y|..] == Escaped(b[1..]);
      EscapedIsInjective(a[1..], b[1..]);
      assert a == [a[0]] + a[1..] && b == [b[0]] + b[1..];
    }
  }

  lemma FirstIsTold(x: char, y: char, rest: string, other: string)
    requires EscapedChar(x) + rest == EscapedChar(y) + other
    ensures x == y
  {
    var s, t := EscapedChar(x) + rest, EscapedChar(y) + other;
    assert s[0] == t[0];
    if x in {'&', '<', '>'} && y in {'&', '<', '>'} {
      assert s[1] == t[1];
    }
  }

  // ----- Taking the reasoning off -----

  /** The text after the first occurrence of a tag. */
  function AfterTag(text: string, tag: string): Option<string> {
    if tag <= text then Some(text[|tag|..])
    else if text == "" then None
    else AfterTag(text[1..], tag)
  }

  /** `strip_reasoning`. */
  function StripReasoning(content: string): string {
    var rest :=
      if "<think>" <= content then AfterTag(content[7..], "</think>")
      else if "<think data-escaped>" <= content then AfterTag(content[20..], "</think>")
      else None;
    match rest
    case Some(answer) => answer
    case None => content
  }

  lemma {:induction false} TagIsFound(reasoning: string, answer: string)
    requires '<' !in reasoning
    ensures AfterTag(reasoning + ("</think>" + answer), "</think>") == Some(answer)
  {
    var text := reasoning + ("</think>" + answer);
    if reasoning == "" {
      assert text == "</think>" + answer && text[8..] == answer;
    } else {
      assert text[0] == reasoning[0] && text[1..] == reasoning[1..] + ("</think>" + answer);
      assert !("</think>" <= text);
      TagIsFound(reasoning[1..], answer);
    }
  }

  /** Whatever the reasoning, what follows it is the answer; without reasoning nothing is put before it. */
  lemma AnswerComesBack(reasoning: string, answer: string)
    ensures reasoning != "" ==> StripReasoning(WithReasoning(reasoning, answer)) == answer
    ensures WithReasoning("", answer) == answer
  {
    if reasoning == "" {
    } else if '&' in reasoning || '<' in reasoning || '>' in reasoning {
      EscapesEachChar(reasoning);
      EscapedHasNoMarkup(reasoning);
      EscapedIsStripped(Escaped(reasoning), answer);
    } else {
      PlainIsStripped(reasoning, answer);
    }
  }

  lemma EscapedIsStripped(escaped: string, answer: string)
    requires '<' !in escaped
    ensures StripReasoning("<think data-escaped>" + escaped + "</think>" + answer) == answer
  {
    var content := "<think data-escaped>" + escaped + "</think>" + answer;
    assert content[6] == ' ';
    assert content[20..] == escaped + ("</think>" + answer);
    TagIsFound(escaped, answer);
  }

  lemma PlainIsStripped(plain: string, answer: string)
    requires '<' !in plain
    ensures StripReasoning("<think>" + plain + "</think>" + answer) == answer
  {
    var content := "<think>" + plain + "</think>" + answer;
    assert content[7..] == plain + ("</think>" + answer);
    TagIsFound(plain, answer);
  }
}
