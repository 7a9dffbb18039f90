/** `remove_dot_segments`: the string-rewriting loop of section 5.2.4 of RFC 3986, against a
    specification that splits the path, works off the dot segments on a stack and joins it again. */
module DotSegments {
  import opened Collections
  import opened Strings

  predicate IsDot(segment: string) {
    segment == "." || segment == ".."
  }

  predicate NoDots(segments: seq<string>) {
    forall i :: 0 <= i < |segments| ==> !IsDot(segments[i])
  }

  // ----- Split, stack, join -----

  function Pop(stack: seq<string>): seq<string> {
    if stack == [] then [] else stack[..|stack| - 1]
  }

  /** The stack after segments that each follow a slash. A final dot segment leaves its slash. */
  function Worked(segments: seq<string>, stack: seq<string>): seq<string> {
    if segments == [] then stack
    else if segments[0] == "." then
      if |segments| == 1 then stack + ["/"] else Worked(segments[1..], stack)
    else if segments[0] == ".." then
      if |segments| == 1 then Pop(stack) + ["/"] else Worked(segments[1..], Pop(stack))
    else Worked(segments[1..], stack + ["/" + segments[0]])
  }

  /** The stack after a whole path: dot segments it opens with vanish with their slash. */
  function Stacked(segments: seq<string>, stack: seq<string>): seq<string> {
    if segments == [] then stack
    else if IsDot(segments[0]) then
      if |segments| == 1 then stack else Stacked(segments[1..], stack)
    else if segments[0] == "" then Worked(segments[1..], stack)
    else Worked(segments[1..], stack + [segments[0]])
  }

  function Concat(stack: seq<string>): string {
    if stack == [] then "" else Concat(stack[..|stack| - 1]) + stack[|stack| - 1]
  }

  function RemoveDots(path: string): string {
    Concat(Stacked(Split(path, '/'), []))
  }

  // ----- The loop -----

  /** Every pushed piece is a slash and a segment; only the first may lack the slash. */
  predicate Pieces(stack: seq<string>) {
    forall i :: 0 <= i < |stack| ==>
      if StartsWith(stack[i], '/') then '/' !in stack[i][1..] else i == 0 && stack[i] != "" && '/' !in stack[i]
  }

  /** `rfind('/')` then `truncate`, or `clear`. */
  method PopLastSegment(output: string, ghost stack: seq<string>) returns (shorter: string)
    requires Pieces(stack) && output == Concat(stack)
    ensures shorter == Concat(Pop(stack))
  {
    var pos: nat := |output|;
    while pos > 0 && output[pos - 1] != '/'
      invariant 0 <= pos <= |output|
      invariant '/' !in output[pos..]
    {
      pos := pos - 1;
      assert output[pos..] == [output[pos]] + output[pos + 1..];
    }
    LastSlash(stack, pos);
    if pos > 0 {
      shorter := output[..pos - 1];
    } else {
      shorter := "";
    }
  }

  lemma SlashOpens(front: string, last: string, pos: nat)
    requires StartsWith(last, '/') && '/' !in last[1..]
    requires pos <= |front + last| && '/' !in (front + last)[pos..]
    requires pos > 0 ==> (front + last)[pos - 1] == '/'
    ensures pos == |front| + 1
  {
    var output := front + last;
    assert output[|front|] == '/';
    assert forall i :: pos <= i < |output| ==> output[i] == output[pos..][i - pos];
    assert forall i :: |front| < i < |output| ==> output[i] == last[1..][i - |front| - 1];
  }

  /** The last slash of the output opens the last piece. */
  lemma LastSlash(stack: seq<string>, pos: nat)
    requires Pieces(stack) && pos <= |Concat(stack)| && '/' !in Concat(stack)[pos..]
    requires pos > 0 ==> Concat(stack)[pos - 1] == '/'
    ensures Concat(Pop(stack)) == if pos > 0 then Concat(stack)[..pos - 1] else ""
  {
    if stack != [] {
      var front, last := Concat(Pop(stack)), stack[|stack| - 1];
      if StartsWith(last, '/') {
        SlashOpens(front, last, pos);
        assert (front + last)[..|front|] == front;
      } else {
        assert front == "" && front + last == last;
        assert forall i :: 0 <= i < |last| ==> last[i] in last;
      }
    }
  }

  lemma SplitAfterSlash(head: string, rest: string)
    requires '/' !in head
    ensures Split(head + "/" + rest, '/') == [head] + Split(rest, '/')
  {
    SplitConcat(head, rest, '/');
    SplitWord(head, '/');
  }

  predicate Prefixed(s: string, prefix: string) {
    prefix <= s
  }

  /** The loop's state: the pieces moved to the output, what is left, and where it all leads. */
  predicate Leads(input: string, output: string, stack: seq<string>, goal: seq<string>) {
    && Pieces(stack) && output == Concat(stack)
    && (input != "" && !StartsWith(input, '/') ==> stack == [])
    && Stacked(Split(input, '/'), stack) == goal
  }

  method RemoveDotSegments(path: string) returns (output: string)
    ensures output == RemoveDots(path)
  {
    var input := path;
    output := "";
    ghost var stack: seq<string> := [];
    ghost var goal := Stacked(Split(path, '/'), []);
    while input != ""
      invariant Leads(input, output, stack, goal)
      decreases |input|
    {
      var rewritten;
      rewritten, input, output, stack := RewriteDots(input, output, stack, goal);
      if !rewritten {
        input, output, stack := PushSegment(input, output, stack, goal);
      }
    }
    NothingLeft(output, stack, goal);
  }

  lemma NothingLeft(output: string, stack: seq<string>, goal: seq<string>)
    requires Leads("", output, stack, goal)
    ensures output == Concat(goal)
  {
    StackedRoot([], stack);
    assert [""] + [] == [""];
  }

  /** The branch that moves a segment to the output. */
  method PushSegment(input: string, output: string, ghost stack: seq<string>, ghost goal: seq<string>)
    returns (input': string, output': string, ghost stack': seq<string>)
    requires Leads(input, output, stack, goal) && input != "" && !OpensWithDots(input)
    ensures Leads(input', output', stack', goal) && |input'| < |input|
  {
    var end := SegmentEnd(input);
    NextSegment(input, end, stack);
    stack' := stack + [input[..end]];
    output' := output + input[..end];
    input' := input[end..];
  }

  predicate OpensWithDots(input: string) {
    || Prefixed(input, "../") || Prefixed(input, "./") || Prefixed(input, "/./") || Prefixed(input, "/../")
    || input == "/." || input == "/.." || input == "." || input == ".."
  }

  /** The branches that rewrite dot segments at the head of the input. */
  method RewriteDots(input: string, output: string, ghost stack: seq<string>, ghost goal: seq<string>)
    returns (rewritten: bool, input': string, output': string, ghost stack': seq<string>)
    requires Leads(input, output, stack, goal)
    ensures Leads(input', output', stack', goal)
    ensures if rewritten then |input'| < |input| else input' == input && output' == output && stack' == stack
    ensures rewritten <==> OpensWithDots(input)
  {
    rewritten, input', output', stack' := true, input, output, stack;
    if Prefixed(input, "../") {
      LeadingDot("..", input, stack);
      input' := input[3..];
    } else if Prefixed(input, "./") {
      LeadingDot(".", input, stack);
      input' := input[2..];
    } else if input == "." || input == ".." {
      OnlyDot(input, stack);
      input' := "";
    } else {
      rewritten, input', output', stack' := RewriteRooted(input, output, stack, goal);
    }
  }

  /** The stack after a dot segment. */
  function AfterDot(dot: string, stack: seq<string>): seq<string> {
    if dot == "." then stack else Pop(stack)
  }

  /** Cutting a dot segment after a slash, or reading a final one as a slash, keeps where all leads. */
  lemma DotLeads(dot: string, input: string, output: string, stack: seq<string>, goal: seq<string>)
    requires IsDot(dot) && Leads(input, output, stack, goal)
    requires Prefixed(input, "/" + dot + "/") || input == "/" + dot
    ensures var input' := if input == "/" + dot then "/" else input[1 + |dot|..];
            Leads(input', Concat(AfterDot(dot, stack)), AfterDot(dot, stack), goal)
  {
    if input == "/" + dot {
      FinalDot(dot, stack);
    } else {
      RootedDot(dot, input, stack);
    }
  }

  /** The branches for a dot segment after a slash. */
  method RewriteRooted(input: string, output: string, ghost stack: seq<string>, ghost goal: seq<string>)
    returns (rewritten: bool, input': string, output': string, ghost stack': seq<string>)
    requires Leads(input, output, stack, goal)
    ensures Leads(input', output', stack', goal)
    ensures if rewritten then |input'| < |input| else input' == input && output' == output && stack' == stack
    ensures rewritten <==> Prefixed(input, "/./") || Prefixed(input, "/../") || input == "/." || input == "/.."
  {
    rewritten, input', output', stack' := true, input, output, stack;
    if Prefixed(input, "/./") {
      DotLeads(".", input, output, stack, goal);
      input' := input[2..];
    } else if input == "/." {
      DotLeads(".", input, output, stack, goal);
      input' := "/";
    } else if Prefixed(input, "/../") {
      DotLeads("..", input, output, stack, goal);
      input' := input[3..];
      output' := PopLastSegment(output, stack);
      stack' := Pop(stack);
    } else if input == "/.." {
      DotLeads("..", input, output, stack, goal);
      input' := "/";
      output' := PopLastSegment(output, stack);
      stack' := Pop(stack);
    } else {
      rewritten := false;
    }
  }

  /** The end of the first segment: the first slash after the opening one. */
  method SegmentEnd(input: string) returns (end: nat)
    requires input != ""
    ensures 0 < end <= |input|
    ensures '/' !in input[1..end]
    ensures end < |input| ==> input[end] == '/'
  {
    end := 1;
    while end < |input| && input[end] != '/'
      invariant end <= |input|
      invariant '/' !in input[1..end]
    {
      assert input[1..end + 1] == input[1..end] + [input[end]];
      end := end + 1;
    }
  }

  /** `../x` and `./x` become `x`. */
  lemma LeadingDot(dot: string, input: string, stack: seq<string>)
    requires IsDot(dot) && Prefixed(input, dot + "/")
    ensures Stacked(Split(input, '/'), stack) == Stacked(Split(input[|dot| + 1..], '/'), stack)
  {
    var rest := input[|dot| + 1..];
    assert input == dot + "/" + rest;
    SplitAfterSlash(dot, rest);
    assert ([dot] + Split(rest, '/'))[1..] == Split(rest, '/');
  }

  lemma WorkedFirst(segment: string, rest: seq<string>, stack: seq<string>)
    requires rest != []
    ensures Worked([segment] + rest, stack)
            == Worked(rest, if segment == "." then stack
                            else if segment == ".." then Pop(stack)
                            else stack + ["/" + segment])
  {
    assert ([segment] + rest)[1..] == rest;
  }

  lemma StackedRoot(rest: seq<string>, stack: seq<string>)
    ensures Stacked([""] + rest, stack) == Worked(rest, stack)
  {
    assert ([""] + rest)[1..] == rest;
  }

  /** `/./x` becomes `/x`; `/../x` becomes `/x` with the last piece popped. */
  lemma RootedDot(dot: string, input: string, stack: seq<string>)
    requires IsDot(dot) && Prefixed(input, "/" + dot + "/")
    ensures StartsWith(input[1 + |dot|..], '/')
    ensures Stacked(Split(input, '/'), stack)
            == Stacked(Split(input[1 + |dot|..], '/'), if dot == "." then stack else Pop(stack))
  {
    var rest := input[2 + |dot|..];
    var popped := if dot == "." then stack else Pop(stack);
    assert input == "" + "/" + (dot + "/" + rest);
    assert input[1 + |dot|..] == "" + "/" + rest;
    SplitAfterSlash("", dot + "/" + rest);
    SplitAfterSlash(dot, rest);
    SplitAfterSlash("", rest);
    StackedRoot([dot] + Split(rest, '/'), stack);
    WorkedFirst(dot, Split(rest, '/'), stack);
    StackedRoot(Split(rest, '/'), popped);
  }

  /** A lone dot segment vanishes. */
  lemma OnlyDot(dot: string, stack: seq<string>)
    requires IsDot(dot)
    ensures Stacked(Split(dot, '/'), stack) == Stacked(Split("", '/'), stack) == stack
  {
    SplitWord(dot, '/');
    StackedRoot([], stack);
    assert [""] + [] == [""];
  }

  /** `/.` and `/..` become `/`. */
  lemma FinalDot(dot: string, stack: seq<string>)
    requires IsDot(dot)
    ensures Stacked(Split("/" + dot, '/'), stack) == Stacked(Split("/", '/'), if dot == "." then stack else Pop(stack))
  {
    var popped := if dot == "." then stack else Pop(stack);
    assert "/" + dot == "" + "/" + dot && "/" == "" + "/" + "";
    SplitAfterSlash("", dot);
    SplitAfterSlash("", "");
    SplitWord(dot, '/');
    StackedRoot([dot], stack);
    StackedRoot([""], popped);
    assert Worked([""], popped) == Worked([], popped + ["/" + ""]);
    assert "/" + "" == "/";
  }

  /** Any other first segment is pushed as it stands. */
  lemma NextSegment(input: string, end: nat, stack: seq<string>)
    requires input != "" && 0 < end <= |input| && '/' !in input[1..end]
    requires end < |input| ==> input[end] == '/'
    requires !OpensWithDots(input)
    requires Pieces(stack) && (!StartsWith(input, '/') ==> stack == [])
    ensures Pieces(stack + [input[..end]])
    ensures Concat(stack + [input[..end]]) == Concat(stack) + input[..end]
    ensures Stacked(Split(input, '/'), stack) == Stacked(Split(input[end..], '/'), stack + [input[..end]])
  {
    var piece := input[..end];
    assert (stack + [piece])[..|stack|] == stack;
    assert piece[1..] == input[1..end];
    if StartsWith(input, '/') {
      NextRooted(input, end, stack);
    } else {
      assert piece == [input[0]] + input[1..end];
      NextRelative(input, end, stack);
    }
  }

  lemma NextRooted(input: string, end: nat, stack: seq<string>)
    requires StartsWith(input, '/') && 0 < end <= |input| && '/' !in input[1..end]
    requires end < |input| ==> input[end] == '/'
    requires !Prefixed(input, "/./") && !Prefixed(input, "/../") && input != "/." && input != "/.."
    ensures Stacked(Split(input, '/'), stack) == Stacked(Split(input[end..], '/'), stack + [input[..end]])
  {
    var segment := input[1..end];
    assert input[..end] == "/" + segment;
    if end == |input| {
      assert input == "" + "/" + segment;
      SplitAfterSlash("", segment);
      SplitWord(segment, '/');
      StackedRoot([segment], stack);
      assert !IsDot(segment);
      assert Worked([segment], stack) == Worked([], stack + ["/" + segment]);
    } else {
      var rest := input[end + 1..];
      assert input == "" + "/" + (segment + "/" + rest);
      assert input[end..] == "" + "/" + rest;
      SplitAfterSlash("", segment + "/" + rest);
      SplitAfterSlash(segment, rest);
      SplitAfterSlash("", rest);
      StackedRoot([segment] + Split(rest, '/'), stack);
      assert !IsDot(segment);
      WorkedFirst(segment, Split(rest, '/'), stack);
      StackedRoot(Split(rest, '/'), stack + ["/" + segment]);
    }
  }

  lemma NextRelative(input: string, end: nat, stack: seq<string>)
    requires input != "" && !StartsWith(input, '/') && 0 < end <= |input| && '/' !in input[..end]
    requires end < |input| ==> input[end] == '/'
    requires !Prefixed(input, "../") && !Prefixed(input, "./") && !IsDot(input)
    ensures Stacked(Split(input, '/'), stack) == Stacked(Split(input[end..], '/'), stack + [input[..end]])
  {
    var segment := input[..end];
    if end == |input| {
      assert segment == input;
      SplitWord(segment, '/');
      StackedRoot([], stack + [segment]);
      assert [""] + [] == [""] && [segment][1..] == [];
    } else {
      var rest := input[end + 1..];
      assert input == segment + "/" + rest;
      assert input[end..] == "" + "/" + rest;
      SplitAfterSlash(segment, rest);
      SplitAfterSlash("", rest);
      assert !IsDot(segment);
      assert ([segment] + Split(rest, '/'))[1..] == Split(rest, '/');
      StackedRoot(Split(rest, '/'), stack + [segment]);
    }
  }

  // ----- No dot segment is left, and only dot segments are removed -----

  function SegmentOf(piece: string): string {
    if StartsWith(piece, '/') then piece[1..] else piece
  }

  predicate Clean(stack: seq<string>) {
    Pieces(stack) && forall i :: 0 <= i < |stack| ==> !IsDot(SegmentOf(stack[i]))
  }

  lemma {:induction false} WorkedIsClean(segments: seq<string>, stack: seq<string>)
    requires Clean(stack) && NoneHas(segments, '/')
    ensures Clean(Worked(segments, stack))
  {
    if segments != [] {
      var first := segments[0];
      if first == "." {
        WorkedIsClean(segments[1..], stack);
      } else if first == ".." {
        WorkedIsClean(segments[1..], Pop(stack));
      } else {
        assert ("/" + first)[1..] == first;
        WorkedIsClean(segments[1..], stack + ["/" + first]);
      }
    }
  }

  lemma {:induction false} StackedIsClean(segments: seq<string>)
    requires NoneHas(segments, '/')
    ensures Clean(Stacked(segments, []))
  {
    if segments == [] {
    } else if IsDot(segments[0]) {
      StackedIsClean(segments[1..]);
    } else if segments[0] == "" {
      WorkedIsClean(segments[1..], []);
    } else {
      WorkedIsClean(segments[1..], [] + [segments[0]]);
    }
  }

  lemma AppendSegment(path: string, segment: string)
    requires NoDots(Split(path, '/')) && '/' !in segment && !IsDot(segment)
    ensures NoDots(Split(path + "/" + segment, '/'))
  {
    SplitConcat(path, segment, '/');
    SplitWord(segment, '/');
  }

  lemma {:induction false} CleanSplits(stack: seq<string>)
    requires Clean(stack)
    ensures NoDots(Split(Concat(stack), '/'))
  {
    if stack != [] {
      var front, last := Pop(stack), stack[|stack| - 1];
      CleanSplits(front);
      if StartsWith(last, '/') {
        AppendSegment(Concat(front), last[1..]);
        assert Concat(stack) == Concat(front) + "/" + last[1..];
      } else {
        assert |stack| == 1 && Concat(front) == "" && "" + last == last;
        SplitWord(last, '/');
      }
    }
  }

  /** What follows a first segment in a path. */
  function Slashed(segments: seq<string>): string {
    if segments == [] then "" else "/" + Join(segments, '/')
  }

  lemma JoinFirst(first: string, rest: seq<string>)
    ensures Join([first] + rest, '/') == first + Slashed(rest)
  {
    if rest == [] {
      assert [first] + rest == [first] && first + "" == first;
    } else {
      assert ([first] + rest)[1..] == rest;
      assert ['/'] + Join(rest, '/') == Slashed(rest);
      Regroup(first, ['/'], Join(rest, '/'));
    }
  }

  lemma SlashedFirst(first: string, rest: seq<string>)
    ensures Slashed([first] + rest) == "/" + first + Slashed(rest)
    ensures Join([first] + rest, '/') == first + Slashed(rest)
  {
    JoinFirst(first, rest);
    Regroup("/", first, Slashed(rest));
  }

  lemma ConcatPush(stack: seq<string>, piece: string)
    ensures Concat(stack + [piece]) == Concat(stack) + piece
  {
    assert (stack + [piece])[..|stack|] == stack;
  }

  lemma {:induction false} WorkedKeeps(segments: seq<string>, stack: seq<string>)
    requires NoDots(segments)
    ensures Concat(Worked(segments, stack)) == Concat(stack) + Slashed(segments)
  {
    if segments == [] {
      assert Concat(stack) + "" == Concat(stack);
    } else {
      var first, rest := segments[0], segments[1..];
      assert segments == [first] + rest;
      SlashedFirst(first, rest);
      ConcatPush(stack, "/" + first);
      WorkedKeeps(rest, stack + ["/" + first]);
    }
  }

  lemma StackedKeeps(segments: seq<string>)
    requires NoDots(segments) && segments != []
    ensures Concat(Stacked(segments, [])) == Join(segments, '/')
  {
    var first, rest := segments[0], segments[1..];
    assert segments == [first] + rest;
    SlashedFirst(first, rest);
    if first == "" {
      WorkedKeeps(rest, []);
      assert "" + Slashed(rest) == Slashed(rest);
    } else {
      ConcatPush([], first);
      assert Concat([]) + first == first && [] + [first] == [first];
      WorkedKeeps(rest, [first]);
    }
  }

  /** The result has no dot segment. */
  lemma NoDotsLeft(path: string)
    ensures NoDots(Split(RemoveDots(path), '/'))
  {
    SplitParts(path, '/');
    StackedIsClean(Split(path, '/'));
    CleanSplits(Stacked(Split(path, '/'), []));
  }

  /** A path is left alone exactly when it has no dot segment. */
  lemma FixedPoints(path: string)
    ensures RemoveDots(path) == path <==> NoDots(Split(path, '/'))
  {
    NoDotsLeft(path);
    if NoDots(Split(path, '/')) {
      StackedKeeps(Split(path, '/'));
      JoinSplit(path, '/');
    }
  }

  lemma RemoveDotsIsIdempotent(path: string)
    ensures RemoveDots(RemoveDots(path)) == RemoveDots(path)
  {
    NoDotsLeft(path);
    FixedPoints(RemoveDots(path));
  }

  // ----- The result is no longer, and stays absolute -----

  lemma PopShortens(stack: seq<string>)
    ensures |Concat(Pop(stack))| <= |Concat(stack)|
  {
  }

  lemma {:induction false} WorkedShortens(segments: seq<string>, stack: seq<string>)
    ensures |Concat(Worked(segments, stack))| <= |Concat(stack)| + |Slashed(segments)|
  {
    if segments != [] {
      var first, rest := segments[0], segments[1..];
      assert segments == [first] + rest;
      SlashedFirst(first, rest);
      PopShortens(stack);
      if |segments| == 1 && IsDot(first) {
        ConcatPush(stack, "/");
        ConcatPush(Pop(stack), "/");
      } else if first == "." {
        WorkedShortens(rest, stack);
      } else if first == ".." {
        WorkedShortens(rest, Pop(stack));
      } else {
        ConcatPush(stack, "/" + first);
        WorkedShortens(rest, stack + ["/" + first]);
      }
    }
  }

  lemma {:induction false} StackedShortens(segments: seq<string>)
    requires segments != []
    ensures |Concat(Stacked(segments, []))| <= |Join(segments, '/')|
  {
    var first, rest := segments[0], segments[1..];
    assert segments == [first] + rest;
    SlashedFirst(first, rest);
    if IsDot(first) {
      if rest != [] {
        StackedShortens(rest);
      }
    } else if first == "" {
      WorkedShortens(rest, []);
    } else {
      ConcatPush([], first);
      WorkedShortens(rest, [] + [first]);
    }
  }

  lemma NeverLonger(path: string)
    ensures |RemoveDots(path)| <= |path|
  {
    StackedShortens(Split(path, '/'));
    JoinSplit(path, '/');
  }

  predicate Rooted(stack: seq<string>) {
    forall i :: 0 <= i < |stack| ==> StartsWith(stack[i], '/')
  }

  lemma {:induction false} RootedStarts(stack: seq<string>)
    requires Rooted(stack) && stack != []
    ensures StartsWith(Concat(stack), '/')
  {
    if |stack| > 1 {
      RootedStarts(Pop(stack));
    }
  }

  /** Segments after a slash leave something on the stack, and its last piece is a lone slash or
      the last segment. */
  lemma {:induction false} WorkedEnds(segments: seq<string>, stack: seq<string>)
    requires segments != []
    ensures var worked := Worked(segments, stack);
            && worked != []
            && worked[|worked| - 1] in {"/", "/" + segments[|segments| - 1]}
            && (Rooted(stack) ==> Rooted(worked))
  {
    var first, rest := segments[0], segments[1..];
    if rest == [] {
    } else if first == "." {
      WorkedEnds(rest, stack);
    } else if first == ".." {
      WorkedEnds(rest, Pop(stack));
    } else {
      WorkedEnds(rest, stack + ["/" + first]);
    }
  }

  /** An absolute path stays absolute. */
  lemma StaysAbsolute(path: string)
    requires StartsWith(path, '/')
    ensures StartsWith(RemoveDots(path), '/')
  {
    assert path == "" + "/" + path[1..];
    SplitAfterSlash("", path[1..]);
    StackedRoot(Split(path[1..], '/'), []);
    WorkedEnds(Split(path[1..], '/'), []);
    RootedStarts(Stacked(Split(path, '/'), []));
  }

  // ----- How the result ends, and what it is made of -----

  predicate EndsLike(result: string, path: string) {
    result != "" ==> result[|result| - 1] == '/' || (path != "" && result[|result| - 1] == path[|path| - 1])
  }

  lemma {:induction false} StackedEnds(segments: seq<string>)
    requires segments != []
    ensures EndsLike(Concat(Stacked(segments, [])), segments[|segments| - 1])
  {
    var first, rest, last := segments[0], segments[1..], segments[|segments| - 1];
    if IsDot(first) {
      if rest != [] {
        StackedEnds(rest);
      }
    } else if rest == [] {
      assert Stacked(segments, []) == if first == "" then [] else [] + [first];
      ConcatPush([], first);
    } else {
      var stack := if first == "" then [] else [] + [first];
      WorkedEnds(rest, stack);
      assert ("/" + last)[|"/" + last| - 1] == if last == "" then '/' else last[|last| - 1];
    }
  }

  lemma {:induction false} JoinEnds(segments: seq<string>)
    requires segments != [] && segments[|segments| - 1] != ""
    ensures var joined, last := Join(segments, '/'), segments[|segments| - 1];
            joined != "" && joined[|joined| - 1] == last[|last| - 1]
  {
    if |segments| > 1 {
      JoinEnds(segments[1..]);
    }
  }

  /** The result ends in a slash or as the path does. */
  lemma ResultEnds(path: string)
    ensures EndsLike(RemoveDots(path), path)
  {
    var segments := Split(path, '/');
    StackedEnds(segments);
    JoinSplit(path, '/');
    if segments[|segments| - 1] != "" {
      JoinEnds(segments);
    }
  }

  lemma {:induction false} WorkedHasNo(segments: seq<string>, stack: seq<string>, c: char)
    requires NoneHas(segments, c) && NoneHas(stack, c) && c != '/'
    ensures NoneHas(Worked(segments, stack), c)
  {
    if segments != [] {
      var first, rest := segments[0], segments[1..];
      if first == "." {
        WorkedHasNo(rest, stack, c);
      } else if first == ".." {
        WorkedHasNo(rest, Pop(stack), c);
      } else {
        WorkedHasNo(rest, stack + ["/" + first], c);
      }
    }
  }

  lemma {:induction false} StackedHasNo(segments: seq<string>, c: char)
    requires NoneHas(segments, c) && c != '/'
    ensures NoneHas(Stacked(segments, []), c)
  {
    if segments != [] {
      var first, rest := segments[0], segments[1..];
      if IsDot(first) {
        StackedHasNo(rest, c);
      } else {
        WorkedHasNo(rest, if first == "" then [] else [] + [first], c);
      }
    }
  }

  lemma {:induction false} ConcatHasNo(stack: seq<string>, c: char)
    requires NoneHas(stack, c)
    ensures c !in Concat(stack)
  {
    if stack != [] {
      ConcatHasNo(Pop(stack), c);
    }
  }

  /** No new character comes in. */
  lemma ResultHasNo(path: string, c: char)
    requires c !in path && c != '/'
    ensures c !in RemoveDots(path)
  {
    SplitHasNo(path, c);
    StackedHasNo(Split(path, '/'), c);
    ConcatHasNo(Stacked(Split(path, '/'), []), c);
  }
}
