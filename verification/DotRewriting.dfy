/** What `remove_dot_segments` does to a dot segment anywhere in an absolute path. With
    `DotSegments.FixedPoints` these laws determine the result for every absolute path. */
module DotRewriting {
  import opened Collections
  import opened Strings
  import opened DotSegments

  /** The path is absolute, or the empty beginning of an absolute one. */
  predicate Opening(path: string) {
    path == "" || path[0] == '/'
  }

  /** The stack after segments that others follow. */
  function Passed(segments: seq<string>, stack: seq<string>): seq<string> {
    if segments == [] then stack
    else if segments[0] == "." then Passed(segments[1..], stack)
    else if segments[0] == ".." then Passed(segments[1..], Pop(stack))
    else Passed(segments[1..], stack + ["/" + segments[0]])
  }

  lemma {:induction false} WorkedConcat(a: seq<string>, b: seq<string>, stack: seq<string>)
    requires b != []
    ensures Worked(a + b, stack) == Worked(b, Passed(a, stack))
    decreases |a|
  {
    if a == [] {
      assert a + b == b;
    } else {
      assert a + b == [a[0]] + (a[1..] + b);
      WorkedFirst(a[0], a[1..] + b, stack);
      WorkedConcat(a[1..], b,
                   if a[0] == "." then stack else if a[0] == ".." then Pop(stack) else stack + ["/" + a[0]]);
    }
  }

  /** The segments of an absolute path after the slash it opens with. */
  function Inner(path: string): seq<string> {
    Split(path, '/')[1..]
  }

  lemma OpeningSplits(front: string)
    requires Opening(front)
    ensures Split(front, '/') == [""] + Inner(front)
  {
    if front != "" {
      assert front == "" + "/" + front[1..];
      SplitAfterSlash("", front[1..]);
    }
  }

  lemma SplitsAfter(front: string, rest: string)
    requires Opening(front)
    ensures Split(front + "/" + rest, '/') == [""] + (Inner(front) + Split(rest, '/'))
  {
    OpeningSplits(front);
    SplitConcat(front, rest, '/');
    assert front + ['/'] + rest == front + "/" + rest;
    Regroup([""], Inner(front), Split(rest, '/'));
  }

  /** Working off what follows an opening, from the stack the opening leaves. */
  lemma RemoveDotsAfter(front: string, rest: string)
    requires Opening(front)
    ensures RemoveDots(front + "/" + rest) == Concat(Worked(Split(rest, '/'), Passed(Inner(front), [])))
  {
    var inner, segments := Inner(front), Split(rest, '/');
    SplitsAfter(front, rest);
    assert Stacked([""] + (inner + segments), []) == Worked(segments, Passed(inner, [])) by {
      StackedRoot(inner + segments, []);
      WorkedConcat(inner, segments, []);
    }
  }

  /** `/./` is `/`. */
  lemma DropsDot(front: string, rest: string)
    requires Opening(front)
    ensures RemoveDots(front + "/./" + rest) == RemoveDots(front + "/" + rest)
  {
    assert front + "/./" + rest == front + "/" + ("./" + rest) && "./" + rest == "." + "/" + rest;
    RemoveDotsAfter(front, "./" + rest);
    RemoveDotsAfter(front, rest);
    SplitAfterSlash(".", rest);
    WorkedFirst(".", Split(rest, '/'), Passed(Inner(front), []));
  }

  lemma PopPush(stack: seq<string>, piece: string)
    ensures Pop(stack + [piece]) == stack
  {
  }

  /** `/segment/../` is `/`. */
  lemma DropsParent(front: string, segment: string, rest: string)
    requires Opening(front) && '/' !in segment && segment != "." && segment != ".."
    ensures RemoveDots(front + "/" + segment + "/../" + rest) == RemoveDots(front + "/" + rest)
  {
    var stack, segments := Passed(Inner(front), []), Split(rest, '/');
    var up := "../" + rest;
    assert front + "/" + segment + "/../" + rest == front + "/" + (segment + "/" + up) && up == ".." + "/" + rest;
    RemoveDotsAfter(front, segment + "/" + up);
    RemoveDotsAfter(front, rest);
    SplitAfterSlash(segment, up);
    SplitAfterSlash("..", rest);
    WorkedFirst(segment, [".."] + segments, stack);
    WorkedFirst("..", segments, stack + ["/" + segment]);
    PopPush(stack, "/" + segment);
  }

  /** There is nothing above the root. */
  lemma DropsParentOfRoot(rest: string)
    ensures RemoveDots("/../" + rest) == RemoveDots("/" + rest)
  {
    assert "/../" + rest == "" + "/" + ("../" + rest) && "../" + rest == ".." + "/" + rest;
    assert "/" + rest == "" + "/" + rest;
    RemoveDotsAfter("", "../" + rest);
    RemoveDotsAfter("", rest);
    SplitAfterSlash("..", rest);
    WorkedFirst("..", Split(rest, '/'), []);
  }

  /** A final dot segment leaves its slash. */
  lemma EndsInDot(front: string)
    requires Opening(front)
    ensures RemoveDots(front + "/.") == RemoveDots(front + "/")
  {
    assert front + "/." == front + "/" + "." && front + "/" == front + "/" + "";
    RemoveDotsAfter(front, ".");
    RemoveDotsAfter(front, "");
    SplitWord(".", '/');
  }

  lemma SegmentAndParent(segment: string, stack: seq<string>)
    requires '/' !in segment && segment != "." && segment != ".."
    ensures Worked(Split(segment + "/" + "..", '/'), stack) == stack + ["/"]
  {
    SplitAfterSlash(segment, "..");
    SplitWord("..", '/');
    WorkedFirst(segment, [".."], stack);
    PopPush(stack, "/" + segment);
  }

  lemma FinalSlash(stack: seq<string>)
    ensures Worked(Split("", '/'), stack) == stack + ["/"]
  {
    assert "/" + "" == "/";
  }

  /** A final `..` takes its segment with it, and leaves the slash before it. */
  lemma EndsInParent(front: string, segment: string)
    requires Opening(front) && '/' !in segment && segment != "." && segment != ".."
    ensures RemoveDots(front + "/" + segment + "/..") == RemoveDots(front + "/")
  {
    assert front + "/" + segment + "/.." == front + "/" + (segment + "/" + "..") && front + "/" == front + "/" + "";
    RemoveDotsAfter(front, segment + "/" + "..");
    RemoveDotsAfter(front, "");
    SegmentAndParent(segment, Passed(Inner(front), []));
    FinalSlash(Passed(Inner(front), []));
  }

  lemma EndsInParentOfRoot()
    ensures RemoveDots("/..") == RemoveDots("/")
  {
    assert "/.." == "" + "/" + ".." && "/" == "" + "/" + "";
    RemoveDotsAfter("", "..");
    RemoveDotsAfter("", "");
    SplitWord("..", '/');
  }

  /** Dot segments a relative path opens with vanish with their slash. */
  lemma DropsLeading(rest: string)
    ensures RemoveDots("./" + rest) == RemoveDots(rest) && RemoveDots("../" + rest) == RemoveDots(rest)
    ensures RemoveDots(".") == "" && RemoveDots("..") == ""
  {
    assert "./" + rest == "." + "/" + rest && "../" + rest == ".." + "/" + rest;
    assert ("./" + rest)[2..] == rest && ("../" + rest)[3..] == rest;
    LeadingDot(".", "./" + rest, []);
    LeadingDot("..", "../" + rest, []);
    OnlyDot(".", []);
    OnlyDot("..", []);
  }
}
