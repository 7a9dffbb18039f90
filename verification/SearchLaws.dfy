/** What the search returns, in terms of the sources' hits alone. */
module SearchLaws {
  import opened Collections
  import opened Wrappers
  import opened Strings
  import opened SearchMerge

  // ----- First occurrences -----

  /** No hit before `k` has its URL. */
  predicate IsFirst(hits: seq<Hit>, k: nat) {
    k < |hits| && forall j :: 0 <= j < k ==> hits[j].url != hits[k].url
  }

  lemma {:induction false} NoRepeatsLiteral(all: seq<Hit>, i: nat, j: nat)
    requires i < j < |FirstOccurrences(all)|
    ensures FirstOccurrences(all)[i].url != FirstOccurrences(all)[j].url
  {
    NoRepeats(all, j);
    assert FirstOccurrences(all)[..j][i] == FirstOccurrences(all)[i];
  }

  lemma {:induction false} EachIsFirst(all: seq<Hit>, i: nat)
    requires i < |FirstOccurrences(all)|
    ensures exists k: nat :: IsFirst(all, k) && FirstOccurrences(all)[i] == all[k]
  {
    var n := |all| - 1;
    var before := FirstOccurrences(all[..n]);
    if i < |before| {
      EachIsFirst(all[..n], i);
      var k: nat :| IsFirst(all[..n], k) && before[i] == all[..n][k];
      assert IsFirst(all, k);
    } else {
      assert IsFirst(all, n) by {
        forall j | 0 <= j < n ensures all[j].url != all[n].url {
          assert all[..n][j] == all[j];
        }
      }
    }
  }

  lemma {:induction false} EachFirstIsKept(all: seq<Hit>, k: nat)
    requires IsFirst(all, k)
    ensures all[k] in FirstOccurrences(all)
  {
    var n := |all| - 1;
    if k < n {
      assert IsFirst(all[..n], k);
      EachFirstIsKept(all[..n], k);
    }
  }

  /** The hits kept are exactly those whose URL no earlier hit has, each once; what is kept of the
      first hits does not depend on the later ones. */
  lemma KeptHits(all: seq<Hit>, more: seq<Hit>, hit: Hit)
    ensures hit in FirstOccurrences(all) <==> exists k: nat :: IsFirst(all, k) && all[k] == hit
    ensures forall i, j :: 0 <= i < j < |FirstOccurrences(all)| ==>
              FirstOccurrences(all)[i].url != FirstOccurrences(all)[j].url
    ensures FirstOccurrences(all) <= FirstOccurrences(all + more)
  {
    if hit in FirstOccurrences(all) {
      var i :| 0 <= i < |FirstOccurrences(all)| && FirstOccurrences(all)[i] == hit;
      EachIsFirst(all, i);
    }
    if k: nat :| IsFirst(all, k) && all[k] == hit {
      EachFirstIsKept(all, k);
    }
    forall i, j | 0 <= i < j < |FirstOccurrences(all)|
      ensures FirstOccurrences(all)[i].url != FirstOccurrences(all)[j].url
    {
      NoRepeatsLiteral(all, i, j);
    }
    FirstOccurrencesGrow(all, more);
  }

  // ----- The order of the sources -----

  /** With every source answering: a developer's query asks the instant answer, Stack Overflow, the
      crate index if it is about Rust, GitHub and Wikipedia, in this order; any other the instant
      answer, Wikipedia, Stack Overflow and GitHub. */
  lemma SourcesInOrder(answer: InstantAnswer, stack: seq<Hit>, crates: seq<Hit>, gitHub: seq<Hit>,
                       wikipedia: seq<Hit>, fullText: nat -> Reply)
    ensures var replies := Replies(Success(answer), Success(stack), Success(crates), Success(gitHub),
                                   Success(wikipedia), fullText);
            var first := InstantHits(answer);
            && Sources(replies, true, true) == first + (stack + (crates + (gitHub + wikipedia)))
            && Sources(replies, true, false) == first + (stack + (gitHub + wikipedia))
            && Sources(replies, false, true) == first + (wikipedia + (stack + gitHub))
            && Sources(replies, false, false) == first + (wikipedia + (stack + gitHub))
  {
  }

  /** Without the failed sources the others still answer. */
  lemma FailedSourcesAreSkipped(e: string, fullText: nat -> Reply, isDev: bool, isRust: bool)
    ensures var failed := Failure(e);
            Sources(Replies(Failure(e), failed, failed, failed, failed, fullText), isDev, isRust) == []
  {
  }

  /** The limit is between one and ten; the full-text source is asked last, for as many hits as are
      still wanted, and not at all if there are enough. */
  lemma LastSource(replies: Replies, isDev: bool, isRust: bool, wanted: nat, hits: seq<Hit>)
    requires forall n :: replies.fullText(n) == Success(hits)
    ensures var limit := if wanted == 0 then 1 else if wanted <= 10 then wanted else 10;
            var before := Sources(replies, isDev, isRust);
            && Clamp(wanted) == limit
            && AllHits(replies, isDev, isRust, limit)
               == if |FirstOccurrences(before)| < limit then before + hits else before
  {
  }

  /** The full-text source is told how many hits are wanted. */
  lemma StillWanted(replies: Replies, isDev: bool, isRust: bool, limit: nat, missing: nat)
    requires |FirstOccurrences(Sources(replies, isDev, isRust))| + missing == limit && missing > 0
    ensures AllHits(replies, isDev, isRust, limit)
            == Sources(replies, isDev, isRust) + HitsOf(replies.fullText(missing))
  {
  }

  // ----- The instant answer -----

  /** The abstract, the direct results and the related topics, in this order. */
  lemma InstantInOrder(heading: string, text: string, url: string, results: seq<Topic>, topics: seq<Topic>)
    ensures InstantHits(InstantAnswer(heading, text, url, results, topics))
            == (if text == "" || url == "" then [] else [Hit(heading, url, text)])
               + (DirectHits(results) + Flattened(topics))
  {
  }

  predicate DashAt(text: string, i: nat) {
    i + 3 <= |text| && text[i] == ' ' && text[i + 1] == '-' && text[i + 2] == ' '
  }

  lemma {:induction false} FindsDash(text: string, i: nat)
    requires DashAt(text, i) && forall j: nat :: j < i ==> !DashAt(text, j)
    ensures BeforeDash(text) == Some(text[..i])
  {
    if i > 0 {
      assert !DashAt(text, 0);
      assert DashAt(text[1..], i - 1);
      forall j: nat | j < i - 1 ensures !DashAt(text[1..], j) {
        assert !DashAt(text, j + 1);
      }
      FindsDash(text[1..], i - 1);
      assert text[..i] == [text[0]] + text[1..][..i - 1];
    } else {
      assert text[..3] == " - ";
    }
  }

  lemma {:induction false} FindsNoDash(text: string)
    requires forall j: nat :: !DashAt(text, j)
    ensures BeforeDash(text) == None
  {
    if |text| >= 3 {
      assert !DashAt(text, 0);
      forall j: nat ensures !DashAt(text[1..], j) {
        assert !DashAt(text, j + 1);
      }
      FindsNoDash(text[1..]);
    }
  }

  /** A link's title is its text up to the first dash between blanks, trimmed; without one, the first
      sixty characters. */
  lemma Titles(text: string, i: nat)
    ensures DashAt(text, i) && (forall j: nat :: j < i ==> !DashAt(text, j)) ==> TitleOf(text) == Trim(text[..i])
    ensures (forall j: nat :: !DashAt(text, j)) ==> TitleOf(text) == if |text| <= 60 then text else text[..60]
  {
    if DashAt(text, i) && forall j: nat :: j < i ==> !DashAt(text, j) {
      FindsDash(text, i);
    }
    if forall j: nat :: !DashAt(text, j) {
      FindsNoDash(text);
    }
  }

  /** A topic with text and URL comes before the topics it groups, and they before the rest of the list;
      any other topic stands for the ones it groups. */
  lemma TopicsInPreOrder(text: string, url: string, grouped: seq<Topic>, rest: seq<Topic>)
    ensures Flattened([Topic(Some(text), Some(url), grouped)] + rest)
            == (if text == "" || url == "" then [] else [Hit(TitleOf(text), url, text)])
               + (Flattened(grouped) + Flattened(rest))
    ensures Flattened([Topic(None, Some(url), grouped)] + rest) == Flattened(grouped) + Flattened(rest)
    ensures Flattened([Topic(Some(text), None, grouped)] + rest) == Flattened(grouped) + Flattened(rest)
    ensures Flattened([Topic(None, None, grouped)] + rest) == Flattened(grouped) + Flattened(rest)
  {
    FlattenedFirst(Topic(Some(text), Some(url), grouped), rest);
    FlattenedFirst(Topic(None, Some(url), grouped), rest);
    FlattenedFirst(Topic(Some(text), None, grouped), rest);
    FlattenedFirst(Topic(None, None, grouped), rest);
  }

  lemma FlattenedFirst(topic: Topic, rest: seq<Topic>)
    ensures Flattened([topic] + rest) == DirectHit(topic) + (Flattened(topic.topics) + Flattened(rest))
  {
    assert ([topic] + rest)[1..] == rest;
    Regroup(DirectHit(topic), Flattened(topic.topics), Flattened(rest));
  }

  /** Direct results are links; what they group is not looked at. */
  lemma DirectInOrder(text: string, url: string, grouped: seq<Topic>, rest: seq<Topic>)
    ensures DirectHits([Topic(Some(text), Some(url), grouped)] + rest)
            == (if text == "" || url == "" then [] else [Hit(TitleOf(text), url, text)]) + DirectHits(rest)
    ensures DirectHits([Topic(None, Some(url), grouped)] + rest) == DirectHits(rest)
    ensures DirectHits([Topic(Some(text), None, grouped)] + rest) == DirectHits(rest)
  {
    assert ([Topic(Some(text), Some(url), grouped)] + rest)[1..] == rest;
    assert ([Topic(None, Some(url), grouped)] + rest)[1..] == rest;
    assert ([Topic(Some(text), None, grouped)] + rest)[1..] == rest;
  }
}
