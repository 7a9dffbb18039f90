/** The web search: answers of several sources merged in order, without repeating a URL, until a
    limit is reached. A source's answer is fixed; only the last source is told how many hits are
    still wanted. */
module SearchMerge {
  import opened Wrappers
  import opened Strings

  datatype Hit = Hit(title: string, url: string, snippet: string)

  predicate HasUrl(hits: seq<Hit>, url: string) {
    exists i :: 0 <= i < |hits| && hits[i].url == url
  }

  function Take<T>(s: seq<T>, n: nat): seq<T> {
    if n <= |s| then s[..n] else s
  }

  // ----- The specification: first occurrences -----

  /** Every hit whose URL no earlier hit has. */
  function FirstOccurrences(hits: seq<Hit>): seq<Hit> {
    if hits == [] then []
    else
      var n := |hits| - 1;
      var before := FirstOccurrences(hits[..n]);
      if HasUrl(hits[..n], hits[n].url) then before else before + [hits[n]]
  }

  lemma {:induction false} SameUrls(hits: seq<Hit>, url: string)
    ensures HasUrl(FirstOccurrences(hits), url) <==> HasUrl(hits, url)
  {
    if hits != [] {
      var n := |hits| - 1;
      var before := FirstOccurrences(hits[..n]);
      SameUrls(hits[..n], url);
      assert hits == hits[..n] + [hits[n]];
      if HasUrl(hits[..n], url) {
        var i :| 0 <= i < |before| && before[i].url == url;
        assert FirstOccurrences(hits)[i].url == url;
        var j :| 0 <= j < n && hits[..n][j].url == url;
        assert hits[j].url == url;
      } else if hits[n].url == url {
        assert FirstOccurrences(hits)[|before|].url == url;
      }
    }
  }

  // ----- The merging loop -----

  /** Add the incoming hits with new URLs, one at a time, up to the limit. */
  function Extended(results: seq<Hit>, incoming: seq<Hit>, limit: nat): seq<Hit>
    decreases |incoming|
  {
    if incoming == [] || |results| >= limit then results
    else Extended(if HasUrl(results, incoming[0].url) then results else results + [incoming[0]], incoming[1..], limit)
  }

  method ExtendUnique(results: seq<Hit>, incoming: seq<Hit>, limit: nat) returns (extended: seq<Hit>)
    ensures extended == Extended(results, incoming, limit)
  {
    extended := results;
    var i := 0;
    assert incoming[0..] == incoming;
    while i < |incoming|
      invariant i <= |incoming|
      invariant Extended(extended, incoming[i..], limit) == Extended(results, incoming, limit)
    {
      if |extended| >= limit {
        break;
      }
      assert incoming[i..][1..] == incoming[i + 1..];
      if !HasUrl(extended, incoming[i].url) {
        extended := extended + [incoming[i]];
      }
      i := i + 1;
    }
  }

  lemma FirstOccurrencesPush(hits: seq<Hit>, hit: Hit)
    ensures FirstOccurrences(hits + [hit])
            == if HasUrl(hits, hit.url) then FirstOccurrences(hits) else FirstOccurrences(hits) + [hit]
  {
    assert (hits + [hit])[..|hits|] == hits;
  }

  lemma {:induction false} FirstOccurrencesGrow(a: seq<Hit>, b: seq<Hit>)
    ensures FirstOccurrences(a) <= FirstOccurrences(a + b)
    decreases |b|
  {
    if b == [] {
      assert a + b == a;
    } else {
      var n := |b| - 1;
      FirstOccurrencesGrow(a, b[..n]);
      assert a + b == (a + b[..n]) + [b[n]];
      FirstOccurrencesPush(a + b[..n], b[n]);
    }
  }

  /** Extending the first occurrences of what came before gives those of everything so far. */
  lemma {:induction false} ExtendedFirstOccurrences(before: seq<Hit>, incoming: seq<Hit>, limit: nat)
    requires |FirstOccurrences(before)| <= limit
    ensures Extended(FirstOccurrences(before), incoming, limit)
            == Take(FirstOccurrences(before + incoming), limit)
    decreases |incoming|
  {
    FirstOccurrencesGrow(before, incoming);
    if incoming == [] {
      assert before + incoming == before;
    } else if |FirstOccurrences(before)| < limit {
      var hit := incoming[0];
      SameUrls(before, hit.url);
      FirstOccurrencesPush(before, hit);
      assert (before + [hit]) + incoming[1..] == before + incoming;
      ExtendedFirstOccurrences(before + [hit], incoming[1..], limit);
    } else {
      assert FirstOccurrences(before + incoming)[..limit] == FirstOccurrences(before);
    }
  }

  /** One more source, whatever was cut off before it. */
  lemma MergeStep(before: seq<Hit>, incoming: seq<Hit>, limit: nat)
    ensures Extended(Take(FirstOccurrences(before), limit), incoming, limit)
            == Take(FirstOccurrences(before + incoming), limit)
  {
    FirstOccurrencesGrow(before, incoming);
    if |FirstOccurrences(before)| <= limit {
      ExtendedFirstOccurrences(before, incoming, limit);
    }
  }

  // ----- Topics -----

  /** An entry of the instant answer: perhaps a link, perhaps a group of entries. */
  datatype Topic = Topic(text: Option<string>, url: Option<string>, topics: seq<Topic>)

  /** The text before the first ` - `. */
  function BeforeDash(text: string): Option<string> {
    if |text| < 3 then None
    else if text[..3] == " - " then Some("")
    else
      var rest :- BeforeDash(text[1..]);
      Some([text[0]] + rest)
  }

  function TitleOf(text: string): string {
    match BeforeDash(text)
    case Some(prefix) => Trim(prefix)
    case None => Take(text, 60)
  }

  function DirectHit(topic: Topic): seq<Hit> {
    if topic.text.Some? && topic.url.Some? && topic.text.value != "" && topic.url.value != "" then
      [Hit(TitleOf(topic.text.value), topic.url.value, topic.text.value)]
    else []
  }

  /** The links of a topic tree in pre-order. */
  function Flattened(topics: seq<Topic>): seq<Hit> {
    if topics == [] then []
    else DirectHit(topics[0]) + Flattened(topics[0].topics) + Flattened(topics[1..])
  }

  lemma {:induction false} ExtendedConcat(results: seq<Hit>, a: seq<Hit>, b: seq<Hit>, limit: nat)
    ensures Extended(Extended(results, a, limit), b, limit) == Extended(results, a + b, limit)
    decreases |a|
  {
    if a == [] {
      assert a + b == b;
    } else if |results| < limit {
      assert (a + b)[0] == a[0] && (a + b)[1..] == a[1..] + b;
      ExtendedConcat(if HasUrl(results, a[0].url) then results else results + [a[0]], a[1..], b, limit);
    }
  }

  /** Walking one topic and then the rest of its list. */
  lemma TopicStep(results: seq<Hit>, topics: seq<Topic>, limit: nat)
    requires topics != []
    ensures var direct := Extended(results, DirectHit(topics[0]), limit);
            Extended(Extended(direct, Flattened(topics[0].topics), limit), Flattened(topics[1..]), limit)
            == Extended(results, Flattened(topics), limit)
  {
    var a, b, c := DirectHit(topics[0]), Flattened(topics[0].topics), Flattened(topics[1..]);
    ExtendedConcat(results, a, b, limit);
    ExtendedConcat(results, a + b, c, limit);
  }

  /** The recursive walk adds the links of the tree as if they stood in one list. */
  method ExtractTopics(topics: seq<Topic>, results: seq<Hit>, limit: nat) returns (extended: seq<Hit>)
    ensures extended == Extended(results, Flattened(topics), limit)
    decreases topics
  {
    extended := results;
    var i := 0;
    assert topics[0..] == topics;
    while i < |topics|
      invariant i <= |topics|
      invariant Extended(extended, Flattened(topics[i..]), limit) == Extended(results, Flattened(topics), limit)
    {
      if |extended| >= limit {
        break;
      }
      TopicStep(extended, topics[i..], limit);
      assert topics[i..][1..] == topics[i + 1..];
      var direct := DirectHit(topics[i]);
      if direct != [] && !HasUrl(extended, direct[0].url) {
        extended := extended + direct;
      }
      extended := ExtractTopics(topics[i].topics, extended, limit);
      i := i + 1;
    }
  }

  // ----- The first source -----

  datatype InstantAnswer = InstantAnswer(
    heading: string, text: string, url: string, results: seq<Topic>, topics: seq<Topic>)

  function DirectHits(topics: seq<Topic>): seq<Hit> {
    if topics == [] then [] else DirectHit(topics[0]) + DirectHits(topics[1..])
  }

  function AbstractHit(answer: InstantAnswer): seq<Hit> {
    if answer.text != "" && answer.url != "" then [Hit(answer.heading, answer.url, answer.text)] else []
  }

  function InstantHits(answer: InstantAnswer): seq<Hit> {
    AbstractHit(answer) + DirectHits(answer.results) + Flattened(answer.topics)
  }

  method ExtendDirect(topics: seq<Topic>, results: seq<Hit>, limit: nat) returns (extended: seq<Hit>)
    ensures extended == Extended(results, DirectHits(topics), limit)
  {
    extended := results;
    var i := 0;
    assert topics[0..] == topics;
    while i < |topics|
      invariant i <= |topics|
      invariant Extended(extended, DirectHits(topics[i..]), limit) == Extended(results, DirectHits(topics), limit)
    {
      if |extended| >= limit {
        break;
      }
      var direct := DirectHit(topics[i]);
      ExtendedConcat(extended, direct, DirectHits(topics[i..][1..]), limit);
      assert topics[i..][1..] == topics[i + 1..];
      if direct != [] && !HasUrl(extended, direct[0].url) {
        extended := extended + direct;
      }
      i := i + 1;
    }
  }

  /** The instant answer's hits: first occurrences of its own, up to the limit. */
  method SearchInstant(answer: InstantAnswer, limit: nat) returns (hits: seq<Hit>)
    requires limit >= 1
    ensures hits == Take(FirstOccurrences(InstantHits(answer)), limit)
  {
    hits := AbstractHit(answer);
    ghost var first := AbstractHit(answer);
    OneHit(first);
    assert hits == Take(FirstOccurrences(first), limit);
    hits := ExtendDirect(answer.results, hits, limit);
    ghost var direct := first + DirectHits(answer.results);
    assert hits == Take(FirstOccurrences(direct), limit) by {
      MergeStep(first, DirectHits(answer.results), limit);
    }
    hits := ExtractTopics(answer.topics, hits, limit);
    MergeStep(direct, Flattened(answer.topics), limit);
  }

  lemma OneHit(hits: seq<Hit>)
    requires |hits| <= 1
    ensures FirstOccurrences(hits) == hits
  {
    if hits != [] {
      assert hits[..0] == [] && hits == [hits[0]];
    }
  }

  // ----- All sources -----

  type Reply = Result<seq<Hit>, string>

  datatype Replies = Replies(
    instant: Result<InstantAnswer, string>, stackOverflow: Reply, crates: Reply, gitHub: Reply, wikipedia: Reply,
    fullText: nat -> Reply)

  function HitsOf(reply: Reply): seq<Hit> {
    match reply
    case Success(hits) => hits
    case Failure(_) => []
  }

  function InstantOf(reply: Result<InstantAnswer, string>): seq<Hit> {
    match reply
    case Success(answer) => InstantHits(answer)
    case Failure(_) => []
  }

  function Clamp(limit: nat): nat {
    if limit < 1 then 1 else if limit > 10 then 10 else limit
  }

  /** The hits before, and those of the sources asked for a developer's query, in order. */
  function WithDev(before: seq<Hit>, replies: Replies, isRust: bool): seq<Hit> {
    var answered := before + HitsOf(replies.stackOverflow);
    (if isRust then answered + HitsOf(replies.crates) else answered)
    + HitsOf(replies.gitHub) + HitsOf(replies.wikipedia)
  }

  function WithGeneral(before: seq<Hit>, replies: Replies): seq<Hit> {
    before + HitsOf(replies.wikipedia) + HitsOf(replies.stackOverflow) + HitsOf(replies.gitHub)
  }

  /** The hits of every source but the last, in the order the sources are asked. */
  function Sources(replies: Replies, isDev: bool, isRust: bool): seq<Hit> {
    if isDev then WithDev(InstantOf(replies.instant), replies, isRust)
    else WithGeneral(InstantOf(replies.instant), replies)
  }

  /** Ask one more source, unless there are enough hits already. */
  method Ask(results: seq<Hit>, reply: Reply, limit: nat, ghost before: seq<Hit>) returns (merged: seq<Hit>)
    requires results == Take(FirstOccurrences(before), limit)
    ensures merged == Take(FirstOccurrences(before + HitsOf(reply)), limit)
  {
    merged := results;
    MergeStep(before, HitsOf(reply), limit);
    if |results| < limit && reply.Success? {
      merged := ExtendUnique(results, reply.value, limit);
    }
  }

  method AskDev(found: seq<Hit>, replies: Replies, isRust: bool, limit: nat, ghost before: seq<Hit>)
    returns (results: seq<Hit>)
    requires found == Take(FirstOccurrences(before), limit)
    ensures results == Take(FirstOccurrences(WithDev(before, replies, isRust)), limit)
  {
    results := Ask(found, replies.stackOverflow, limit, before);
    ghost var all := before + HitsOf(replies.stackOverflow);
    if isRust {
      results := Ask(results, replies.crates, limit, all);
      all := all + HitsOf(replies.crates);
    }
    results := Ask(results, replies.gitHub, limit, all);
    all := all + HitsOf(replies.gitHub);
    results := Ask(results, replies.wikipedia, limit, all);
    all := all + HitsOf(replies.wikipedia);
  }

  method AskGeneral(found: seq<Hit>, replies: Replies, limit: nat, ghost before: seq<Hit>) returns (results: seq<Hit>)
    requires found == Take(FirstOccurrences(before), limit)
    ensures results == Take(FirstOccurrences(WithGeneral(before, replies)), limit)
  {
    results := Ask(found, replies.wikipedia, limit, before);
    ghost var all := before + HitsOf(replies.wikipedia);
    results := Ask(results, replies.stackOverflow, limit, all);
    all := all + HitsOf(replies.stackOverflow);
    results := Ask(results, replies.gitHub, limit, all);
    all := all + HitsOf(replies.gitHub);
  }

  method AskInstant(reply: Result<InstantAnswer, string>, limit: nat) returns (results: seq<Hit>)
    requires limit >= 1
    ensures results == Take(FirstOccurrences(InstantOf(reply)), limit)
  {
    results := [];
    if reply.Success? {
      var hits := SearchInstant(reply.value, limit);
      results := Distinct(hits, InstantOf(reply), limit);
    }
  }

  /** All hits, when those of the sources before the last are `before`: the full-text source is
      asked for as many as are still wanted. */
  function WithFullText(before: seq<Hit>, replies: Replies, limit: nat): seq<Hit> {
    var found := |FirstOccurrences(before)|;
    if found < limit then before + HitsOf(replies.fullText(limit - found)) else before
  }

  method AskFullText(found: seq<Hit>, replies: Replies, limit: nat, ghost before: seq<Hit>) returns (results: seq<Hit>)
    requires found == Take(FirstOccurrences(before), limit)
    ensures results == Take(FirstOccurrences(WithFullText(before, replies, limit)), limit)
  {
    results := found;
    if |results| < limit {
      results := Ask(results, replies.fullText(limit - |results|), limit, before);
    }
  }

  function AllHits(replies: Replies, isDev: bool, isRust: bool, limit: nat): seq<Hit> {
    WithFullText(Sources(replies, isDev, isRust), replies, limit)
  }

  /** The short-circuiting search returns the first `limit` of all hits without repeated URLs. */
  method SearchWeb(replies: Replies, isDev: bool, isRust: bool, wanted: nat) returns (results: seq<Hit>)
    ensures results == Take(FirstOccurrences(AllHits(replies, isDev, isRust, Clamp(wanted))), Clamp(wanted))
  {
    var limit := Clamp(wanted);
    results := AskInstant(replies.instant, limit);
    if isDev {
      results := AskDev(results, replies, isRust, limit, InstantOf(replies.instant));
    } else {
      results := AskGeneral(results, replies, limit, InstantOf(replies.instant));
    }
    results := AskFullText(results, replies, limit, Sources(replies, isDev, isRust));
  }

  /** The first source's loop drops repeated URLs; its hits have none. */
  method Distinct(hits: seq<Hit>, ghost all: seq<Hit>, limit: nat) returns (results: seq<Hit>)
    requires hits == Take(FirstOccurrences(all), limit)
    ensures results == hits
  {
    results := [];
    for i := 0 to |hits|
      invariant results == hits[..i]
    {
      NoRepeats(all, i);
      if !HasUrl(results, hits[i].url) {
        results := results + [hits[i]];
      }
    }
  }

  lemma {:induction false} NoRepeats(all: seq<Hit>, i: nat)
    requires i < |FirstOccurrences(all)|
    ensures !HasUrl(FirstOccurrences(all)[..i], FirstOccurrences(all)[i].url)
  {
    var n := |all| - 1;
    var before := FirstOccurrences(all[..n]);
    if i < |before| {
      NoRepeats(all[..n], i);
      assert FirstOccurrences(all)[..i] == before[..i];
    } else {
      SameUrls(all[..n], all[n].url);
      assert FirstOccurrences(all)[..i] == before;
    }
  }
}
