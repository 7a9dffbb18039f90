/** Which answers a response gives, by its status, its body and the request's failure. */
module ResponseLaws {
  import opened Collections
  import opened Wrappers
  import opened ResponseStream

  /** A successful status is one in the two hundreds. */
  lemma SuccessIsTwoHundreds(status: nat)
    ensures IsSuccess(status) <==> status / 100 == 2
  {
  }

  lemma {:induction false} ContainsPart(before: string, part: string, after: string)
    ensures Contains(before + part + after, part)
  {
    if before == "" {
      assert before + part + after == part + after;
    } else {
      assert (before + part + after)[1..] == before[1..] + part + after;
      ContainsPart(before[1..], part, after);
    }
  }

  lemma {:induction false} PartIsContained(text: string, part: string) returns (before: string, after: string)
    requires Contains(text, part)
    ensures text == before + part + after
  {
    if part <= text {
      before, after := "", text[|part|..];
    } else {
      before, after := PartIsContained(text[1..], part);
      before := [text[0]] + before;
    }
  }

  /** A request that fails because the host denied it is told apart by its text; any other failure
      names the URL and the text. */
  lemma RequestFailures(url: string, detail: string -> string, delay: nat, e: string, before: string, after: string)
    ensures e == before + "HttpRequestDenied" + after ==>
              Expected(url, detail, Request(delay, Failure(e))) == [Failure(HostBlocked(url))]
    ensures Expected(url, detail, Request(delay, Failure(e)))
            in {[Failure(HostBlocked(url))], [Failure(Unreachable(url, e))]}
    ensures Expected(url, detail, Request(delay, Failure(e))) == [Failure(HostBlocked(url))] ==>
              exists a, b :: e == a + "HttpRequestDenied" + b
  {
    if e == before + "HttpRequestDenied" + after {
      ContainsPart(before, "HttpRequestDenied", after);
    }
    if Contains(e, "HttpRequestDenied") {
      var a, b := PartIsContained(e, "HttpRequestDenied");
    }
  }

  // ----- Waiting -----

  /** There is no answer before the request is answered. */
  lemma {:induction false} NothingBeforeTheResponse(
    url: string, detail: string -> string, delay: nat, outcome: Result<Response, string>, n: nat)
    requires n <= delay
    ensures Answers(url, detail, Request(delay, outcome), n) == []
    decreases n
  {
    if n > 0 {
      NothingBeforeTheResponse(url, detail, delay - 1, outcome, n - 1);
    }
  }

  /** A body that makes one wait more, anywhere, differs in that only. */
  lemma {:induction false} OneMoreWait(before: seq<BodyEvent>, after: seq<BodyEvent>)
    ensures Erased(before + [Wait] + after) == Erased(before + after)
    ensures Waits(before + [Wait] + after) == Waits(before + after) + 1
  {
    var events := before + [Wait] + after;
    if before == [] {
      assert events[0] == Wait && events[1..] == after && before + after == after;
    } else {
      assert events[0] == before[0] && events[1..] == before[1..] + [Wait] + after;
      assert (before + after)[0] == before[0] && (before + after)[1..] == before[1..] + after;
      OneMoreWait(before[1..], after);
    }
  }

  lemma {:induction false} NoWaits(events: seq<BodyEvent>)
    requires Wait !in events
    ensures Erased(events) == events && Waits(events) == 0
  {
    if events != [] {
      NoWaits(events[1..]);
    }
  }

  // ----- Bodies that break -----

  /** A successful response hands out a failure of its body where it happens, after the chunks before
      it, and goes on with the rest. */
  lemma {:induction false} FailuresAreHandedOut(before: seq<BodyEvent>, message: string, after: seq<BodyEvent>)
    requires forall i :: 0 <= i < |before| ==> before[i].Data? || before[i].Wait?
    ensures BodyItems(Erased(before + [Broken(message)] + after))
            == Chunks(before) + [Failure(BodyFailed(message))] + BodyItems(Erased(after))
  {
    var events := before + [Broken(message)] + after;
    if before == [] {
      assert events[0] == Broken(message) && events[1..] == after;
      assert Erased(events) == [Broken(message)] + Erased(after);
      assert Erased(events)[1..] == Erased(after);
    } else {
      var rest := before[1..] + [Broken(message)] + after;
      assert events == [before[0]] + rest;
      FailuresAreHandedOut(before[1..], message, after);
      FirstItem(before[0], rest);
      assert before == [before[0]] + before[1..];
      FirstChunk(before[0], before[1..]);
      Regroup(Chunks([before[0]]), Chunks(before[1..]), [Failure(BodyFailed(message))]);
      Regroup(Chunks([before[0]]), Chunks(before[1..]) + [Failure(BodyFailed(message))], BodyItems(Erased(after)));
    }
  }

  lemma FirstItem(e: BodyEvent, rest: seq<BodyEvent>)
    requires e.Data? || e.Wait?
    ensures BodyItems(Erased([e] + rest)) == Chunks([e]) + BodyItems(Erased(rest))
  {
    assert ([e] + rest)[1..] == rest;
    if e.Data? {
      assert Erased([e] + rest) == [e] + Erased(rest);
      assert Erased([e] + rest)[1..] == Erased(rest);
    }
  }

  lemma FirstChunk(e: BodyEvent, rest: seq<BodyEvent>)
    ensures Chunks([e] + rest) == Chunks([e]) + Chunks(rest)
  {
    assert ([e] + rest)[1..] == rest;
  }

  // ----- Error bodies -----

  /** All data of a body. */
  function AllData(events: seq<BodyEvent>): string {
    if events == [] then ""
    else (if events[0].Data? then events[0].bytes else "") + AllData(events[1..])
  }

  lemma {:induction false} CollectsAll(events: seq<BodyEvent>)
    requires Unbroken(events)
    ensures CollectedBody(Erased(events)) == Success(AllData(events))
  {
    if events != [] {
      var rest := events[1..];
      CollectsAll(rest);
      assert !events[0].Broken?;
      assert "" + AllData(rest) == AllData(rest);
      if !events[0].Wait? {
        assert Erased(events) == [events[0]] + Erased(rest);
        assert Erased(events)[1..] == Erased(rest);
      }
    }
  }

  lemma {:induction false} CollectionBreaks(before: seq<BodyEvent>, message: string, after: seq<BodyEvent>)
    requires Unbroken(before)
    ensures CollectedBody(Erased(before + [Broken(message)] + after)) == Failure(message)
  {
    var events := before + [Broken(message)] + after;
    if before == [] {
      assert events[0] == Broken(message);
      assert Erased(events)[0] == Broken(message);
    } else {
      assert events[0] == before[0] && events[1..] == before[1..] + [Broken(message)] + after;
      CollectionBreaks(before[1..], message, after);
      if !events[0].Wait? {
        assert Erased(events)[1..] == Erased(events[1..]);
      }
    }
  }

  predicate Refused(status: nat) {
    status == 401 || status == 403
  }

  /** An unsuccessful status is an authentication failure if it is 401 or 403; otherwise the error gives
      the status and what the whole body says, or why the body could not be read. */
  lemma UnsuccessfulStatus(url: string, detail: string -> string, delay: nat, status: nat, body: seq<BodyEvent>,
                           message: string, after: seq<BodyEvent>)
    requires status / 100 != 2 && Unbroken(body)
    ensures Expected(url, detail, Request(delay, Success(Response(status, body))))
            == [Failure(if Refused(status) then Authentication else HttpStatus(status, detail(AllData(body))))]
    ensures Expected(url, detail, Request(delay, Success(Response(status, body + [Broken(message)] + after))))
            == [Failure(if Refused(status) then Authentication else ErrorBodyUnread(message))]
  {
    SuccessIsTwoHundreds(status);
    CollectsAll(body);
    CollectionBreaks(body, message, after);
    assert "" + AllData(body) == AllData(body);
    ErrorExpected(url, detail, delay, status, body);
    ErrorExpected(url, detail, delay, status, body + [Broken(message)] + after);
  }

  lemma ErrorExpected(url: string, detail: string -> string, delay: nat, status: nat, body: seq<BodyEvent>)
    requires !IsSuccess(status)
    ensures Expected(url, detail, Request(delay, Success(Response(status, body))))
            == [Failure(ErrorOf(detail, status, "", Erased(body)))]
  {
  }
}
