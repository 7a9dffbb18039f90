/** The streaming response: a poll machine that awaits the response, then yields body chunks, or
    reads an error body and reports it once. What the request and the body answer to each poll is
    a script, in which `Wait` is one answer of "not ready yet". */
module ResponseStream {
  import opened Wrappers

  datatype BodyEvent = Wait | Data(bytes: string) | Trailers | Broken(message: string)

  datatype Response = Response(status: nat, body: seq<BodyEvent>)

  /** The error texts are kept as the parts they are formatted from. */
  datatype ProviderError =
    | Authentication
    | HostBlocked(url: string)
    | Unreachable(url: string, detail: string)
    | BodyFailed(message: string)
    | ErrorBodyUnread(message: string)
    | HttpStatus(status: nat, detail: string)

  type Item = Result<string, ProviderError>

  /** The request is answered after `delay` polls. */
  datatype State =
    | Request(delay: nat, outcome: Result<Response, string>)
    | ErrorBody(status: nat, body: seq<BodyEvent>, collected: string)
    | Body(body: seq<BodyEvent>)
    | Done

  datatype Poll = Pending | Ready(item: Option<Item>)

  predicate IsSuccess(status: nat) {
    200 <= status <= 299
  }

  predicate Contains(text: string, part: string) {
    part <= text || (text != "" && Contains(text[1..], part))
  }

  function OutboundError(url: string, detail: string): ProviderError {
    if Contains(detail, "HttpRequestDenied") then HostBlocked(url) else Unreachable(url, detail)
  }

  // ----- One poll -----

  /** `BodyStream::poll_next`. */
  function PollBody(body: seq<BodyEvent>): (Poll, State) {
    if body == [] then (Ready(None), Done)
    else match body[0]
      case Wait => (Pending, Body(body[1..]))
      case Data(bytes) => (Ready(Some(Success(bytes))), Body(body[1..]))
      case Trailers => (Ready(None), Done)
      case Broken(message) => (Ready(Some(Failure(BodyFailed(message)))), Body(body[1..]))
  }

  /** Polling the future that collects an error body. `detail` finds the error text in a body. */
  function PollError(detail: string -> string, status: nat, body: seq<BodyEvent>, collected: string): (Poll, State) {
    if status == 401 || status == 403 then (Ready(Some(Failure(Authentication))), Done)
    else if body == [] then (Ready(Some(Failure(HttpStatus(status, detail(collected))))), Done)
    else match body[0]
      case Wait => (Pending, ErrorBody(status, body[1..], collected))
      case Data(bytes) => PollError(detail, status, body[1..], collected + bytes)
      case Trailers => PollError(detail, status, body[1..], collected)
      case Broken(message) => (Ready(Some(Failure(ErrorBodyUnread(message)))), Done)
  }

  function Answered(response: Response): State {
    if IsSuccess(response.status) then Body(response.body) else ErrorBody(response.status, response.body, "")
  }

  function PollState(url: string, detail: string -> string, state: State): (Poll, State)
    decreases if state.Request? then 1 else 0
  {
    match state
    case Request(delay, outcome) =>
      if delay > 0 then (Pending, Request(delay - 1, outcome))
      else (match outcome
            case Failure(e) => (Ready(Some(Failure(OutboundError(url, e)))), Done)
            case Success(response) => PollState(url, detail, Answered(response)))
    case ErrorBody(status, body, collected) => PollError(detail, status, body, collected)
    case Body(body) => PollBody(body)
    case Done => (Ready(None), Done)
  }

  class SpinStream {
    const url: string
    const detail: string -> string
    var state: State

    constructor (url: string, detail: string -> string, delay: nat, outcome: Result<Response, string>)
      ensures this.url == url && this.detail == detail && state == Request(delay, outcome)
    {
      this.url, this.detail := url, detail;
      state := Request(delay, outcome);
    }

    /** The loop takes the state out, so that each branch puts the next one back. It goes round at
        most twice. */
    method PollNext() returns (poll: Poll, ghost rounds: nat)
      modifies this
      ensures (poll, state) == PollState(url, detail, old(state))
      ensures rounds <= 2
    {
      rounds := 0;
      ghost var start := state;
      while true
        invariant PollState(url, detail, state) == PollState(url, detail, start)
        invariant rounds == 0 || (rounds == 1 && !state.Request?)
        decreases 2 - rounds
      {
        rounds := rounds + 1;
        var taken := state;
        state := Done;
        match taken {
          case Request(delay, outcome) =>
            if delay > 0 {
              state := Request(delay - 1, outcome);
              return Pending, rounds;
            }
            match outcome {
              case Success(response) => state := Answered(response);
              case Failure(e) => return Ready(Some(Failure(OutboundError(url, e)))), rounds;
            }
          case ErrorBody(status, body, collected) =>
            var next;
            poll, next := CollectError(status, body, collected);
            state := next;
            return poll, rounds;
          case Body(body) =>
            var (answer, next) := PollBody(body);
            state := next;
            return answer, rounds;
          case Done =>
            return Ready(None), rounds;
        }
      }
    }

    method CollectError(status: nat, body: seq<BodyEvent>, collected: string) returns (poll: Poll, next: State)
      ensures (poll, next) == PollError(detail, status, body, collected)
    {
      if status == 401 || status == 403 {
        return Ready(Some(Failure(Authentication))), Done;
      }
      var bytes := collected;
      var i := 0;
      assert body[0..] == body;
      while i < |body|
        invariant i <= |body|
        invariant PollError(detail, status, body[i..], bytes) == PollError(detail, status, body, collected)
      {
        assert body[i..][1..] == body[i + 1..];
        match body[i] {
          case Wait => return Pending, ErrorBody(status, body[i + 1..], bytes);
          case Data(more) => bytes := bytes + more;
          case Trailers =>
          case Broken(message) => return Ready(Some(Failure(ErrorBodyUnread(message)))), Done;
        }
        i := i + 1;
      }
      return Ready(Some(Failure(HttpStatus(status, detail(bytes))))), Done;
    }
  }

  // ----- What a stream yields -----

  function Erased(events: seq<BodyEvent>): seq<BodyEvent> {
    if events == [] then []
    else if events[0].Wait? then Erased(events[1..])
    else [events[0]] + Erased(events[1..])
  }

  function Waits(events: seq<BodyEvent>): nat {
    if events == [] then 0 else (if events[0].Wait? then 1 else 0) + Waits(events[1..])
  }

  /** The items of a body: its chunks, and its failures, up to the first trailers. */
  function BodyItems(events: seq<BodyEvent>): seq<Item> {
    if events == [] || events[0].Trailers? then []
    else
      var rest := BodyItems(events[1..]);
      match events[0]
      case Data(bytes) => [Success(bytes)] + rest
      case Broken(message) => [Failure(BodyFailed(message))] + rest
      case _ => rest
  }

  /** All data, or the first failure. */
  function CollectedBody(events: seq<BodyEvent>): Result<string, string> {
    if events == [] then Success("")
    else match events[0]
      case Broken(message) => Failure(message)
      case Data(bytes) =>
        (match CollectedBody(events[1..])
         case Success(rest) => Success(bytes + rest)
         case Failure(message) => Failure(message))
      case _ => CollectedBody(events[1..])
  }

  function ErrorOf(detail: string -> string, status: nat, collected: string, events: seq<BodyEvent>): ProviderError {
    if status == 401 || status == 403 then Authentication
    else match CollectedBody(events)
      case Failure(message) => ErrorBodyUnread(message)
      case Success(rest) => HttpStatus(status, detail(collected + rest))
  }

  /** The items still to come, whatever the waits. */
  function Expected(url: string, detail: string -> string, state: State): seq<Item>
    decreases if state.Request? then 1 else 0
  {
    match state
    case Request(_, Failure(e)) => [Failure(OutboundError(url, e))]
    case Request(_, Success(response)) => Expected(url, detail, Answered(response))
    case ErrorBody(status, body, collected) => [Failure(ErrorOf(detail, status, collected, Erased(body)))]
    case Body(body) => BodyItems(Erased(body))
    case Done => []
  }

  /** The waits still to come. */
  function StateWaits(state: State): nat {
    match state
    case Request(delay, Failure(_)) => delay
    case Request(delay, Success(response)) => delay + Waits(response.body)
    case ErrorBody(_, body, _) => Waits(body)
    case Body(body) => Waits(body)
    case Done => 0
  }

  /** An answer given in one poll, against the items expected before it. */
  predicate Accounts(poll: Poll, before: seq<Item>, waitsBefore: nat, after: seq<Item>, waitsAfter: nat) {
    match poll
    case Pending => after == before && waitsAfter < waitsBefore
    case Ready(Some(item)) => before == [item] + after && waitsAfter <= waitsBefore
    case Ready(None) => before == [] && after == [] && waitsAfter <= waitsBefore
  }

  lemma PollBodyAccounts(body: seq<BodyEvent>, url: string, detail: string -> string)
    ensures var (poll, next) := PollBody(body);
            && Accounts(poll, BodyItems(Erased(body)), Waits(body), Expected(url, detail, next), StateWaits(next))
            && (poll == Ready(None) ==> next == Done)
  {
    if body != [] && !body[0].Wait? {
      assert Erased(body)[1..] == Erased(body[1..]);
    }
  }

  lemma {:induction false} CollectMore(collected: string, bytes: string, rest: string)
    ensures (collected + bytes) + rest == collected + (bytes + rest)
  {
  }

  lemma {:induction false} PollErrorAccounts(
    url: string, detail: string -> string, status: nat, body: seq<BodyEvent>, collected: string)
    ensures var (poll, next) := PollError(detail, status, body, collected);
            && Accounts(poll, [Failure(ErrorOf(detail, status, collected, Erased(body)))], Waits(body),
                        Expected(url, detail, next), StateWaits(next))
            && poll != Ready(None)
  {
    if status == 401 || status == 403 {
    } else if body == [] {
      assert collected + "" == collected;
    } else if !body[0].Wait? {
      assert Erased(body)[1..] == Erased(body[1..]);
      match body[0] {
        case Data(bytes) =>
          PollErrorAccounts(url, detail, status, body[1..], collected + bytes);
          var rest := CollectedBody(Erased(body[1..]));
          if rest.Success? {
            CollectMore(collected, bytes, rest.value);
          }
        case Trailers => PollErrorAccounts(url, detail, status, body[1..], collected);
        case Broken(_) =>
      }
    }
  }

  /** Each poll hands out the next expected item, uses up a wait, or says the stream is over. */
  lemma PollAccounts(url: string, detail: string -> string, state: State)
    ensures var (poll, next) := PollState(url, detail, state);
            && Accounts(poll, Expected(url, detail, state), StateWaits(state),
                        Expected(url, detail, next), StateWaits(next))
            && (poll == Ready(None) ==> next == Done)
    decreases if state.Request? then 1 else 0
  {
    match state {
      case Request(delay, outcome) =>
        if delay == 0 && outcome.Success? {
          PollAccounts(url, detail, Answered(outcome.value));
        }
      case ErrorBody(status, body, collected) => PollErrorAccounts(url, detail, status, body, collected);
      case Body(body) => PollBodyAccounts(body, url, detail);
      case Done =>
    }
  }

  // ----- Whole runs of polls -----

  /** The answers of `n` polls, with the pending ones left out. */
  function Answers(url: string, detail: string -> string, state: State, n: nat): seq<Option<Item>>
    decreases n
  {
    if n == 0 then []
    else
      var (poll, next) := PollState(url, detail, state);
      var later := Answers(url, detail, next, n - 1);
      if poll.Pending? then later else [poll.item] + later
  }

  /** The expected items, and then the end of the stream forever. */
  function ExpectedAnswer(items: seq<Item>, k: nat): Option<Item> {
    if k < |items| then Some(items[k]) else None
  }

  /** However the polls interleave with the waits, the answers are the expected items in order and
      then the end of the stream, and only as many polls are lost as there are waits. */
  lemma {:induction false} SchedulingDoesNotMatter(url: string, detail: string -> string, state: State, n: nat)
    ensures var answers := Answers(url, detail, state, n);
            && n - StateWaits(state) <= |answers| <= n
            && forall k :: 0 <= k < |answers| ==> answers[k] == ExpectedAnswer(Expected(url, detail, state), k)
    decreases n
  {
    if n > 0 {
      var (poll, next) := PollState(url, detail, state);
      PollAccounts(url, detail, state);
      SchedulingDoesNotMatter(url, detail, next, n - 1);
      var later := Answers(url, detail, next, n - 1);
      var answers := Answers(url, detail, state, n);
      if !poll.Pending? {
        forall k | 0 <= k < |answers| ensures answers[k] == ExpectedAnswer(Expected(url, detail, state), k) {
          if k > 0 {
            assert answers[k] == later[k - 1];
          }
        }
      }
    }
  }

  /** Forget the waits. */
  function WithoutWaits(state: State): State {
    match state
    case Request(_, Failure(e)) => Request(0, Failure(e))
    case Request(_, Success(response)) => Request(0, Success(Response(response.status, Erased(response.body))))
    case ErrorBody(status, body, collected) => ErrorBody(status, Erased(body), collected)
    case Body(body) => Body(Erased(body))
    case Done => Done
  }

  lemma {:induction false} ErasedTwice(events: seq<BodyEvent>)
    ensures Erased(Erased(events)) == Erased(events)
  {
    if events != [] {
      ErasedTwice(events[1..]);
      if !events[0].Wait? {
        assert Erased(events)[1..] == Erased(events[1..]);
      }
    }
  }

  lemma WaitsAreInvisible(url: string, detail: string -> string, state: State)
    ensures Expected(url, detail, WithoutWaits(state)) == Expected(url, detail, state)
  {
    match state {
      case Request(_, Success(response)) => ErasedTwice(response.body);
      case ErrorBody(_, body, _) => ErasedTwice(body);
      case Body(body) => ErasedTwice(body);
      case _ =>
    }
  }

  /** Two streams that differ only in their waits give the same answers, as far as both get. */
  lemma InterleavingsAgree(url: string, detail: string -> string, a: State, b: State, m: nat, n: nat, k: nat)
    requires WithoutWaits(a) == WithoutWaits(b)
    requires k < |Answers(url, detail, a, m)| && k < |Answers(url, detail, b, n)|
    ensures Answers(url, detail, a, m)[k] == Answers(url, detail, b, n)[k]
  {
    WaitsAreInvisible(url, detail, a);
    WaitsAreInvisible(url, detail, b);
    SchedulingDoesNotMatter(url, detail, a, m);
    SchedulingDoesNotMatter(url, detail, b, n);
  }

  lemma OneErrorExpected(url: string, detail: string -> string, delay: nat, outcome: Result<Response, string>)
    requires outcome.Success? ==> !IsSuccess(outcome.value.status)
    ensures var items := Expected(url, detail, Request(delay, outcome));
            |items| == 1 && items[0].Failure?
  {
  }

  /** A request that fails, or is answered without success, yields exactly one error and then the
      end of the stream forever, however it is polled. */
  lemma FailureYieldsOneError(url: string, detail: string -> string, delay: nat, outcome: Result<Response, string>,
                              n: nat, k: nat)
    requires outcome.Success? ==> !IsSuccess(outcome.value.status)
    requires k < |Answers(url, detail, Request(delay, outcome), n)|
    ensures var answer := Answers(url, detail, Request(delay, outcome), n)[k];
            if k == 0 then answer.Some? && answer.value.Failure? else answer.None?
  {
    SchedulingDoesNotMatter(url, detail, Request(delay, outcome), n);
    OneErrorExpected(url, detail, delay, outcome);
  }

  function BeforeTrailers(events: seq<BodyEvent>): seq<BodyEvent> {
    if events == [] || events[0].Trailers? then [] else [events[0]] + BeforeTrailers(events[1..])
  }

  function Chunks(events: seq<BodyEvent>): seq<Item> {
    if events == [] then []
    else if events[0].Data? then [Success(events[0].bytes)] + Chunks(events[1..])
    else Chunks(events[1..])
  }

  predicate Unbroken(events: seq<BodyEvent>) {
    forall i :: 0 <= i < |events| ==> !events[i].Broken?
  }

  lemma {:induction false} ItemsAreChunks(events: seq<BodyEvent>)
    requires Unbroken(BeforeTrailers(events))
    ensures BodyItems(Erased(events)) == Chunks(BeforeTrailers(events))
  {
    if events != [] && !events[0].Trailers? {
      var rest := BeforeTrailers(events[1..]);
      assert BeforeTrailers(events)[1..] == rest;
      assert BeforeTrailers(events)[0] == events[0];
      forall i | 0 <= i < |rest| ensures !rest[i].Broken? {
        assert BeforeTrailers(events)[i + 1] == rest[i];
      }
      ItemsAreChunks(events[1..]);
      if !events[0].Wait? {
        assert Erased(events)[1..] == Erased(events[1..]);
      }
    }
  }

  /** A successful response whose body does not break yields the chunks up to its first trailers,
      in order, and then the end of the stream forever, however it is polled. */
  lemma SuccessYieldsChunks(url: string, detail: string -> string, delay: nat, response: Response, n: nat, k: nat)
    requires IsSuccess(response.status) && Unbroken(BeforeTrailers(response.body))
    requires k < |Answers(url, detail, Request(delay, Success(response)), n)|
    ensures Answers(url, detail, Request(delay, Success(response)), n)[k]
            == ExpectedAnswer(Chunks(BeforeTrailers(response.body)), k)
  {
    ItemsAreChunks(response.body);
    SchedulingDoesNotMatter(url, detail, Request(delay, Success(response)), n);
    assert Expected(url, detail, Request(delay, Success(response))) == Expected(url, detail, Body(response.body));
  }
}
