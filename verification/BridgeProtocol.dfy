/** The life of a bridge connection: a reconnecting loop, the user's calls and the server's
    messages as the steps of a state machine. The socket's answers are part of the steps. */
module BridgeProtocol {

  datatype Status = Connecting | Ready(runs: bool) | Legacy | Rejected | Unavailable

  predicate TerminalReady(status: Status) {
    status.Ready? || status.Legacy?
  }

  /** Where the reconnect loop is suspended. */
  datatype Phase = Starting | Authorizing | Waiting | Lingering | Backoff(delay: nat) | Stopped

  /** The history of shells and kills. */
  datatype Entry = Spawned(id: string) | Exited(id: string) | KillAsked(id: string) | KillSent(id: string) | CloseAsked

  /** `held` is the connection's reference to itself; `handles` counts the references of its users. */
  datatype State = State(
    status: Status, shells: set<string>, pending: set<string>, closing: bool, closed: bool,
    held: bool, connected: bool, handles: nat, phase: Phase, attempts: nat, hungUp: bool, log: seq<Entry>)

  datatype ServerMessage = HelloOk(runs: bool) | HelloError | Error | ShellExited(id: string) | OtherMessage

  /** `sent` lists the kills the socket accepts during the step. */
  datatype Event =
    | Spawn(id: string, accepted: bool)
    | SendOther(accepted: bool)
    | KillShell(id: string, sent: seq<string>)
    | Close(sent: seq<string>)
    | Receive(message: ServerMessage, sent: seq<string>)
    | SocketClosed
    | SocketDropped
    | LoopBegins
    | Opened(ok: bool)
    | TimedOut(sent: seq<string>)
    | LoopEnds
    | CloneHandle
    | DropHandle

  const INITIAL := State(Connecting, {}, {}, false, false, false, false, 1, Starting, 0, false, [])

  predicate Alive(s: State) {
    s.handles > 0 || s.held
  }

  function Delay(attempts: nat): nat {
    if attempts == 0 then 1000 else if attempts == 1 then 2000 else if attempts == 2 then 5000
    else if attempts == 3 then 10000 else 30000
  }

  // ----- The steps -----

  /** `finish_close`: the loop is aborted with the rest. */
  function FinishClose(s: State): State {
    s.(closed := true, phase := Stopped, connected := false, status := Unavailable, held := false)
  }

  function SendKills(s: State, sent: seq<string>): State {
    if sent == [] then s
    else
      var before, id := SendKills(s, sent[..|sent| - 1]), sent[|sent| - 1];
      before.(pending := before.pending - {id}, shells := before.shells - {id}, log := before.log + [KillSent(id)])
  }

  /** Sending kills touches nothing else. */
  lemma {:induction false} SendKillsFrame(s: State, sent: seq<string>)
    ensures var after := SendKills(s, sent);
            after == s.(pending := after.pending, shells := after.shells, log := after.log)
  {
    if sent != [] {
      SendKillsFrame(s, sent[..|sent| - 1]);
    }
  }

  /** The kills a flush may get accepted: distinct pending ones, over a ready connection. */
  predicate FlushOk(s: State, sent: seq<string>) {
    && (forall i :: 0 <= i < |sent| ==> sent[i] in s.pending)
    && (forall i, j :: 0 <= i < j < |sent| ==> sent[i] != sent[j])
    && (sent != [] ==> TerminalReady(s.status) && s.connected)
  }

  /** `flush_kills`: it ends at the first kill that is not accepted. */
  function Flush(s: State, sent: seq<string>): State {
    if !TerminalReady(s.status) then s
    else
      var after := SendKills(s, sent);
      if after.pending == {} && s.closing then FinishClose(after) else after
  }

  function AskKill(s: State, id: string): State {
    s.(pending := s.pending + {id}, log := s.log + [KillAsked(id)])
  }

  function AskClose(s: State): State {
    s.(closing := true, pending := s.pending + s.shells, log := s.log + [CloseAsked])
  }

  function Hold(s: State): State {
    s.(held := true)
  }

  function EndAttempt(s: State): State {
    s.(connected := false, attempts := s.attempts + 1, phase := Backoff(Delay(s.attempts)))
  }

  predicate CanSend(s: State) {
    !s.closing && TerminalReady(s.status) && s.connected
  }

  /** A message that makes the connection ready flushes; the state it flushes from. */
  function Readied(s: State, message: ServerMessage): State {
    match message
    case HelloOk(runs) => s.(status := Ready(runs))
    case Error => if s.status == Connecting then s.(status := Legacy) else s
    case _ => s
  }

  predicate Flushes(s: State, message: ServerMessage) {
    message.HelloOk? || (message.Error? && s.status == Connecting)
  }

  predicate Enabled(s: State, e: Event) {
    match e
    case Spawn(_, accepted) => s.handles > 0 && (accepted ==> CanSend(s))
    case SendOther(accepted) => s.handles > 0 && (accepted ==> CanSend(s))
    case KillShell(id, sent) => s.handles > 0 && (if s.closed then sent == [] else FlushOk(AskKill(s, id), sent))
    case Close(sent) => s.handles > 0 && (if s.closing then sent == [] else FlushOk(AskClose(s), sent))
    case Receive(message, sent) =>
      Alive(s) && (if !s.closed && Flushes(s, message) then FlushOk(Readied(s, message), sent) else sent == [])
    case SocketClosed => Alive(s)
    case SocketDropped => Alive(s)
    case LoopBegins => s.phase.Starting? || s.phase.Backoff?
    case Opened(_) => s.phase == Authorizing
    case TimedOut(sent) =>
      && s.phase == Waiting && !s.hungUp
      && (if s.status == Connecting then FlushOk(s.(status := Legacy), sent) else sent == [])
    case LoopEnds => (s.phase == Waiting || s.phase == Lingering) && s.hungUp
    case CloneHandle => s.handles > 0
    case DropHandle => s.handles > 0
  }

  function Received(s: State, message: ServerMessage, sent: seq<string>): State {
    if s.closed then s
    else if Flushes(s, message) then Flush(Readied(s, message), sent)
    else match message
      case HelloError => s.(status := Rejected)
      case ShellExited(id) => s.(shells := s.shells - {id}, log := s.log + [Exited(id)])
      case _ => s
  }

  function Closed(s: State, sent: seq<string>): State {
    if s.closing then s
    else
      var asked := AskClose(s);
      if asked.pending == {} then FinishClose(asked) else Flush(Hold(asked), sent)
  }

  function Timeout(s: State, sent: seq<string>): State {
    var flushed := if s.status == Connecting then Flush(s.(status := Legacy), sent) else s;
    if flushed.closed then flushed
    else flushed.(phase := Lingering, attempts := if TerminalReady(flushed.status) then 0 else flushed.attempts)
  }

  function Step(s: State, e: Event): State
    requires Enabled(s, e)
  {
    match e
    case Spawn(id, accepted) =>
      if accepted then s.(shells := s.shells + {id}, log := s.log + [Spawned(id)]) else s
    case SendOther(_) => s
    case KillShell(id, sent) => if s.closed then s else Flush(AskKill(s, id), sent)
    case Close(sent) => Closed(s, sent)
    case Receive(message, sent) => Received(s, message, sent)
    case SocketClosed => if s.closed then s.(hungUp := true) else s.(hungUp := true, status := Unavailable)
    case SocketDropped => s.(hungUp := true)
    case LoopBegins => s.(status := Connecting, phase := Authorizing)
    case Opened(ok) =>
      if ok then s.(connected := true, phase := Waiting, hungUp := false) else EndAttempt(s.(status := Unavailable))
    case TimedOut(sent) => Timeout(s, sent)
    case LoopEnds => EndAttempt(s)
    case CloneHandle => s.(handles := s.handles + 1)
    case DropHandle =>
      var dropped := s.(handles := s.handles - 1);
      if Alive(dropped) then dropped else dropped.(phase := Stopped)
  }

  // ----- What the history says -----

  /** The shells that were spawned and have since neither exited nor been sent a kill. */
  function Live(log: seq<Entry>): set<string> {
    if log == [] then {}
    else
      var before := Live(log[..|log| - 1]);
      match log[|log| - 1]
      case Spawned(id) => before + {id}
      case Exited(id) => before - {id}
      case KillSent(id) => before - {id}
      case _ => before
  }

  /** The kills asked for, by id or by closing with live shells, and not sent since. */
  function Owed(log: seq<Entry>): set<string> {
    if log == [] then {}
    else
      var front := log[..|log| - 1];
      var before := Owed(front);
      match log[|log| - 1]
      case KillAsked(id) => before + {id}
      case CloseAsked => before + Live(front)
      case KillSent(id) => before - {id}
      case _ => before
  }

  /** No kill was sent that was not owed at the time, and no shell was spawned after closing. */
  predicate Honest(log: seq<Entry>) {
    if log == [] then true
    else
      var front := log[..|log| - 1];
      Honest(front)
      && match log[|log| - 1]
         case KillSent(id) => id in Owed(front)
         case Spawned(_) => CloseAsked !in front
         case CloseAsked => CloseAsked !in front
         case _ => true
  }

  /** The state says exactly what the history says. */
  predicate Faithful(s: State) {
    && s.shells == Live(s.log)
    && s.pending == Owed(s.log)
    && (s.closing <==> CloseAsked in s.log)
    && Honest(s.log)
    && (s.closing ==> s.shells <= s.pending)
  }

  /** Once closing, the connection keeps itself and its loop until nothing is owed. */
  predicate Orderly(s: State) {
    && (s.held <==> s.closing && !s.closed)
    && (s.phase == Stopped <==> s.closed || !Alive(s))
    && (s.closing && !s.closed ==> s.pending != {})
    && (s.closed ==> s.closing && s.pending == {} && s.shells == {} && !s.connected && s.status == Unavailable)
  }

  predicate Inv(s: State) {
    Faithful(s) && Orderly(s)
  }

  // ----- Every step keeps the invariant -----

  lemma LogPush(log: seq<Entry>, entry: Entry)
    ensures (log + [entry])[..|log + [entry]| - 1] == log
  {
  }

  lemma {:induction false} AllSentNothingPending(s: State, sent: seq<string>)
    ensures forall id :: id in SendKills(s, sent).pending <==> id in s.pending && id !in sent
  {
    if sent != [] {
      var n := |sent| - 1;
      AllSentNothingPending(s, sent[..n]);
      assert forall id :: id in sent <==> id in sent[..n] || id == sent[n];
    }
  }

  lemma KillKeeps(s: State, id: string)
    requires Faithful(s) && id in s.pending
    ensures Faithful(s.(pending := s.pending - {id}, shells := s.shells - {id}, log := s.log + [KillSent(id)]))
  {
    LogPush(s.log, KillSent(id));
    assert CloseAsked in s.log + [KillSent(id)] <==> CloseAsked in s.log;
  }

  lemma {:induction false} SendKillsKeeps(s: State, sent: seq<string>)
    requires Faithful(s) && FlushOk(s, sent)
    ensures Faithful(SendKills(s, sent))
  {
    if sent != [] {
      var n := |sent| - 1;
      assert sent[n] !in sent[..n];
      SendKillsKeeps(s, sent[..n]);
      AllSentNothingPending(s, sent[..n]);
      KillKeeps(SendKills(s, sent[..n]), sent[n]);
    }
  }

  lemma FlushKeeps(s: State, sent: seq<string>)
    requires Faithful(s) && FlushOk(s, sent) && !s.closed
    requires s.held <==> s.closing
    requires s.phase == Stopped <==> !Alive(s)
    requires s.closing ==> s.pending != {}
    ensures Inv(Flush(s, sent))
  {
    SendKillsKeeps(s, sent);
    SendKillsFrame(s, sent);
  }

  lemma AskKillKeeps(s: State, id: string)
    requires Faithful(s)
    ensures Faithful(AskKill(s, id))
  {
    LogPush(s.log, KillAsked(id));
  }

  lemma AskCloseKeeps(s: State)
    requires Faithful(s) && !s.closing
    ensures Faithful(AskClose(s))
  {
    LogPush(s.log, CloseAsked);
    assert (s.log + [CloseAsked])[|s.log|] == CloseAsked;
  }

  lemma ReceiveKeeps(s: State, message: ServerMessage, sent: seq<string>)
    requires Inv(s) && Enabled(s, Receive(message, sent))
    ensures Inv(Received(s, message, sent))
  {
    if !s.closed {
      if Flushes(s, message) {
        FlushKeeps(Readied(s, message), sent);
      } else if message.ShellExited? {
        ExitKeeps(s, message.id);
      }
    }
  }

  lemma ExitKeeps(s: State, id: string)
    requires Inv(s) && !s.closed
    ensures Inv(s.(shells := s.shells - {id}, log := s.log + [Exited(id)]))
  {
    LogPush(s.log, Exited(id));
  }

  lemma SpawnKeeps(s: State, id: string)
    requires Inv(s) && !s.closing
    ensures Inv(s.(shells := s.shells + {id}, log := s.log + [Spawned(id)]))
  {
    LogPush(s.log, Spawned(id));
  }

  lemma TimeoutKeeps(s: State, sent: seq<string>)
    requires Inv(s) && Enabled(s, TimedOut(sent))
    ensures Inv(Timeout(s, sent))
  {
    if s.status == Connecting {
      FlushKeeps(s.(status := Legacy), sent);
      SendKillsFrame(s.(status := Legacy), sent);
    }
  }

  lemma CloseKeeps(s: State, sent: seq<string>)
    requires Inv(s) && Enabled(s, Close(sent))
    ensures Inv(Closed(s, sent))
  {
    if !s.closing {
      AskCloseKeeps(s);
      var asked := AskClose(s);
      if asked.pending != {} {
        FlushKeeps(Hold(asked), sent);
      }
    }
  }

  lemma StepKeepsInvariant(s: State, e: Event)
    requires Inv(s) && Enabled(s, e)
    ensures Inv(Step(s, e))
  {
    match e {
      case Spawn(id, accepted) =>
        if accepted {
          SpawnKeeps(s, id);
        }
      case KillShell(id, sent) =>
        if !s.closed {
          AskKillKeeps(s, id);
          FlushKeeps(AskKill(s, id), sent);
        }
      case Close(sent) => CloseKeeps(s, sent);
      case Receive(message, sent) => ReceiveKeeps(s, message, sent);
      case TimedOut(sent) => TimeoutKeeps(s, sent);
      case _ =>
    }
  }

  // ----- What holds over every run -----

  /** The events can happen one after the other, from `s` on. */
  predicate IsRun(s: State, events: seq<Event>)
    decreases |events|
  {
    events == [] || (Enabled(s, events[0]) && IsRun(Step(s, events[0]), events[1..]))
  }

  function After(s: State, events: seq<Event>): State
    requires IsRun(s, events)
    decreases |events|
  {
    if events == [] then s else After(Step(s, events[0]), events[1..])
  }

  lemma {:induction false} RunKeepsInvariant(s: State, events: seq<Event>)
    requires Inv(s) && IsRun(s, events)
    ensures Inv(After(s, events))
    decreases |events|
  {
    if events != [] {
      StepKeepsInvariant(s, events[0]);
      RunKeepsInvariant(Step(s, events[0]), events[1..]);
    }
  }

  /** Every run of a new connection keeps the invariant. */
  lemma EveryRunIsOrderly(events: seq<Event>)
    requires IsRun(INITIAL, events)
    ensures Inv(After(INITIAL, events))
  {
    RunKeepsInvariant(INITIAL, events);
  }

  predicate SentLater(log: seq<Entry>, i: nat, id: string) {
    exists j :: i < j < |log| && log[j] == KillSent(id)
  }

  predicate EndedLater(log: seq<Entry>, i: nat, id: string) {
    exists j :: i < j < |log| && (log[j] == KillSent(id) || log[j] == Exited(id))
  }

  lemma {:induction false} AskedIsOwedOrSent(log: seq<Entry>, i: nat, id: string)
    requires i < |log| && log[i] == KillAsked(id)
    ensures id in Owed(log) || SentLater(log, i, id)
  {
    var n := |log| - 1;
    if i < n {
      AskedIsOwedOrSent(log[..n], i, id);
      if SentLater(log[..n], i, id) {
        var j :| i < j < n && log[..n][j] == KillSent(id);
        assert log[j] == KillSent(id);
      } else if log[n] == KillSent(id) {
        assert SentLater(log, i, id);
      }
    }
  }

  lemma {:induction false} SpawnedIsLiveOrEnded(log: seq<Entry>, i: nat, id: string)
    requires i < |log| && log[i] == Spawned(id)
    ensures id in Live(log) || EndedLater(log, i, id)
  {
    var n := |log| - 1;
    if i < n {
      SpawnedIsLiveOrEnded(log[..n], i, id);
      if EndedLater(log[..n], i, id) {
        var j :| i < j < n && (log[..n][j] == KillSent(id) || log[..n][j] == Exited(id));
        assert log[j] == KillSent(id) || log[j] == Exited(id);
      } else if log[n] == KillSent(id) || log[n] == Exited(id) {
        assert EndedLater(log, i, id);
      }
    }
  }

  /** No kill is lost: once asked for it stays pending until a socket has accepted it. */
  lemma NoKillIsLost(events: seq<Event>, i: nat, id: string)
    requires IsRun(INITIAL, events)
    requires var log := After(INITIAL, events).log; i < |log| && log[i] == KillAsked(id)
    ensures var s := After(INITIAL, events);
            id in s.pending || SentLater(s.log, i, id)
  {
    EveryRunIsOrderly(events);
    AskedIsOwedOrSent(After(INITIAL, events).log, i, id);
  }

  /** Asking for a kill before closure is recorded, whatever happens afterwards. */
  lemma KillIsRecorded(s: State, id: string, sent: seq<string>)
    requires Inv(s) && Enabled(s, KillShell(id, sent)) && !s.closed
    ensures var log := Step(s, KillShell(id, sent)).log;
            |s.log| < |log| && log[..|s.log|] == s.log && log[|s.log|] == KillAsked(id)
  {
    AskKillKeeps(s, id);
    LogGrows(AskKill(s, id), sent);
  }

  lemma {:induction false} LogGrows(s: State, sent: seq<string>)
    ensures s.log <= SendKills(s, sent).log && s.log <= Flush(s, sent).log
  {
    if sent != [] {
      LogGrows(s, sent[..|sent| - 1]);
    }
  }

  /** When the connection is closed nothing is pending, every kill asked for was sent, and every
      shell ever spawned has exited or been sent a kill since. */
  lemma ClosedIsClean(events: seq<Event>)
    requires IsRun(INITIAL, events) && After(INITIAL, events).closed
    ensures var s := After(INITIAL, events);
            && s.pending == {}
            && (forall i, id :: 0 <= i < |s.log| && s.log[i] == KillAsked(id) ==> SentLater(s.log, i, id))
            && (forall i, id :: 0 <= i < |s.log| && s.log[i] == Spawned(id) ==> EndedLater(s.log, i, id))
  {
    var s := After(INITIAL, events);
    EveryRunIsOrderly(events);
    forall i, id | 0 <= i < |s.log| && s.log[i] == KillAsked(id) ensures SentLater(s.log, i, id) {
      AskedIsOwedOrSent(s.log, i, id);
    }
    forall i, id | 0 <= i < |s.log| && s.log[i] == Spawned(id) ensures EndedLater(s.log, i, id) {
      SpawnedIsLiveOrEnded(s.log, i, id);
    }
  }

  /** While closing but not closed, the connection holds itself and its loop runs, even when its
      last user is gone. */
  lemma CleanupOutlivesItsUsers(events: seq<Event>)
    requires IsRun(INITIAL, events)
    ensures var s := After(INITIAL, events);
            s.closing && !s.closed ==> s.held && Alive(s) && s.phase != Stopped && s.pending != {}
  {
    EveryRunIsOrderly(events);
  }

  lemma ClosedStepKeeps(s: State, e: Event)
    requires Inv(s) && s.closed && Enabled(s, e)
    ensures var next := Step(s, e);
            next == s.(handles := next.handles, hungUp := next.hungUp)
  {
  }

  /** Closed is absorbing: whatever happens afterwards, nothing but the number of handles changes. */
  lemma {:induction false} ClosedIsAbsorbing(s: State, events: seq<Event>)
    requires Inv(s) && s.closed && IsRun(s, events)
    ensures var after := After(s, events);
            after == s.(handles := after.handles, hungUp := after.hungUp)
    decreases |events|
  {
    if events != [] {
      StepKeepsInvariant(s, events[0]);
      ClosedStepKeeps(s, events[0]);
      ClosedIsAbsorbing(Step(s, events[0]), events[1..]);
    }
  }

  /** The cleanup ends: while closing, a greeting closes the connection exactly when the socket
      accepts every pending kill. */
  lemma CleanupFinishes(s: State, runs: bool, sent: seq<string>)
    requires Inv(s) && s.closing && !s.closed
    requires Enabled(s, Receive(HelloOk(runs), sent))
    ensures Step(s, Receive(HelloOk(runs), sent)).closed <==> forall id :: id in s.pending ==> id in sent
  {
    var ready := s.(status := Ready(runs));
    SendKillsFrame(ready, sent);
    AllSentNothingPending(ready, sent);
  }

  /** Events that need nothing of the connection's users. */
  predicate OfTheNetwork(events: seq<Event>) {
    forall i :: 0 <= i < |events| ==>
      events[i].LoopBegins? || events[i].Opened? || events[i].Receive? || events[i].SocketClosed? || events[i].LoopEnds?
  }

  predicate Distinct(ids: seq<string>) {
    forall i, j :: 0 <= i < j < |ids| ==> ids[i] != ids[j]
  }

  /** The members of a set, one after the other. */
  lemma {:induction false} Listed(ids: set<string>) returns (list: seq<string>)
    ensures Distinct(list)
    ensures forall id :: id in list <==> id in ids
    decreases |ids|
  {
    list := [];
    if ids != {} {
      var id :| id in ids;
      var rest := Listed(ids - {id});
      list := rest + [id];
    }
  }

  lemma RunFirst(s: State, e: Event, rest: seq<Event>)
    requires Enabled(s, e) && IsRun(Step(s, e), rest)
    ensures IsRun(s, [e] + rest) && After(s, [e] + rest) == After(Step(s, e), rest)
  {
    assert ([e] + rest)[1..] == rest;
  }

  lemma OfTheNetworkFirst(e: Event, rest: seq<Event>)
    requires OfTheNetwork([e]) && OfTheNetwork(rest)
    ensures OfTheNetwork([e] + rest)
  {
    assert [e][0] == e;
  }

  /** The run closes the connection, from here on, without its users. */
  predicate Closes(s: State, events: seq<Event>) {
    IsRun(s, events) && OfTheNetwork(events) && After(s, events).closed
  }

  lemma ClosesFirst(s: State, e: Event, rest: seq<Event>)
    requires Enabled(s, e) && Closes(Step(s, e), rest) && OfTheNetwork([e])
    ensures Closes(s, [e] + rest)
  {
    RunFirst(s, e, rest);
    OfTheNetworkFirst(e, rest);
  }

  lemma GreetedCloses(s: State) returns (events: seq<Event>)
    requires Inv(s) && s.closing && !s.closed && s.connected
    ensures Closes(s, events)
  {
    var sent := Listed(s.pending);
    var greeting := Receive(HelloOk(true), sent);
    assert Enabled(s, greeting);
    CleanupFinishes(s, true, sent);
    events := [greeting];
    assert events[1..] == [] && IsRun(Step(s, greeting), []);
    assert After(s, events) == Step(s, greeting);
  }

  lemma OpenedCloses(s: State) returns (events: seq<Event>)
    requires Inv(s) && s.closing && !s.closed && s.phase == Authorizing
    ensures Closes(s, events)
  {
    StepKeepsInvariant(s, Opened(true));
    var rest := GreetedCloses(Step(s, Opened(true)));
    ClosesFirst(s, Opened(true), rest);
    events := [Opened(true)] + rest;
  }

  lemma AttemptCloses(s: State) returns (events: seq<Event>)
    requires Inv(s) && s.closing && !s.closed && (s.phase == Starting || s.phase.Backoff?)
    ensures Closes(s, events)
  {
    StepKeepsInvariant(s, LoopBegins);
    var rest := OpenedCloses(Step(s, LoopBegins));
    ClosesFirst(s, LoopBegins, rest);
    events := [LoopBegins] + rest;
  }

  lemma HungUpCloses(s: State) returns (events: seq<Event>)
    requires Inv(s) && s.closing && !s.closed && (s.phase == Waiting || s.phase == Lingering) && s.hungUp
    ensures Closes(s, events)
  {
    StepKeepsInvariant(s, LoopEnds);
    var rest := AttemptCloses(Step(s, LoopEnds));
    ClosesFirst(s, LoopEnds, rest);
    events := [LoopEnds] + rest;
  }

  lemma WaitingCloses(s: State) returns (events: seq<Event>)
    requires Inv(s) && s.closing && !s.closed && (s.phase == Waiting || s.phase == Lingering)
    ensures Closes(s, events)
  {
    StepKeepsInvariant(s, SocketClosed);
    var rest := HungUpCloses(Step(s, SocketClosed));
    ClosesFirst(s, SocketClosed, rest);
    events := [SocketClosed] + rest;
  }

  /** The cleanup can always finish: after every run that leaves the connection closing, the network
      alone can bring it to a close. */
  lemma CleanupCanFinish(events: seq<Event>) returns (more: seq<Event>)
    requires IsRun(INITIAL, events) && After(INITIAL, events).closing && !After(INITIAL, events).closed
    ensures IsRun(After(INITIAL, events), more) && OfTheNetwork(more)
    ensures After(After(INITIAL, events), more).closed
  {
    EveryRunIsOrderly(events);
    var s := After(INITIAL, events);
    if s.phase == Authorizing {
      more := OpenedCloses(s);
    } else if s.phase == Waiting || s.phase == Lingering {
      more := WaitingCloses(s);
    } else {
      more := AttemptCloses(s);
    }
  }
}
