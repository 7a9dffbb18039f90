/** What each event does to a connection, event by event. */
module BridgeLaws {
  import opened BridgeProtocol

  // ----- Readiness -----

  /** Messages are accepted, and kills sent, only over a socket whose server has answered the greeting
      or is taken for a legacy one. */
  lemma SendsNeedAnAnswer(s: State, id: string, sent: seq<string>)
    ensures Enabled(s, Spawn(id, true)) <==>
              s.handles > 0 && !s.closing && s.connected && (s.status.Ready? || s.status == Legacy)
    ensures Enabled(s, SendOther(true)) <==> Enabled(s, Spawn(id, true))
    ensures FlushOk(s, sent) && sent != [] ==> s.connected && (s.status.Ready? || s.status == Legacy)
  {
  }

  // ----- Status -----

  function StatusAfter(status: Status, e: Event): Status {
    match e
    case LoopBegins => Connecting
    case Opened(false) => Unavailable
    case SocketClosed => Unavailable
    case Receive(HelloOk(runs), _) => Ready(runs)
    case Receive(HelloError, _) => Rejected
    case Receive(Error, _) => if status == Connecting then Legacy else status
    case TimedOut(_) => if status == Connecting then Legacy else status
    case _ => status
  }

  /** A flush changes nothing but what it sends, unless it closes the connection. */
  predicate FlushKept(s: State, after: State) {
    && after.attempts == s.attempts
    && if after.closed && !s.closed then after.status == Unavailable && !after.connected
       else after.status == s.status && after.phase == s.phase && after.connected == s.connected
            && after.closed == s.closed && after.hungUp == s.hungUp
  }

  lemma FlushKeepsRest(s: State, sent: seq<string>)
    requires !s.closed
    ensures FlushKept(s, Flush(s, sent))
  {
    SendKillsFrame(s, sent);
  }

  /** Closed, nothing but the number of handles and the hang-up mark can change. */
  lemma ClosedKeepsRest(s: State, e: Event)
    requires Orderly(s) && Enabled(s, e) && s.closed
    ensures var next := Step(s, e); next == s.(handles := next.handles, hungUp := next.hungUp)
  {
  }

  lemma ReceiveKeepsRest(s: State, message: ServerMessage, sent: seq<string>)
    requires !s.closed && Enabled(s, Receive(message, sent))
    ensures FlushKept(s.(status := StatusAfter(s.status, Receive(message, sent))), Received(s, message, sent))
  {
    if Flushes(s, message) {
      FlushKeepsRest(Readied(s, message), sent);
    }
  }

  lemma TimeoutKeepsRest(s: State, sent: seq<string>)
    requires !s.closed && Enabled(s, TimedOut(sent))
    ensures var next := Timeout(s, sent);
            if next.closed then next.status == Unavailable && !next.connected && next.attempts == s.attempts
            else && next.status == StatusAfter(s.status, TimedOut(sent)) && next.connected == s.connected
                 && next.phase == Lingering
                 && next.attempts == if next.status.Ready? || next.status == Legacy then 0 else s.attempts
  {
    FlushKeepsRest(s.(status := Legacy), sent);
  }

  lemma KillKeepsRest(s: State, id: string, sent: seq<string>)
    requires !s.closed
    ensures FlushKept(s, Flush(AskKill(s, id), sent))
  {
    FlushKeepsRest(AskKill(s, id), sent);
  }

  lemma CloseKeepsRest(s: State, sent: seq<string>)
    requires !s.closed
    ensures FlushKept(s, Closed(s, sent))
  {
    FlushKeepsRest(Hold(AskClose(s)), sent);
  }

  /** What an event does beside the history. */
  predicate Follows(s: State, e: Event, next: State) {
    && next.status == (if next.closed then Unavailable else StatusAfter(s.status, e))
    && next.connected == (!next.closed && (if e.Opened? then e.ok else !e.LoopEnds? && s.connected))
    && next.attempts == AttemptsAfter(s.attempts, e, next)
  }

  /** An attempt that ends is counted; one that was of use for two seconds starts the count over. */
  function AttemptsAfter(attempts: nat, e: Event, next: State): nat {
    if e.LoopEnds? || e == Opened(false) then attempts + 1
    else if e.TimedOut? && !next.closed && (next.status.Ready? || next.status == Legacy) then 0
    else attempts
  }

  /** Status, socket and number of attempts follow the events, until the connection is closed and
      unavailable for good. */
  lemma EventsAreFollowed(s: State, e: Event)
    requires Orderly(s) && Enabled(s, e)
    ensures Follows(s, e, Step(s, e))
  {
    if s.closed {
      ClosedKeepsRest(s, e);
    } else {
      match e {
        case KillShell(id, sent) => KillKeepsRest(s, id, sent);
        case Close(sent) => CloseKeepsRest(s, sent);
        case Receive(message, sent) => ReceiveKeepsRest(s, message, sent);
        case TimedOut(sent) => TimeoutKeepsRest(s, sent);
        case _ =>
      }
    }
  }

  // ----- The loop -----

  /** The delay before the next attempt, in milliseconds. */
  function DelayAfter(failures: nat): nat {
    match failures
    case 0 => 1000
    case 1 => 2000
    case 2 => 5000
    case 3 => 10000
    case _ => 30000
  }

  function PhaseAfter(s: State, e: Event): Phase {
    match e
    case LoopBegins => Authorizing
    case Opened(true) => Waiting
    case Opened(false) => Backoff(DelayAfter(s.attempts))
    case LoopEnds => Backoff(DelayAfter(s.attempts))
    case TimedOut(_) => Lingering
    case _ => s.phase
  }

  /** Where the loop goes from where it waits: each failed attempt waits longer, up to half a minute. */
  lemma LoopFollows(s: State, e: Event)
    requires Orderly(s) && Enabled(s, e) && !Step(s, e).closed && Alive(Step(s, e))
    ensures Step(s, e).phase == PhaseAfter(s, e)
    ensures Step(s, e).hungUp == (e.SocketClosed? || e.SocketDropped? || (e != Opened(true) && s.hungUp))
  {
    match e {
      case KillShell(id, sent) => KillKeepsRest(s, id, sent);
      case Close(sent) => CloseKeepsRest(s, sent);
      case Receive(message, sent) => ReceiveKeepsRest(s, message, sent);
      case TimedOut(sent) =>
        TimeoutKeepsRest(s, sent);
        FlushKeepsRest(s.(status := Legacy), sent);
      case _ =>
    }
  }

  // ----- The history -----

  function KillsSent(sent: seq<string>): seq<Entry> {
    if sent == [] then [] else KillsSent(sent[..|sent| - 1]) + [KillSent(sent[|sent| - 1])]
  }

  lemma {:induction false} SendKillsLog(s: State, sent: seq<string>)
    ensures SendKills(s, sent).log == s.log + KillsSent(sent)
  {
    if sent == [] {
      assert s.log + [] == s.log;
    } else {
      SendKillsLog(s, sent[..|sent| - 1]);
    }
  }

  lemma FlushLog(s: State, sent: seq<string>)
    requires FlushOk(s, sent)
    ensures Flush(s, sent).log == s.log + KillsSent(sent)
  {
    SendKillsLog(s, sent);
  }

  /** What an event adds to the history before any kill is sent. */
  function Recorded(s: State, e: Event): seq<Entry> {
    match e
    case Spawn(id, true) => [Spawned(id)]
    case KillShell(id, _) => if s.closed then [] else [KillAsked(id)]
    case Close(_) => if s.closing then [] else [CloseAsked]
    case Receive(ShellExited(id), _) => if s.closed then [] else [Exited(id)]
    case _ => []
  }

  function SentBy(e: Event): seq<string> {
    match e
    case KillShell(_, sent) => sent
    case Close(sent) => sent
    case Receive(_, sent) => sent
    case TimedOut(sent) => sent
    case _ => []
  }

  lemma NothingMore(log: seq<Entry>)
    ensures log + [] == log
  {
  }

  lemma CloseLog(s: State, sent: seq<string>)
    requires Enabled(s, Close(sent))
    ensures Closed(s, sent).log == s.log + Recorded(s, Close(sent)) + KillsSent(sent)
  {
    NothingMore(s.log);
    if !s.closing {
      if sent != [] {
        assert sent[0] in AskClose(s).pending;
      }
      NothingMore(AskClose(s).log);
      FlushLog(Hold(AskClose(s)), sent);
    }
  }

  lemma ReceiveLog(s: State, message: ServerMessage, sent: seq<string>)
    requires Enabled(s, Receive(message, sent))
    ensures Received(s, message, sent).log == s.log + Recorded(s, Receive(message, sent)) + KillsSent(sent)
  {
    NothingMore(s.log);
    if !s.closed && Flushes(s, message) {
      FlushLog(Readied(s, message), sent);
    } else {
      NothingMore(s.log + Recorded(s, Receive(message, sent)));
    }
  }

  lemma TimeoutLog(s: State, sent: seq<string>)
    requires Enabled(s, TimedOut(sent))
    ensures Timeout(s, sent).log == s.log + KillsSent(sent)
  {
    if s.status == Connecting {
      FlushLog(s.(status := Legacy), sent);
    } else {
      NothingMore(s.log);
    }
  }

  /** Every spawn accepted, exit reported, kill asked for, closure and kill sent is in the history,
      and nothing else is. */
  lemma HistoryIsRecorded(s: State, e: Event)
    requires Enabled(s, e)
    ensures Step(s, e).log == s.log + Recorded(s, e) + KillsSent(SentBy(e))
  {
    NothingMore(s.log);
    match e {
      case KillShell(id, sent) =>
        if !s.closed {
          FlushLog(AskKill(s, id), sent);
        }
      case Close(sent) => CloseLog(s, sent);
      case Receive(message, sent) => ReceiveLog(s, message, sent);
      case TimedOut(sent) => TimeoutLog(s, sent);
      case _ => NothingMore(s.log + Recorded(s, e));
    }
  }

  // ----- What can happen when -----

  /** The socket takes these kills: over a ready connection, distinct ones, all of them `allowed`. */
  predicate Takes(s: State, sent: seq<string>, allowed: set<string>, ready: bool) {
    sent == [] || (ready && s.connected && Distinct(sent) && forall i :: 0 <= i < |sent| ==> sent[i] in allowed)
  }

  /** Users act while they hold the connection. A kill is sent at the latest when it is asked for over a
      ready connection; with a closure every live shell is. */
  lemma UsersActWhileTheyHold(s: State, id: string, sent: seq<string>)
    ensures var ready := s.status.Ready? || s.status == Legacy;
            && (Enabled(s, KillShell(id, sent)) <==>
                  s.handles > 0 && Takes(s, sent, s.pending + {id}, !s.closed && ready))
            && (Enabled(s, Close(sent)) <==>
                  s.handles > 0 && Takes(s, sent, s.pending + s.shells, !s.closing && ready))
    ensures Enabled(s, SendOther(false)) <==> s.handles > 0
    ensures Enabled(s, Spawn(id, false)) <==> s.handles > 0
    ensures Enabled(s, CloneHandle) <==> s.handles > 0
    ensures Enabled(s, DropHandle) <==> s.handles > 0
  {
  }

  /** Messages arrive while anyone holds the connection, be it itself. Kills are sent upon a greeting, and
      upon an error that answers one. */
  lemma MessagesArriveWhileHeld(s: State, message: ServerMessage, sent: seq<string>)
    ensures Enabled(s, Receive(message, sent)) <==>
              && (s.handles > 0 || s.held)
              && Takes(s, sent, s.pending,
                       !s.closed && (message.HelloOk? || (message == Error && s.status == Connecting)))
    ensures Enabled(s, SocketClosed) <==> s.handles > 0 || s.held
    ensures Enabled(s, SocketDropped) <==> s.handles > 0 || s.held
  {
  }

  /** The loop goes on from where it waits. */
  lemma LoopGoesOn(s: State, ok: bool, sent: seq<string>)
    ensures Enabled(s, LoopBegins) <==> s.phase == Starting || s.phase.Backoff?
    ensures Enabled(s, Opened(ok)) <==> s.phase == Authorizing
    ensures Enabled(s, TimedOut(sent)) <==>
              s.phase == Waiting && !s.hungUp && Takes(s, sent, s.pending, s.status == Connecting)
    ensures Enabled(s, LoopEnds) <==> (s.phase == Waiting || s.phase == Lingering) && s.hungUp
  {
  }

  /** A connection begins with one user, before its first attempt, which if it fails is followed by
      another after a second. */
  lemma BeginsWithOneUser()
    ensures INITIAL.status == Connecting && !INITIAL.connected && !INITIAL.hungUp && INITIAL.log == []
    ensures Step(INITIAL, DropHandle).phase == Stopped
    ensures Step(Step(INITIAL, LoopBegins), Opened(false)).phase == Backoff(1000)
  {
    assert Enabled(Step(INITIAL, LoopBegins), Opened(false));
  }

  lemma FlushKeepsHandles(s: State, sent: seq<string>)
    ensures Flush(s, sent).handles == s.handles
  {
    SendKillsFrame(s, sent);
  }

  lemma MessageKeepsHandles(s: State, message: ServerMessage, sent: seq<string>)
    ensures Received(s, message, sent).handles == s.handles
  {
    FlushKeepsHandles(Readied(s, message), sent);
  }

  lemma TimeoutKeepsHandles(s: State, sent: seq<string>)
    ensures Timeout(s, sent).handles == s.handles
  {
    FlushKeepsHandles(s.(status := Legacy), sent);
  }

  lemma CallsKeepHandles(s: State, id: string, sent: seq<string>)
    ensures Flush(AskKill(s, id), sent).handles == s.handles && Closed(s, sent).handles == s.handles
  {
    FlushKeepsHandles(AskKill(s, id), sent);
    FlushKeepsHandles(Hold(AskClose(s)), sent);
  }

  function HandlesAfter(handles: nat, e: Event): int {
    match e
    case CloneHandle => handles + 1
    case DropHandle => handles - 1
    case _ => handles
  }

  /** Users come and go one at a time. */
  lemma UsersAreCounted(s: State, e: Event)
    requires Enabled(s, e)
    ensures Step(s, e).handles == HandlesAfter(s.handles, e)
  {
    match e {
      case KillShell(id, sent) => CallsKeepHandles(s, id, sent);
      case Close(sent) => CallsKeepHandles(s, "", sent);
      case Receive(message, sent) => MessageKeepsHandles(s, message, sent);
      case TimedOut(sent) => TimeoutKeepsHandles(s, sent);
      case _ =>
    }
  }

  /** The loop stops with the last user, unless the connection holds itself. */
  lemma LoopStopsWithTheLast(s: State)
    requires s.handles > 0
    ensures Step(s, DropHandle).phase == if s.handles == 1 && !s.held then Stopped else s.phase
    ensures Step(s, DropHandle) == s.(handles := s.handles - 1, phase := Step(s, DropHandle).phase)
  {
  }

  // ----- The history of any run -----

  lemma {:induction false} LiveWasSpawned(log: seq<Entry>, id: string)
    requires id in Live(log)
    ensures Spawned(id) in log
  {
    var front := log[..|log| - 1];
    if id in Live(front) {
      LiveWasSpawned(front, id);
      assert front <= log;
    }
  }

  /** The kill of this shell, or with the closure that of every shell spawned before. */
  predicate AsksFor(log: seq<Entry>, j: nat, id: string)
    requires j < |log|
  {
    log[j] == KillAsked(id) || (log[j] == CloseAsked && Spawned(id) in log[..j])
  }

  lemma {:induction false} OwedWasAskedFor(log: seq<Entry>, id: string)
    requires id in Owed(log)
    ensures exists j :: 0 <= j < |log| && AsksFor(log, j, id)
  {
    var n := |log| - 1;
    var front := log[..n];
    if id in Owed(front) {
      OwedWasAskedFor(front, id);
      var j :| 0 <= j < n && AsksFor(front, j, id);
      assert front[..j] == log[..j];
      assert AsksFor(log, j, id);
    } else if log[n] == CloseAsked {
      LiveWasSpawned(front, id);
      assert AsksFor(log, n, id);
    } else {
      assert AsksFor(log, n, id);
    }
  }

  lemma {:induction false} HonestBefore(log: seq<Entry>, i: nat)
    requires Honest(log) && i <= |log|
    ensures Honest(log[..i])
  {
    if i < |log| {
      HonestBefore(log[..|log| - 1], i);
      assert log[..|log| - 1][..i] == log[..i];
    } else {
      assert log[..i] == log;
    }
  }

  lemma HonestEntry(log: seq<Entry>, i: nat)
    requires Honest(log) && i < |log|
    ensures log[i].KillSent? ==> log[i].id in Owed(log[..i])
    ensures log[i].Spawned? || log[i].CloseAsked? ==> CloseAsked !in log[..i]
  {
    HonestBefore(log, i + 1);
    assert log[..i + 1][..i] == log[..i];
  }

  /** In every run a kill is sent only after it was asked for, or the connection was asked to close after
      the shell was spawned. */
  lemma KillsWereAskedFor(events: seq<Event>, i: nat, id: string)
    requires IsRun(INITIAL, events)
    requires var log := After(INITIAL, events).log; i < |log| && log[i] == KillSent(id)
    ensures var log := After(INITIAL, events).log;
            exists j :: 0 <= j < i && AsksFor(log, j, id)
  {
    var log := After(INITIAL, events).log;
    EveryRunIsOrderly(events);
    HonestEntry(log, i);
    OwedWasAskedFor(log[..i], id);
    var j :| 0 <= j < i && AsksFor(log[..i], j, id);
    assert log[..i][..j] == log[..j];
    assert AsksFor(log, j, id);
  }

  /** In every run nothing is spawned, and no closure begins, after the closure. */
  lemma ClosureIsLast(events: seq<Event>, i: nat, j: nat)
    requires IsRun(INITIAL, events)
    requires var log := After(INITIAL, events).log; i < j < |log| && log[i] == CloseAsked
    ensures var log := After(INITIAL, events).log; !log[j].Spawned? && !log[j].CloseAsked?
  {
    var log := After(INITIAL, events).log;
    EveryRunIsOrderly(events);
    HonestEntry(log, j);
    assert log[..j][i] == CloseAsked;
  }
}
