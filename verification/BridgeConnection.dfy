/** The bridge connection as the client keeps it: cells updated by the user's calls, the server's
    messages and the reconnect loop. Each step keeps the protocol's invariant. */
module BridgeConnection {
  import opened BridgeProtocol

  // ----- What the socket answers during a flush -----

  ghost function Accepted(n: nat): (answers: seq<bool>)
    ensures |answers| == n
  {
    seq(n, i => true)
  }

  /** The answers when these kills were accepted, and the next one, if any is left, refused. */
  ghost function Answered(pending: set<string>, sent: seq<string>): seq<bool> {
    if forall id :: id in pending ==> id in sent then Accepted(|sent|) else Accepted(|sent|) + [false]
  }

  /** Over a ready connection every pending kill is handed to the socket, up to the first it refuses. */
  ghost predicate Tried(
    before: seq<bool>, after: seq<bool>, status: Status, pending: set<string>, sent: seq<string>)
  {
    after == if TerminalReady(status) then before + Answered(pending, sent) else before
  }

  lemma RefusedAnswers(pending: set<string>, sent: seq<string>, id: string)
    requires id in pending && id !in sent
    ensures Answered(pending, sent) == Accepted(|sent|) + [false]
  {
  }

  ghost function Killed(s: State, id: string): State {
    s.(pending := s.pending - {id}, shells := s.shells - {id}, log := s.log + [KillSent(id)])
  }

  /** A flush under way: `sent` is accepted, `ids` are left. */
  ghost predicate Flushing(start: State, now: State, ids: set<string>, sent: seq<string>) {
    && now == SendKills(start, sent)
    && ids == now.pending
    && FlushOk(start, sent)
    && TerminalReady(start.status)
    && (forall id :: id in start.pending <==> id in ids || id in sent)
    && (forall id :: id in ids ==> id !in sent)
  }

  lemma FlushingKeepsRest(start: State, now: State, ids: set<string>, sent: seq<string>)
    requires Flushing(start, now, ids, sent)
    ensures now.connected == start.connected && now.closing == start.closing && now.status == start.status
  {
    SendKillsFrame(start, sent);
  }

  lemma KilledNext(start: State, sent: seq<string>, id: string)
    ensures SendKills(start, sent + [id]) == Killed(SendKills(start, sent), id)
  {
    var longer := sent + [id];
    assert longer[..|longer| - 1] == sent;
  }

  lemma FlushOkNext(start: State, sent: seq<string>, id: string)
    requires FlushOk(start, sent) && TerminalReady(start.status) && start.connected
    requires id in start.pending && id !in sent
    ensures FlushOk(start, sent + [id])
  {
  }

  lemma FlushingNext(start: State, ids: set<string>, sent: seq<string>, id: string)
    requires Flushing(start, SendKills(start, sent), ids, sent) && id in ids && start.connected
    ensures Flushing(start, Killed(SendKills(start, sent), id), ids - {id}, sent + [id])
    ensures Accepted(|sent|) + [true] == Accepted(|sent + [id]|)
  {
    KilledNext(start, sent, id);
    FlushOkNext(start, sent, id);
    assert forall other :: other in sent + [id] <==> other in sent || other == id;
  }

  class Connection {
    var status: Status
    var shells: set<string>
    var pendingKills: set<string>
    var closing: bool
    var closed: bool
    var cleanupConnection: bool
    var socket: bool
    var attempts: nat
    var phase: Phase
    var hungUp: bool
    var handles: nat
    ghost var log: seq<Entry>
    /** What the socket answered to each message handed to it. */
    ghost var answers: seq<bool>

    /** The protocol state the cells stand for. */
    ghost function Now(): State
      reads this
    {
      State(status, shells, pendingKills, closing, closed, cleanupConnection, socket, handles, phase, attempts, hungUp,
            log)
    }

    ghost predicate Valid()
      reads this
    {
      Inv(Now())
    }

    constructor ()
      ensures Valid() && Now() == INITIAL
    {
      status := Connecting;
      shells, pendingKills := {}, {};
      closing, closed, cleanupConnection, socket := false, false, false, false;
      attempts, phase, hungUp, handles := 0, Starting, false, 1;
      log, answers := [], [];
    }

    /** Whether the socket takes a message is up to the network. */
    method SocketSend() returns (accepted: bool)
      modifies `answers
      ensures accepted ==> socket
      ensures answers == old(answers) + [accepted]
    {
      accepted := *;
      accepted := accepted && socket;
      answers := answers + [accepted];
    }

    /** `send` of a message that spawns a shell. */
    method SendSpawn(id: string) returns (accepted: bool)
      requires Valid() && handles > 0
      modifies this
      ensures Valid() && Enabled(old(Now()), Spawn(id, accepted))
      ensures Now() == Step(old(Now()), Spawn(id, accepted))
      ensures answers == old(answers) + (if old(MaySend()) then [accepted] else [])
    {
      ghost var before := Now();
      accepted := Send();
      if accepted {
        shells := shells + {id};
        log := log + [Spawned(id)];
        assert Now() == before.(shells := before.shells + {id}, log := before.log + [Spawned(id)]);
      } else {
        assert Now() == before;
      }
      assert Now() == Step(before, Spawn(id, accepted));
      StepKeepsInvariant(before, Spawn(id, accepted));
    }

    /** The tests before a message is handed to the socket. */
    predicate MaySend()
      reads this
    {
      !closing && (status.Ready? || status == Legacy)
    }

    /** `send` of any other message: it leaves the connection as it is. The socket alone decides, once
        the tests are passed. */
    method Send() returns (accepted: bool)
      modifies `answers
      ensures accepted ==> CanSend(Now())
      ensures answers == old(answers) + (if MaySend() then [accepted] else [])
      ensures !MaySend() ==> !accepted
    {
      if closing || !TerminalReady(status) {
        return false;
      }
      accepted := SocketSend();
    }

    method Kill(id: string) returns (ghost sent: seq<string>)
      requires Valid() && handles > 0
      modifies this
      ensures Valid() && Enabled(old(Now()), KillShell(id, sent))
      ensures Now() == Step(old(Now()), KillShell(id, sent))
      ensures !old(closed) ==> Tried(old(answers), answers, old(status), old(pendingKills) + {id}, sent)
    {
      ghost var before := Now();
      sent := [];
      if closed {
        return;
      }
      pendingKills := pendingKills + {id};
      log := log + [KillAsked(id)];
      sent := FlushKills();
      StepKeepsInvariant(before, KillShell(id, sent));
    }

    /** The pending kills are tried in an arbitrary order, up to the first that is not accepted. */
    method FlushKills() returns (ghost sent: seq<string>)
      modifies this
      ensures FlushOk(old(Now()), sent)
      ensures Now() == Flush(old(Now()), sent)
      ensures Tried(old(answers), answers, old(status), old(pendingKills), sent)
    {
      sent := [];
      if !TerminalReady(status) {
        return;
      }
      ghost var start, before := Now(), answers;
      var ids := pendingKills;
      while ids != {}
        invariant Flushing(start, Now(), ids, sent)
        invariant answers == before + Accepted(|sent|)
        decreases ids
      {
        FlushingKeepsRest(start, Now(), ids, sent);
        var id :| id in ids;
        var accepted := TryKill(id);
        if !accepted {
          RefusedAnswers(start.pending, sent, id);
          return;
        }
        FlushingNext(start, ids, sent, id);
        ids := ids - {id};
        sent := sent + [id];
      }
      FlushingKeepsRest(start, Now(), ids, sent);
      if closing {
        Finish();
      }
    }

    /** One kill: taken off the pending ones when the socket accepts it. */
    method TryKill(id: string) returns (accepted: bool)
      modifies this
      ensures answers == old(answers) + [accepted]
      ensures accepted ==> socket
      ensures Now() == if accepted then Killed(old(Now()), id) else old(Now())
    {
      accepted := SocketSend();
      if accepted {
        pendingKills := pendingKills - {id};
        shells := shells - {id};
        log := log + [KillSent(id)];
      }
    }

    method Finish()
      modifies this
      ensures Now() == FinishClose(old(Now())) && answers == old(answers)
    {
      closed := true;
      phase := Stopped;
      socket := false;
      status := Unavailable;
      cleanupConnection := false;
    }

    method CloseAll() returns (ghost sent: seq<string>)
      requires Valid() && handles > 0
      modifies this
      ensures Valid() && Enabled(old(Now()), Close(sent))
      ensures Now() == Step(old(Now()), Close(sent))
      ensures !old(closing) ==>
                Tried(old(answers), answers, old(status), old(pendingKills) + old(shells), sent)
    {
      ghost var before := Now();
      sent := [];
      if closing {
        return;
      }
      sent := BeginClosing();
      StepKeepsInvariant(before, Close(sent));
    }

    /** Live shells are to be killed; the cleanup outlives the users until they are. */
    method BeginClosing() returns (ghost sent: seq<string>)
      requires !closing
      modifies this
      ensures FlushOk(AskClose(old(Now())), sent)
      ensures Now() == Closed(old(Now()), sent)
      ensures Tried(old(answers), answers, old(status), old(pendingKills) + old(shells), sent)
    {
      sent := [];
      closing := true;
      pendingKills := pendingKills + shells;
      log := log + [CloseAsked];
      if pendingKills == {} {
        Finish();
      } else {
        cleanupConnection := true;
        sent := FlushKills();
      }
    }

    method Route(message: ServerMessage) returns (ghost sent: seq<string>)
      requires Valid() && Alive(Now())
      modifies this
      ensures Valid() && Enabled(old(Now()), Receive(message, sent))
      ensures Now() == Step(old(Now()), Receive(message, sent))
      ensures !old(closed) && Flushes(old(Now()), message) ==>
                Tried(old(answers), answers, Legacy, old(pendingKills), sent)
    {
      ghost var before := Now();
      sent := [];
      if closed {
        return;
      }
      if message.ShellExited? {
        shells := shells - {message.id};
        log := log + [Exited(message.id)];
      } else {
        sent := Dispatch(message);
      }
      StepKeepsInvariant(before, Receive(message, sent));
    }

    /** The messages that change the status. */
    method Dispatch(message: ServerMessage) returns (ghost sent: seq<string>)
      requires !closed && !message.ShellExited?
      modifies this
      ensures if Flushes(old(Now()), message) then FlushOk(Readied(old(Now()), message), sent) else sent == []
      ensures Now() == Received(old(Now()), message, sent)
      ensures Flushes(old(Now()), message) ==> Tried(old(answers), answers, Legacy, old(pendingKills), sent)
    {
      sent := [];
      match message {
        case HelloOk(runs) =>
          status := Ready(runs);
          sent := FlushKills();
        case HelloError =>
          status := Rejected;
        case Error =>
          if status == Connecting {
            status := Legacy;
            sent := FlushKills();
          }
        case OtherMessage =>
      }
    }

    /** The socket's closing callback. */
    method OnClose()
      requires Valid() && Alive(Now())
      modifies this
      ensures Valid() && Now() == Step(old(Now()), SocketClosed)
    {
      ghost var before := Now();
      if !closed {
        status := Unavailable;
      }
      hungUp := true;
      StepKeepsInvariant(before, SocketClosed);
    }

    /** The socket goes away without calling back; the loop stops waiting for it. */
    method OnDrop()
      requires Valid() && Alive(Now())
      modifies this
      ensures Valid() && Now() == Step(old(Now()), SocketDropped)
    {
      ghost var before := Now();
      hungUp := true;
      StepKeepsInvariant(before, SocketDropped);
    }

    // ----- The users' references -----

    method CloneHandle()
      requires Valid() && handles > 0
      modifies this
      ensures Valid() && Now() == Step(old(Now()), BridgeProtocol.CloneHandle)
    {
      ghost var before := Now();
      handles := handles + 1;
      StepKeepsInvariant(before, BridgeProtocol.CloneHandle);
    }

    /** With the last reference the connection is gone, unless it still holds itself. */
    method DropHandle()
      requires Valid() && handles > 0
      modifies this
      ensures Valid() && Now() == Step(old(Now()), BridgeProtocol.DropHandle)
    {
      ghost var before := Now();
      handles := handles - 1;
      if handles == 0 && !cleanupConnection {
        phase := Stopped;
      }
      StepKeepsInvariant(before, BridgeProtocol.DropHandle);
    }

    // ----- The reconnect loop, from one suspension to the next -----

    method BeginAttempt()
      requires Valid() && Enabled(Now(), LoopBegins)
      modifies this
      ensures Valid() && Now() == Step(old(Now()), LoopBegins)
    {
      ghost var before := Now();
      status := Connecting;
      phase := Authorizing;
      StepKeepsInvariant(before, LoopBegins);
    }

    /** The credential is there; `ok` says whether the socket opened and took the greeting. */
    method Open(ok: bool)
      requires Valid() && Enabled(Now(), Opened(ok))
      modifies this
      ensures Valid() && Now() == Step(old(Now()), Opened(ok))
    {
      ghost var before := Now();
      if ok {
        socket := true;
        phase := Waiting;
        hungUp := false;
      } else {
        status := Unavailable;
        FinishAttempt();
      }
      StepKeepsInvariant(before, Opened(ok));
    }

    method FinishAttempt()
      modifies this
      ensures Now() == EndAttempt(old(Now()))
    {
      socket := false;
      var delays := [1000, 2000, 5000, 10000];
      var delay := if attempts < |delays| then delays[attempts] else 30000;
      attempts := attempts + 1;
      phase := Backoff(delay);
    }

    /** Two seconds passed without a hang-up: an answerless server is taken for a legacy one. */
    method LegacyTimeout() returns (ghost sent: seq<string>)
      requires Valid() && phase == Waiting && !hungUp
      modifies this
      ensures Valid() && Enabled(old(Now()), TimedOut(sent))
      ensures Now() == Step(old(Now()), TimedOut(sent))
      ensures old(status) == Connecting ==> Tried(old(answers), answers, Legacy, old(pendingKills), sent)
    {
      ghost var before := Now();
      sent := [];
      if status == Connecting {
        sent := TakeForLegacy();
      }
      if TerminalReady(status) {
        attempts := 0;
      }
      if !closed {
        phase := Lingering;
      }
      StepKeepsInvariant(before, TimedOut(sent));
    }

    method TakeForLegacy() returns (ghost sent: seq<string>)
      modifies this
      ensures FlushOk(old(Now()).(status := Legacy), sent)
      ensures Now() == Flush(old(Now()).(status := Legacy), sent)
      ensures Tried(old(answers), answers, Legacy, old(pendingKills), sent)
      ensures Now().attempts == old(attempts)
      ensures closed || (Now().phase == old(phase) && status == Legacy)
    {
      status := Legacy;
      ghost var start := Now();
      sent := FlushKills();
      SendKillsFrame(start, sent);
    }

    method HangUp()
      requires Valid() && Enabled(Now(), LoopEnds)
      modifies this
      ensures Valid() && Now() == Step(old(Now()), LoopEnds)
    {
      ghost var before := Now();
      FinishAttempt();
      StepKeepsInvariant(before, LoopEnds);
    }
  }
}
