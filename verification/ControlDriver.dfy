/** The session's control-stream writers in the source's own form: the leave
    announcer, and the arms that announce the start, answer a fence probe, report
    the result and publish statistics, writing frame by frame. Each agrees with
    the frames' model, so each keeps what every run of that model keeps. */
module ControlDriver {
  import opened Basics
  import opened ControlFrames
  import opened Messages
  import opened Retention
  import Turns

  datatype LeaveState = NotLeaving | Waiting(deadline: nat) | Announced

  class LeaveAnnouncer {
    var state: LeaveState
    var resultExpected: bool
    var resultSent: bool

    ghost function Stage(): Announcer
      reads this
    {
      match state
      case NotLeaving => Idle
      case Waiting(_) => Pending
      case Announced => Sent
    }

    constructor ()
      ensures Stage() == Idle && !resultExpected && !resultSent
    {
      state, resultExpected, resultSent := NotLeaving, false, false;
    }

    /** Arms the announcement; nothing rearms one that is out. */
    method Arm(now: nat, timeout: nat)
      modifies this`state
      ensures state == if old(state).Announced? then Announced else Waiting(now + timeout)
    {
      if !state.Announced? {
        state := Waiting(now + timeout);
      }
    }

    method Deadline() returns (r: Option<nat>)
      ensures r.Some? <==> Stage() == Pending
      ensures r.Some? ==> state == Waiting(r.value)
    {
      match state {
        case Waiting(deadline) => r := Some(deadline);
        case NotLeaving => r := None;
        case Announced => r := None;
      }
    }
  }

  /** The actions that do not look at the turns. */
  lemma ActKeepsFrames(c: Control, a: Action)
    requires ControlInv(c) && CanAct(Turns.Fresh, c, a) && !a.MaybeSend? && !a.ForceSend?
    ensures ControlInv(Act(Turns.Fresh, c, a))
  {
    hide ControlInv, Turns.Inv, Act;
    FreshIsInv(p => true, 0);
    ActKeeps(p => true, 0, Turns.Fresh, c, a);
  }

  ghost function Settled(c: Control, leave: bool, startOk: bool, result: bool, resultOk: bool): Control {
    var armed := if leave then Armed(c) else c;
    var started := if armed.start.queued then Act(Turns.Fresh, armed, TeardownStart(startOk)) else armed;
    if result then PutResult(started, resultOk) else started
  }

  class ControlWriter {
    const announcer: LeaveAnnouncer
    var startQueued: bool
    var gameStartedAnnounced: bool
    var gameStartedOnStream: bool
    var snapshot: Option<nat>
    var rollbackStatsOnStream: Option<nat>
    var stream: nat
    ghost var written: seq<Written>
    ghost var control: Control

    ghost predicate Mirrors()
      reads this, announcer
    {
      && announcer.Stage() == control.announcer
      && announcer.resultExpected == control.resultExpected && announcer.resultSent == control.resultSent
      && startQueued == control.start.queued && gameStartedAnnounced == control.start.announced
      && gameStartedOnStream == control.start.onStream
      && snapshot == control.snapshot && rollbackStatsOnStream == control.snapshotOnStream
      && stream == control.stream && written == control.trace
    }

    ghost predicate Valid()
      reads this, announcer
    {
      Mirrors() && ControlInv(control)
    }

    constructor ()
      ensures Valid() && control == Silent && fresh(announcer)
    {
      announcer := new LeaveAnnouncer();
      startQueued, gameStartedAnnounced, gameStartedOnStream := false, false, false;
      snapshot, rollbackStatsOnStream, stream, written := None, None, 0, [];
      control := Silent;
    }

    method Write(ghost frame: Frame, ok: bool)
      modifies this`written
      ensures written == if ok then old(written) + [Written(stream, frame)] else old(written)
    {
      if ok {
        written := written + [Written(stream, frame)];
      }
    }

    /** A new control stream has carried nothing. */
    method OpenStream()
      requires Valid()
      modifies this
      ensures Valid() && control == Act(Turns.Fresh, old(control), Action.OpenStream)
    {
      hide ControlInv;
      ActKeepsFrames(control, Action.OpenStream);
      stream, gameStartedOnStream, rollbackStatsOnStream := stream + 1, false, None;
      control := Act(Turns.Fresh, control, Action.OpenStream);
    }

    /** A stream's opening asserts again what an earlier one may have lost. */
    method ReassertStart(ok: bool)
      requires Valid()
      modifies this
      ensures Valid() && control == if old(gameStartedAnnounced) then PutStart(old(control), ok) else old(control)
      ensures written == old(written) + Maybe(old(gameStartedAnnounced) && ok, old(stream), GameStarted)
    {
      hide ControlInv;
      if gameStartedAnnounced {
        ActKeepsFrames(control, Reassert(ok));
        Write(GameStarted, ok);
        if ok {
          gameStartedOnStream := true;
        }
        control := PutStart(control, ok);
      }
    }

    /** The start channel resolved: with the game's signal, or with its sender gone,
        which announces nothing. */
    method OnGameStarted(signal: bool, ok: bool)
      requires Valid() && (signal ==> startQueued)
      modifies this
      ensures Valid()
      ensures control == if signal then Act(Turns.Fresh, old(control), Action.OnGameStarted(ok)) else old(control)
      ensures written == old(written) + Maybe(signal && ok && !old(gameStartedAnnounced), old(stream), GameStarted)
    {
      hide ControlInv;
      if signal {
        ActKeepsFrames(control, Action.OnGameStarted(ok));
        startQueued := false;
        if !gameStartedAnnounced {
          gameStartedAnnounced := true;
          Write(GameStarted, ok);
          if ok {
            gameStartedOnStream := true;
          }
        }
        control := Act(Turns.Fresh, control, Action.OnGameStarted(ok));
      }
    }

    // What the game does.

    /** The game's loop has begun. Its channel holds one signal, so a repeat before it
        is read is the same signal. */
    method SignalStart()
      requires Valid()
      modifies this
      ensures Valid() && control == Act(Turns.Fresh, old(control), Action.SignalStart)
    {
      hide ControlInv;
      ActKeepsFrames(control, Action.SignalStart);
      startQueued := true;
      control := Act(Turns.Fresh, control, Action.SignalStart);
    }

    method Publish(stats: nat)
      requires Valid()
      modifies this
      ensures Valid() && control == Act(Turns.Fresh, old(control), Action.Publish(stats))
    {
      hide ControlInv;
      ActKeepsFrames(control, Action.Publish(stats));
      snapshot := Some(stats);
      control := Act(Turns.Fresh, control, Action.Publish(stats));
    }

    method ExpectResult()
      requires Valid()
      modifies this, announcer`resultExpected
      ensures Valid() && control == Act(Turns.Fresh, old(control), Action.ExpectResult)
    {
      hide ControlInv;
      ActKeepsFrames(control, Action.ExpectResult);
      announcer.resultExpected := true;
      control := Act(Turns.Fresh, control, Action.ExpectResult);
    }

    // What the driver writes.

    method WriteOwedStart(ok: bool)
      requires Mirrors()
      modifies this
      ensures Mirrors() && control == PutOwedStart(old(control), ok) && stream == old(stream)
      ensures var owed := (old(startQueued) || old(gameStartedAnnounced)) && !old(gameStartedOnStream);
              && written == old(written) + Maybe(owed && ok, old(stream), GameStarted)
              && (gameStartedAnnounced && !gameStartedOnStream <==> owed && !ok)
    {
      if startQueued {
        startQueued, gameStartedAnnounced := false, true;
      }
      if gameStartedAnnounced && !gameStartedOnStream {
        Write(GameStarted, ok);
        if ok {
          gameStartedOnStream := true;
        }
      }
      control := PutOwedStart(control, ok);
    }

    /** Answers a fence probe, any owed start announcement first, unless that cannot be
        written. */
    method OnLoadStateProbe(id: nat, startOk: bool, ackOk: bool)
      requires Valid()
      modifies this
      ensures Valid() && control == Probe(old(control), id, startOk, ackOk)
      ensures var owed := (old(startQueued) || old(gameStartedAnnounced)) && !old(gameStartedOnStream);
              written == old(written)
                       + Maybe(owed && startOk, old(stream), GameStarted)
                       + Maybe((!owed || startOk) && ackOk, old(stream), ProbeAck(id, old(control).start.signalled))
    {
      hide ControlInv, Mirrors, PutOwedStart, PutAck;
      ActKeepsFrames(control, OnProbe(id, startOk, ackOk));
      ghost var signalled := control.start.signalled;
      WriteOwedStart(startOk);
      WriteAck(id, ackOk, signalled);
    }

    method WriteAck(id: nat, ok: bool, ghost signalled: bool)
      requires Mirrors()
      modifies this`written, this`control
      ensures Mirrors() && control == PutAck(old(control), id, signalled, ok)
      ensures written == old(written)
                       + Maybe(ok && !(gameStartedAnnounced && !gameStartedOnStream), stream, ProbeAck(id, signalled))
    {
      var reportOwed := gameStartedAnnounced && !gameStartedOnStream;
      if !reportOwed {
        Write(ProbeAck(id, signalled), ok);
        control := control.(trace := written);
      }
    }

    method SendNewestRollbackStats(ok: bool)
      requires Valid()
      modifies this
      ensures Valid() && control == PutStats(old(control), ok)
      ensures snapshot == old(snapshot)
      ensures var due := snapshot.Some? && old(rollbackStatsOnStream) != snapshot && !announcer.state.Announced?;
              && rollbackStatsOnStream == (if due && ok then snapshot else old(rollbackStatsOnStream))
              && written == if due && ok then old(written) + [Written(old(stream), RollbackStats(snapshot.value))]
                            else old(written)
    {
      hide ControlInv;
      ActKeepsFrames(control, OnRollbackStats(ok));
      if !announcer.state.Announced? && snapshot.Some? && rollbackStatsOnStream != snapshot {
        Write(RollbackStats(snapshot.value), ok);
        if ok {
          rollbackStatsOnStream := snapshot;
        }
      }
      control := PutStats(control, ok);
    }

    /** At most one result is offered to the stream, and none past the intent. */
    method OnResult(ok: bool)
      requires Valid()
      modifies this, announcer`resultSent
      ensures Valid() && control == PutResult(old(control), ok) && startQueued == old(startQueued)
      ensures announcer.resultSent == (old(announcer.resultSent) || !announcer.state.Announced?)
      ensures written == old(written) + Maybe(ok && !old(announcer.resultSent) && !announcer.state.Announced?,
                                              old(stream), GameResult)
    {
      hide ControlInv;
      ActKeepsFrames(control, Action.OnResult(ok));
      if !announcer.resultSent && !announcer.state.Announced? {
        Write(GameResult, ok);
        announcer.resultSent := true;
      }
      control := PutResult(control, ok);
    }

    method OnLeaveIntent(now: nat, timeout: nat, statsOk: bool)
      requires Valid()
      modifies this, announcer`state
      ensures Valid() && control == Act(Turns.Fresh, old(control), Action.OnLeaveIntent(statsOk))
      ensures announcer.state == if old(announcer.state).Announced? then Announced else Waiting(now + timeout)
      ensures var due := && old(snapshot).Some? && old(rollbackStatsOnStream) != old(snapshot)
                         && !old(announcer.state).Announced?;
              written == if due && statsOk
                         then old(written) + [Written(old(stream), RollbackStats(old(snapshot).value))]
                         else old(written)
    {
      hide Valid, PutStats, Armed;
      SendNewestRollbackStats(statsOk);
      ArmLeave(now, timeout);
    }

    /** Writes the intent exactly when the gate is open over the session `t`. */
    method MaybeSend(outboundEmpty: bool, inFlight: nat, ok: bool, ghost fits: Fits, ghost slot: SlotId,
                     ghost t: Turns.Session)
      requires Valid() && Turns.Inv(fits, slot, t)
      requires (outboundEmpty <==> t.channel == [] && t.held == []) && inFlight == |t.unacked|
      modifies this, announcer`state
      ensures Valid()
      ensures control == if Gate(t, old(control)) then PutIntent(t, old(control), true, ok) else old(control)
      ensures var free := && old(announcer.state).Waiting? && outboundEmpty && inFlight == 0
                          && (announcer.resultExpected ==> announcer.resultSent);
              && announcer.state == (if free && ok then Announced else old(announcer.state))
              && |written| == |old(written)| + (if free && ok then 1 else 0)
              && old(written) <= written && (free && ok ==> written[|written| - 1].frame.LeaveIntent?)
    {
      hide ControlInv, Turns.Inv;
      if announcer.state.Waiting? && !(announcer.resultExpected && !announcer.resultSent) && outboundEmpty && inFlight == 0 {
        PutIntentKeeps(fits, slot, t, control, true, ok);
        Write(Intent(t, control, true), ok);
        if ok {
          announcer.state := Announced;
        }
        control := PutIntent(t, control, true, ok);
      }
    }

    /** Writes it whatever is outstanding. */
    method ForceSend(ok: bool, ghost fits: Fits, ghost slot: SlotId, ghost t: Turns.Session)
      requires Valid() && Turns.Inv(fits, slot, t) && announcer.state.Waiting?
      modifies this, announcer`state
      ensures Valid() && control == PutIntent(t, old(control), false, ok)
      ensures announcer.state == (if ok then Announced else old(announcer.state))
      ensures |written| == |old(written)| + (if ok then 1 else 0)
      ensures old(written) <= written && (ok ==> written[|written| - 1].frame.LeaveIntent?)
    {
      hide ControlInv, Turns.Inv;
      PutIntentKeeps(fits, slot, t, control, false, ok);
      Write(Intent(t, control, false), ok);
      if ok {
        announcer.state := Announced;
      }
      control := PutIntent(t, control, false, ok);
    }

    /** A start signal still unread when the game stops is written on the one stream
        left to carry it. */
    method TeardownStart(ok: bool)
      requires Valid() && startQueued
      modifies this
      ensures Valid() && control == Act(Turns.Fresh, old(control), Action.TeardownStart(ok)) && !startQueued
      ensures written == old(written) + Maybe(ok && !old(gameStartedAnnounced), old(stream), GameStarted)
      ensures stream == old(stream)
    {
      hide ControlInv;
      ActKeepsFrames(control, Action.TeardownStart(ok));
      startQueued := false;
      if !gameStartedAnnounced {
        gameStartedAnnounced := true;
        Write(GameStarted, ok);
      }
      control := Act(Turns.Fresh, control, Action.TeardownStart(ok));
    }

    /** What the game left unread when it stopped: its leave signal, its start and its
        result, in that order. */
    method SettleControl(leave: bool, now: nat, timeout: nat, startOk: bool, result: bool, resultOk: bool)
      requires Valid()
      modifies this, announcer`state, announcer`resultSent
      ensures Valid() && !startQueued && (leave ==> !announcer.state.NotLeaving?)
      ensures control == Settled(old(control), leave, startOk, result, resultOk)
      ensures written == old(written)
                       + Maybe(old(startQueued) && startOk && !old(gameStartedAnnounced), old(stream), GameStarted)
                       + Maybe(result && resultOk && !old(announcer.resultSent) && !old(announcer.state).Announced?,
                               old(stream), GameResult)
    {
      hide Valid, Act, Armed, PutResult;
      if leave {
        ArmLeave(now, timeout);
      }
      QueueIsMirrored();
      if startQueued {
        TeardownStart(startOk);
      }
      if result {
        OnResult(resultOk);
      }
    }

    method ArmLeave(now: nat, timeout: nat)
      requires Valid()
      modifies this`control, announcer`state
      ensures Valid() && control == Armed(old(control)) && !announcer.state.NotLeaving?
      ensures announcer.state == if old(announcer.state).Announced? then Announced else Waiting(now + timeout)
    {
      hide ControlInv;
      ActKeepsFrames(control, Action.TeardownLeave);
      announcer.Arm(now, timeout);
      control := Armed(control);
    }

    lemma QueueIsMirrored()
      requires Valid()
      ensures startQueued == control.start.queued
    {
      hide ControlInv;
    }

    /** A link close is a clean stop exactly when an intent has been written. */
    method AbsorbLinkClose<E>(result: Result<(), E>) returns (r: Result<(), E>)
      requires Valid()
      ensures r == if result.Err? && HasIntent(written) then Ok(()) else result
    {
      hide OneDeparture, GatedIsDrained, FenceHolds, StartIsTracked, HasIntent;
      r := if result.Err? && announcer.state.Announced? then Ok(()) else result;
    }
  }
}
