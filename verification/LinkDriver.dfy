/** The turn driver in the source's own form: queues popped and pushed in place,
    loops that stop at the first failed write. The driver carries the session it
    amounts to as a ghost; every method takes that session along a run of its
    steps, so what holds of every run holds of the driver. */
module LinkDriver {
  import opened Basics
  import opened Messages
  import opened Retention
  import opened Turns
  import Phase

  lemma RunExtends(fits: Fits, slot: SlotId, run: seq<Action>, a: Action)
    requires IsRun(fits, slot, run) && Can(fits, After(fits, slot, run), a)
    ensures IsRun(fits, slot, run + [a])
    ensures After(fits, slot, run + [a]) == Do(fits, slot, After(fits, slot, run), a)
  {
    hide Can, Do;
    assert (run + [a])[..|run|] == run;
  }

  /** The three ways a turn is handed over are the same handoff of the oldest turn. */
  lemma SendSteps(fits: Fits, slot: SlotId, s: Session, ok: bool)
    ensures (s.stage == Serving || s.stage == Draining) && s.held == [] && s.channel != [] ==>
              && Can(fits, s, SendChannel(ok))
              && Do(fits, slot, s, SendChannel(ok))
                 == Handoff(fits, slot, s.(channel := s.channel[1..]), s.channel[0], ok)
    ensures (s.stage == FlushingHeld || s.stage == Serving || s.stage == Draining) && s.held != [] ==>
              && Can(fits, s, SendHeld(ok))
              && Do(fits, slot, s, SendHeld(ok))
                 == Handoff(fits, slot, s.(held := s.held[1..]), s.held[0].payload, ok)
    ensures s.stage == FlushingBuffer && s.buffer != [] ==>
              && Can(fits, s, SendBuffer(ok))
              && Do(fits, slot, s, SendBuffer(ok))
                 == Handoff(fits, slot, s.(buffer := s.buffer[1..]), s.buffer[0], ok)
  {
    hide Handoff;
  }

  /** What a handoff changes, queue by queue. */
  lemma HandoffParts(fits: Fits, slot: SlotId, s: Session, p: Payload, ok: bool)
    ensures var s', n := Handoff(fits, slot, s, p, ok), |s.stamped|;
            var t := Stamp(p, n, slot);
            && s'.stage == (if ok then s.stage else Down) && s'.clock == s.clock
            && s'.channel == s.channel && s'.held == s.held && s'.buffer == s.buffer && s'.staged == s.staged
            && s'.retention == Push(s.retention, t) && |s'.stamped| == n + 1
            && s'.unacked == (if fits(t) then s.unacked + {n} else s.unacked)
            && s'.onStream == (if !fits(t) && ok then s.onStream + [n] else s.onStream)
  {
    hide Push;
  }

  /** The turns of the ring a datagram can carry. */
  ghost function Reinjected(fits: Fits, turns: seq<Payload>): set<nat> {
    set t | t in turns && fits(t) :: t.seqNo
  }

  lemma NothingReinjected(fits: Fits)
    ensures Reinjected(fits, []) == {}
  {
  }

  lemma ReinjectedAppend(fits: Fits, turns: seq<Payload>, t: Payload)
    ensures Reinjected(fits, turns + [t]) == Reinjected(fits, turns) + if fits(t) then {t.seqNo} else {}
  {
    var all := turns + [t];
    assert all[|turns|] == t;
    assert forall x | x in turns :: x in all;
    assert forall x | x in all :: x in turns || x == t;
  }

  /** What a resume does to the session. */
  lemma ResumeSteps(fits: Fits, slot: SlotId, s: Session, a: nat)
    requires s.stage == Down
    ensures SameRelayAnchored(fits, s, a) ==>
              && Can(fits, s, ResumeSameRelay(a))
              && Do(fits, slot, s, ResumeSameRelay(a))
                 == s.(stage := Opening, anchor := a, rehomed := false, onStream := [],
                       staged := StageAll(s.staged, Oversize(fits, s.retention)))
    ensures RehomeAnchored(s, a) ==>
              && Can(fits, s, Rehome(a))
              && Do(fits, slot, s, Rehome(a))
                 == s.(stage := Opening, anchor := a, rehomed := true, onStream := [],
                       staged := StageAll(s.staged, Oversize(fits, s.retention)),
                       unacked := s.unacked + Reinjected(fits, s.retention))
  {
    hide SameRelayAnchored, RehomeAnchored, StageAll, Oversize;
  }

  class Driver {
    const fits: Fits
    const ownSlot: SlotId
    const ring: RetentionRing
    var stage: Stage
    var clock: nat
    var channel: seq<Payload>
    var held: seq<Held>
    var outboundBuffer: seq<Payload>
    var pendingControlRedivert: seq<Payload>
    var unacked: set<nat>
    var nextOutboundSeq: nat
    ghost var onStream: seq<nat>    // what this connection's control stream was given
    ghost var session: Session
    ghost var run: seq<Action>

    /** The session is where the run leads. */
    ghost predicate Tracks()
      reads this`session, this`run
    {
      IsRun(fits, ownSlot, run) && session == After(fits, ownSlot, run)
    }

    /** The driver's queues are the session's. */
    ghost predicate Mirrors()
      reads this, ring
    {
      && ring.Valid() && ring.turns == session.retention
      && stage == session.stage && clock == session.clock
      && channel == session.channel && held == session.held && outboundBuffer == session.buffer
      && pendingControlRedivert == session.staged
      && unacked == session.unacked && onStream == session.onStream && nextOutboundSeq == |session.stamped|
    }

    ghost predicate Valid()
      reads this, ring
    {
      Tracks() && Mirrors()
    }

    constructor (fits: Fits, ownSlot: SlotId)
      ensures Valid() && run == [] && session == Fresh && fresh(ring)
      ensures this.fits == fits && this.ownSlot == ownSlot
    {
      this.fits, this.ownSlot := fits, ownSlot;
      ring := new RetentionRing();
      stage, clock, channel, held, outboundBuffer, pendingControlRedivert := Opening, 0, [], [], [], [];
      unacked, nextOutboundSeq, onStream := {}, 0, [];
      session, run := Fresh, [];
    }

    /** Whatever has happened so far, the session's invariant holds. */
    lemma KeepsInv()
      requires Valid()
      ensures Inv(fits, ownSlot, session)
    {
      hide Mirrors, Inv;
      RunsKeep(fits, ownSlot, run);
    }

    ghost method Step(a: Action)
      requires Tracks() && Can(fits, session, a)
      modifies this`session, this`run
      ensures Tracks() && run == old(run) + [a] && session == Do(fits, ownSlot, old(session), a)
    {
      RunExtends(fits, ownSlot, run, a);
      session, run := Do(fits, ownSlot, session, a), run + [a];
    }

    /** One turn's wire handoff. */
    method SendGameTurn(payload: Payload, ok: bool)
      requires ring.Valid()
      modifies this`nextOutboundSeq, this`unacked, this`onStream, this`stage, ring
      ensures ring.Valid() && ring.turns == Push(old(ring.turns), Stamp(payload, old(nextOutboundSeq), ownSlot))
      ensures nextOutboundSeq == old(nextOutboundSeq) + 1
      ensures unacked == if fits(Stamp(payload, old(nextOutboundSeq), ownSlot))
                         then old(unacked) + {old(nextOutboundSeq)} else old(unacked)
      ensures onStream == if !fits(Stamp(payload, old(nextOutboundSeq), ownSlot)) && ok
                          then old(onStream) + [old(nextOutboundSeq)] else old(onStream)
      ensures stage == if ok then old(stage) else Down
      ensures ring.turns != []
      ensures var sent := ring.turns[|ring.turns| - 1];
              && sent.seqNo == old(nextOutboundSeq) && sent.slot == ownSlot
              && sent.commands == payload.commands && sent.gameFrameCount == payload.gameFrameCount
              && sent.syncGeneration == payload.syncGeneration && sent.stateHash == payload.stateHash
              && sent.bufferDirective == payload.bufferDirective
              && unacked == (if fits(sent) then old(unacked) + {sent.seqNo} else old(unacked))
              && onStream == (if !fits(sent) && ok then old(onStream) + [sent.seqNo] else old(onStream))
    {
      PushKeepsNewest(ring.turns, payload.(seqNo := nextOutboundSeq, slot := ownSlot));
      hide Push;
      var turn := payload.(seqNo := nextOutboundSeq, slot := ownSlot);
      nextOutboundSeq := nextOutboundSeq + 1;
      ring.PushTurn(turn);
      if fits(turn) {
        unacked := unacked + {turn.seqNo};
      } else if ok {
        onStream := onStream + [turn.seqNo];
      }
      if !ok {
        stage := Down;
      }
    }

    // One queue, one turn.

    method SendFromChannel(ok: bool)
      requires Valid() && (stage == Serving || stage == Draining) && held == [] && channel != []
      modifies this, ring
      ensures Valid() && run == old(run) + [SendChannel(ok)]
      ensures channel == old(channel)[1..] && held == [] && stage == if ok then old(stage) else Down
    {
      hide Tracks, Push, Can, Do, Handoff, Stamp;
      SendSteps(fits, ownSlot, session, ok);
      HandoffParts(fits, ownSlot, session.(channel := session.channel[1..]), session.channel[0], ok);
      var payload := channel[0];
      channel := channel[1..];
      SendGameTurn(payload, ok);
      Step(SendChannel(ok));
    }

    method SendFromHeld(ok: bool)
      requires Valid() && (stage == FlushingHeld || stage == Serving || stage == Draining) && held != []
      modifies this, ring
      ensures Valid() && run == old(run) + [SendHeld(ok)]
      ensures held == old(held)[1..] && stage == if ok then old(stage) else Down
      ensures channel == old(channel) && outboundBuffer == old(outboundBuffer)
    {
      hide Tracks, Push, Can, Do, Handoff, Stamp;
      SendSteps(fits, ownSlot, session, ok);
      HandoffParts(fits, ownSlot, session.(held := session.held[1..]), session.held[0].payload, ok);
      var payload := held[0].payload;
      held := held[1..];
      SendGameTurn(payload, ok);
      Step(SendHeld(ok));
    }

    method SendFromBuffer(ok: bool)
      requires Valid() && stage == FlushingBuffer && outboundBuffer != []
      modifies this, ring
      ensures Valid() && run == old(run) + [SendBuffer(ok)]
      ensures outboundBuffer == old(outboundBuffer)[1..] && stage == if ok then old(stage) else Down
      ensures channel == old(channel) && held == old(held)
    {
      hide Tracks, Push, Can, Do, Handoff, Stamp;
      SendSteps(fits, ownSlot, session, ok);
      HandoffParts(fits, ownSlot, session.(buffer := session.buffer[1..]), session.buffer[0], ok);
      var payload := outboundBuffer[0];
      outboundBuffer := outboundBuffer[1..];
      SendGameTurn(payload, ok);
      Step(SendBuffer(ok));
    }

    method Advance(now: nat)
      requires Valid() && clock <= now
      modifies this`clock, this`session, this`run
      ensures Valid() && clock == now && run == old(run) + [Tick(now)]
    {
      hide Tracks;
      clock := now;
      Step(Tick(now));
    }

    method HoldNext(delayUs: nat)
      requires Valid() && stage == Serving && channel != [] && delayUs <= Phase.MAX_DELAY_US
      modifies this`channel, this`held, this`session, this`run
      ensures Valid() && run == old(run) + [Hold(delayUs)]
      ensures channel == old(channel)[1..] && |held| == |old(held)| + 1 && old(held) <= held
      ensures var h := held[|old(held)|];
              && h.acceptedAt == clock && h.delayUs == delayUs && h.payload == old(channel)[0]
              && h.due == Max(clock + delayUs * 1_000, if old(held) == [] then 0 else old(held)[|old(held)| - 1].due)
    {
      hide Tracks;
      var due := clock + delayUs * Phase.NANOS_PER_MICRO;
      if held != [] {
        due := Max(due, held[|held| - 1].due);
      }
      held := held + [Held(due, clock, delayUs, channel[0])];
      channel := channel[1..];
      Step(Hold(delayUs));
    }

    method Produce(payload: Payload)
      requires Valid()
      modifies this`channel, this`session, this`run
      ensures Valid() && run == old(run) + [Turns.Produce(payload)] && channel == old(channel) + [payload]
    {
      hide Tracks;
      channel := channel + [payload];
      Step(Turns.Produce(payload));
    }

    /** Packet acks, or the turns below a beacon's cursor. */
    method Retire(seqs: set<nat>)
      requires Valid()
      modifies this`unacked, this`session, this`run
      ensures Valid() && run == old(run) + [Acked(seqs * old(unacked))] && unacked == old(unacked) - seqs
    {
      hide Tracks;
      ghost var retired := seqs * unacked;
      unacked := unacked - seqs;
      Step(Acked(retired));
      assert old(unacked) - retired == unacked;
    }

    method MoveTo(next: Stage, ghost a: Action)
      requires Valid() && Can(fits, session, a)
      requires a == LinkFails || a == StagedDone || a == HeldDone || a == BufferDone || a == Teardown || a == Finish
      requires next == Do(fits, ownSlot, session, a).stage
      modifies this`stage, this`session, this`run
      ensures Valid() && run == old(run) + [a] && stage == next
    {
      hide Tracks;
      stage := next;
      Step(a);
    }

    // The serve loop's outbound arms. `ok` answers a call's k-th write.

    /** One turn the game produced: sent at once without a delay and with nothing
        held before it, otherwise held; past the cap the oldest go out early. */
    method OnOutgoingTurn(now: nat, slew: Phase.PhaseSlew, ok: nat -> bool) returns (serving: bool)
      requires Valid() && stage == Serving && channel != [] && clock <= now && Phase.Sane(slew.View())
      modifies this, ring, slew
      ensures Valid() && slew.View() == Phase.Advance(old(slew.View()), now)
      ensures channel == old(channel)[1..] && stage == if serving then Serving else Down
      ensures slew.appliedUs == 0 && old(held) == [] ==> run == old(run) + [Tick(now), SendChannel(serving)]
      ensures slew.appliedUs != 0 || old(held) != [] ==> old(run) + [Tick(now), Hold(slew.appliedUs)] <= run
      ensures serving && (slew.appliedUs != 0 || old(held) != []) ==> |held| == Min(|old(held)| + 1, 64)
      ensures !serving ==> exists k: nat :: !ok(k)
    {
      hide Valid;
      Advance(now);
      var delay := slew.AdvanceTo(now);
      if delay == 0 && held == [] {
        SendFromChannel(ok(0));
        return ok(0);
      }
      HoldNext(delay);
      var sent := 0;
      while |held| > HELD_TURN_CAP
        invariant Valid() && stage == Serving && channel == old(channel)[1..]
        invariant slew.View() == Phase.Advance(old(slew.View()), now)
        invariant old(run) + [Tick(now), Hold(slew.appliedUs)] <= run
        invariant Min(|old(held)| + 1, HELD_TURN_CAP) <= |held| <= |old(held)| + 1
        decreases |held|
      {
        SendFromHeld(ok(sent));
        if !ok(sent) {
          return false;
        }
        sent := sent + 1;
      }
      return true;
    }

    /** The held turns that have come due go out, in order, and no other. */
    method OnHeldDue(now: nat, ok: nat -> bool) returns (serving: bool)
      requires Valid() && stage == Serving && clock <= now
      modifies this, ring
      ensures Valid() && channel == old(channel) && stage == if serving then Serving else Down
      ensures |held| <= |old(held)| && held == old(held)[|old(held)| - |held|..]
      ensures forall i | 0 <= i < |old(held)| - |held| :: old(held)[i].due <= now
      ensures serving && held != [] ==> held[0].due > now
      ensures !serving ==> |held| < |old(held)| && !ok(|old(held)| - |held| - 1)
    {
      hide Valid;
      Advance(now);
      var sent := 0;
      while held != [] && held[0].due <= now
        invariant Valid() && stage == Serving && channel == old(channel)
        invariant sent <= |old(held)| && held == old(held)[sent..]
        invariant forall i | 0 <= i < sent :: old(held)[i].due <= now
        decreases |held|
      {
        SendFromHeld(ok(sent));
        sent := sent + 1;
        if !ok(sent - 1) {
          return false;
        }
      }
      return true;
    }

    // The opening of a connection.

    method RedivertOldest(ok: bool)
      requires Valid() && stage == Opening && pendingControlRedivert != []
      modifies this`pendingControlRedivert, this`onStream, this`stage, this`session, this`run
      ensures Valid() && stage == if ok then Opening else Down
      ensures onStream == if ok then old(onStream) + [old(pendingControlRedivert)[0].seqNo] else old(onStream)
      ensures pendingControlRedivert == if ok then old(pendingControlRedivert)[1..] else old(pendingControlRedivert)
    {
      hide Tracks;
      if ok {
        onStream := onStream + [pendingControlRedivert[0].seqNo];
        pendingControlRedivert := pendingControlRedivert[1..];
      } else {
        stage := Down;
      }
      Step(Redivert(ok));
    }

    /** Each staged turn leaves the list only once it is written. */
    method RedivertPendingControl(ok: nat -> bool) returns (up: bool)
      requires Valid() && stage == Opening
      modifies this, ring
      ensures Valid() && held == old(held) && outboundBuffer == old(outboundBuffer) && channel == old(channel)
      ensures up ==> pendingControlRedivert == [] && stage == FlushingHeld
      ensures !up ==> stage == Down && exists k | 0 <= k < |old(pendingControlRedivert)| ::
                !ok(k) && pendingControlRedivert == old(pendingControlRedivert)[k..]
    {
      var sent := 0;
      while pendingControlRedivert != []
        invariant Valid() && stage == Opening
        invariant held == old(held) && outboundBuffer == old(outboundBuffer) && channel == old(channel)
        invariant sent <= |old(pendingControlRedivert)|
        invariant pendingControlRedivert == old(pendingControlRedivert)[sent..]
        decreases |pendingControlRedivert|
      {
        hide Valid;
        RedivertOldest(ok(sent));
        if !ok(sent) {
          return false;
        }
        sent := sent + 1;
      }
      MoveTo(FlushingHeld, StagedDone);
      return true;
    }

    method FlushHeld(ok: nat -> bool) returns (up: bool)
      requires Valid() && stage == FlushingHeld
      modifies this, ring
      ensures Valid() && outboundBuffer == old(outboundBuffer) && channel == old(channel)
      ensures up ==> held == [] && stage == FlushingBuffer
      ensures !up ==> stage == Down && exists k | 0 <= k < |old(held)| :: !ok(k) && held == old(held)[k + 1..]
    {
      var sent := 0;
      while held != []
        invariant Valid() && stage == FlushingHeld && outboundBuffer == old(outboundBuffer) && channel == old(channel)
        invariant sent <= |old(held)| && held == old(held)[sent..]
        decreases |held|
      {
        hide Valid;
        SendFromHeld(ok(sent));
        if !ok(sent) {
          return false;
        }
        sent := sent + 1;
      }
      MoveTo(FlushingBuffer, HeldDone);
      return true;
    }

    method FlushBuffer(ok: nat -> bool) returns (up: bool)
      requires Valid() && stage == FlushingBuffer
      modifies this, ring
      ensures Valid() && held == old(held) && channel == old(channel)
      ensures up ==> outboundBuffer == [] && stage == Serving
      ensures !up ==> stage == Down && exists k | 0 <= k < |old(outboundBuffer)| ::
                !ok(k) && outboundBuffer == old(outboundBuffer)[k + 1..]
    {
      var sent := 0;
      while outboundBuffer != []
        invariant Valid() && stage == FlushingBuffer && held == old(held) && channel == old(channel)
        invariant sent <= |old(outboundBuffer)| && outboundBuffer == old(outboundBuffer)[sent..]
        decreases |outboundBuffer|
      {
        hide Valid;
        SendFromBuffer(ok(sent));
        if !ok(sent) {
          return false;
        }
        sent := sent + 1;
      }
      MoveTo(Serving, BufferDone);
      return true;
    }

    /** A new connection opens: staged turns, then held ones, then buffered ones.
        Once it serves, everything the game produced is stamped but what is still
        unread in the channel. */
    method OpenSession(stagedOk: nat -> bool, heldOk: nat -> bool, bufferOk: nat -> bool) returns (serving: bool)
      requires Valid() && stage == Opening
      modifies this, ring
      ensures Valid() && channel == old(channel)
      ensures serving ==> stage == Serving && pendingControlRedivert == [] && held == [] && outboundBuffer == []
      ensures serving ==> |session.stamped| + |channel| == |session.produced|
      ensures !serving ==> stage == Down
      ensures !serving ==> || (exists k: nat :: !stagedOk(k)) || (exists k: nat :: !heldOk(k))
                           || (exists k: nat :: !bufferOk(k))
    {
      serving := RedivertPendingControl(stagedOk);
      if serving {
        serving := FlushHeld(heldOk);
      }
      if serving {
        serving := FlushBuffer(bufferOk);
      }
      if serving {
        ServingIsSettled();
      }
    }

    /** In the serve loop nothing is staged or buffered. */
    lemma ServingIsSettled()
      requires Valid() && (stage == Serving || stage == Draining)
      ensures pendingControlRedivert == [] && outboundBuffer == []
      ensures |session.stamped| + |held| + |channel| == |session.produced|
    {
      KeepsInv();
      hide Tracks;
    }

    /** The game has stopped: everything it produced is sent, oldest first. */
    method DrainForTeardown(heldOk: nat -> bool, channelOk: nat -> bool) returns (drained: bool)
      requires Valid() && stage == Serving
      modifies this, ring
      ensures Valid() && (drained ==> stage == Draining) && (!drained ==> stage == Down)
      ensures drained ==> held == [] && channel == [] && |session.stamped| == |session.produced|
      ensures !drained ==> (exists k: nat :: !heldOk(k)) || (exists k: nat :: !channelOk(k))
    {
      hide Valid;
      Begin();
      var sent := 0;
      while held != []
        invariant Valid() && stage == Draining
        decreases |held|
      {
        SendFromHeld(heldOk(sent));
        if !heldOk(sent) {
          return false;
        }
        sent := sent + 1;
      }
      sent := 0;
      while channel != []
        invariant Valid() && stage == Draining && held == []
        decreases |channel|
      {
        SendFromChannel(channelOk(sent));
        if !channelOk(sent) {
          return false;
        }
        sent := sent + 1;
      }
      ServingIsSettled();
      return true;
    }

    method Begin()
      requires Valid() && stage == Serving
      modifies this`stage, this`session, this`run
      ensures Valid() && stage == Draining && run == old(run) + [Teardown]
    {
      MoveTo(Draining, Teardown);
    }

    // Between connections.

    method BufferNext()
      requires Valid() && stage == Down && channel != []
      modifies this`channel, this`outboundBuffer, this`session, this`run
      ensures Valid() && run == old(run) + [BufferTurn]
      ensures channel == old(channel)[1..] && outboundBuffer == old(outboundBuffer) + [old(channel)[0]]
    {
      hide Tracks;
      outboundBuffer := outboundBuffer + [channel[0]];
      channel := channel[1..];
      Step(BufferTurn);
    }

    /** The wait before a dial, during which the driver reads `turns` turns. It gives
        up rather than lose one past the cap. */
    method WaitBackoff(turns: nat) returns (exhausted: bool)
      requires Valid() && stage == Down && turns <= |channel|
      modifies this`channel, this`outboundBuffer, this`session, this`run
      ensures Valid() && outboundBuffer + channel == old(outboundBuffer) + old(channel)
      ensures exhausted <==> turns > 0 && |old(outboundBuffer)| + turns > 256
      ensures !exhausted ==> |outboundBuffer| == |old(outboundBuffer)| + turns
    {
      hide Valid;
      var n := 0;
      while n < turns
        invariant Valid() && stage == Down && n <= turns && |channel| == |old(channel)| - n
        invariant outboundBuffer + channel == old(outboundBuffer) + old(channel)
        invariant n > 0 ==> |outboundBuffer| <= OUTAGE_OUTBOUND_BUFFER_CAP
      {
        BufferNext();
        if |outboundBuffer| > OUTAGE_OUTBOUND_BUFFER_CAP {
          return true;
        }
        n := n + 1;
      }
      return false;
    }

    /** Stages every retained turn no datagram can carry. */
    method StageOversize()
      modifies this`pendingControlRedivert
      ensures pendingControlRedivert == StageAll(old(pendingControlRedivert), Oversize(fits, ring.turns))
    {
      var i := 0;
      while i < |ring.turns|
        invariant 0 <= i <= |ring.turns|
        invariant StageAll(pendingControlRedivert, Oversize(fits, ring.turns[i..]))
               == StageAll(old(pendingControlRedivert), Oversize(fits, ring.turns))
      {
        var turn := ring.turns[i];
        assert ring.turns[i..][1..] == ring.turns[i + 1..];
        if !fits(turn) {
          assert Oversize(fits, ring.turns[i..]) == [turn] + Oversize(fits, ring.turns[i + 1..]);
          pendingControlRedivert := Retention.Stage(pendingControlRedivert, turn);
        }
        i := i + 1;
      }
    }

    /** Puts every retained turn back on its way: those a datagram can carry into the
        unacked window, the others on the list for the control stream. */
    method ReinjectRetention()
      modifies this`pendingControlRedivert, this`unacked
      ensures pendingControlRedivert == StageAll(old(pendingControlRedivert), Oversize(fits, ring.turns))
      ensures unacked == old(unacked) + Reinjected(fits, ring.turns)
    {
      hide Reinjected;
      var i := 0;
      NothingReinjected(fits);
      while i < |ring.turns|
        invariant 0 <= i <= |ring.turns|
        invariant StageAll(pendingControlRedivert, Oversize(fits, ring.turns[i..]))
               == StageAll(old(pendingControlRedivert), Oversize(fits, ring.turns))
        invariant unacked == old(unacked) + Reinjected(fits, ring.turns[..i])
      {
        var turn := ring.turns[i];
        assert ring.turns[i..][1..] == ring.turns[i + 1..];
        assert ring.turns[..i + 1] == ring.turns[..i] + [turn];
        ReinjectedAppend(fits, ring.turns[..i], turn);
        if fits(turn) {
          unacked := unacked + {turn.seqNo};
        } else {
          assert Oversize(fits, ring.turns[i..]) == [turn] + Oversize(fits, ring.turns[i + 1..]);
          pendingControlRedivert := Retention.Stage(pendingControlRedivert, turn);
        }
        i := i + 1;
      }
      assert ring.turns[..i] == ring.turns;
    }

    method SameRelayCursors(peers: seq<(SlotId, nat)>) returns (cursors: seq<(SlotId, nat)>)
      requires Mirrors()
      ensures |cursors| == |peers| + 1 && peers < cursors && cursors[|peers|].0 == ownSlot
      ensures SameRelayAnchored(fits, session, cursors[|peers|].1)
      ensures var own := cursors[|peers|].1;
              && (forall q | q in unacked :: own <= q)
              && (forall t | t in ring.turns && !fits(t) :: own <= t.seqNo)
              && (own in unacked || (exists t | t in ring.turns :: !fits(t) && t.seqNo == own)
                  || (own == nextOutboundSeq && unacked == {} && forall t | t in ring.turns :: fits(t)))
    {
      OversizeSeqs(fits, ring.turns);
      var datagram := OldestOf(unacked);
      var oversize := OldestOversizeSeq(fits, ring.turns);
      cursors := SameRelayResumeCursors(peers, datagram, oversize, ownSlot, nextOutboundSeq,
                                        unacked, SeqsOf(Oversize(fits, ring.turns)));
    }

    /** A dial to the same relay succeeded. Nothing this connection will send again
        lies below the own-slot cursor it was opened with. */
    method ResumeOnSameRelay(peers: seq<(SlotId, nat)>) returns (cursors: seq<(SlotId, nat)>)
      requires Valid() && stage == Down
      modifies this`stage, this`pendingControlRedivert, this`onStream, this`session, this`run
      ensures |cursors| == |peers| + 1 && peers < cursors && cursors[|peers|].0 == ownSlot
      ensures Valid() && stage == Opening && run == old(run) + [ResumeSameRelay(cursors[|peers|].1)]
      ensures cursors[|peers|].1 <= nextOutboundSeq && forall q | q in unacked :: cursors[|peers|].1 <= q
      ensures forall t | t in pendingControlRedivert :: cursors[|peers|].1 <= t.seqNo
      ensures var own := cursors[|peers|].1;
              || own in unacked || (exists t | t in ring.turns :: !fits(t) && t.seqNo == own)
              || (own == nextOutboundSeq && unacked == {} && forall t | t in ring.turns :: fits(t))
      ensures old(pendingControlRedivert) == [] ==> Rising(pendingControlRedivert)
    {
      hide Tracks, SameRelayAnchored, StageAll, Oversize, Can, Do, Rising;
      cursors := SameRelayCursors(peers);
      StagesInOrder();
      ResumeSteps(fits, ownSlot, session, cursors[|peers|].1);
      StageOversize();
      stage, onStream := Opening, [];
      Step(ResumeSameRelay(cursors[|peers|].1));
      AnchorIsKept();
    }

    /** Staged onto an empty list, the oversize turns are in seq order. */
    lemma StagesInOrder()
      requires Valid()
      ensures Rising(StageAll([], Oversize(fits, ring.turns)))
    {
      hide Tracks;
      RingRises();
      OversizeRises(fits, ring.turns);
      var oversize := Oversize(fits, ring.turns);
      assert [] + oversize == oversize;
      StageAllAppends([], oversize);
    }

    lemma RingRises()
      requires Valid()
      ensures Rising(ring.turns)
    {
      KeepsInv();
      hide Tracks, InOrder, Punctual, StagedFromRing, WindowSound, AboveAnchor, Carried, OversizeServed, PathsApart;
      ConservedIsNumbered(ownSlot, session.produced, session.stamped, Waiting(session));
    }

    lemma AnchorIsKept()
      requires Valid()
      ensures AboveAnchor(session.anchor, |session.stamped|, session.staged, session.onStream,
                          session.rehomed, session.unacked)
    {
      KeepsInv();
      hide Tracks, Mirrors, AboveAnchor, Conserved, InOrder, Punctual, StagedFromRing, WindowSound, Carried;
      hide OversizeServed, PathsApart;
    }

    method RehomeOwnSlotAnchor() returns (anchor: nat)
      requires Mirrors()
      ensures RehomeAnchored(session, anchor)
      ensures ring.turns != [] ==>
                var front := ring.turns[0].seqNo;
                && anchor <= front && (forall q | anchor <= q < front :: q in unacked)
                && (anchor > 0 ==> anchor - 1 !in unacked)
      ensures ring.turns == [] && unacked == {} ==> anchor == 0
    {
      if ring.turns != [] {
        anchor := ContiguousReplayableAnchor(unacked, ring.turns[0].seqNo);
      } else {
        var oldest := OldestOf(unacked);
        anchor := if oldest.Some? then oldest.value else 0;
      }
    }

    /** A dial to a replacement relay succeeded: every turn from the anchor on is
        carried to it anew. */
    method RehomeToNewRelay() returns (anchor: nat)
      requires Valid() && stage == Down
      modifies this`stage, this`pendingControlRedivert, this`onStream, this`unacked, this`session, this`run
      ensures Valid() && stage == Opening && run == old(run) + [Rehome(anchor)]
      ensures ring.turns != [] ==>
                var front := ring.turns[0].seqNo;
                && anchor <= front && (forall q | anchor <= q < front :: q in old(unacked))
                && (anchor > 0 ==> anchor - 1 !in old(unacked))
      ensures forall q | anchor <= q < |session.stamped| ::
                q in unacked || session.stamped[q] in pendingControlRedivert
    {
      hide Tracks, RehomeAnchored, StageAll, Oversize, Reinjected, Can, Do;
      anchor := RehomeOwnSlotAnchor();
      ResumeSteps(fits, ownSlot, session, anchor);
      ReinjectRetention();
      stage, onStream := Opening, [];
      Step(Rehome(anchor));
      assert run[|run| - 1] == Rehome(anchor);
      RehomeIsWhole();
    }

    lemma RehomeIsWhole()
      requires Tracks() && run != [] && run[|run| - 1].Rehome?
      ensures forall q | run[|run| - 1].anchor <= q < |session.stamped| ::
                q in session.unacked || session.stamped[q] in session.staged
    {
      RehomeLeavesNoHole(fits, ownSlot, run);
    }
  }

  method OldestOf(seqs: set<nat>) returns (r: Option<nat>)
    ensures IsOldest(r, seqs)
  {
    r := None;
    var rest := seqs;
    while rest != {}
      invariant rest <= seqs
      invariant r.None? <==> rest == seqs
      invariant r.Some? ==> r.value in seqs && forall q | q in seqs && q !in rest :: r.value <= q
      decreases rest
    {
      var q :| q in rest;
      rest := rest - {q};
      r := Some(if r.None? then q else Min(r.value, q));
    }
  }
}
