/** One client's outbound turns over a whole session: produced by the game, held
    for their send phase, buffered through outages, stamped, retained, carried by
    datagram or control stream, and resumed on the same relay or a new one. */
module Turns {
  import opened Basics
  import opened Messages
  import opened Retention
  import Phase

  const HELD_TURN_CAP: nat := 64
  const OUTAGE_OUTBOUND_BUFFER_CAP: nat := 256

  /** Where the driver is: between links, opening one (staged turns first), working
      off what piled up, serving, draining after the game stopped, or finished. */
  datatype Stage = Down | Opening | FlushingHeld | FlushingBuffer | Serving | Draining | Over

  datatype Held = Held(due: nat, acceptedAt: nat, delayUs: nat, payload: Payload)

  datatype Session = Session(
    stage: Stage,
    clock: nat,
    channel: seq<Payload>,     // handed over by the game, not yet read
    held: seq<Held>,           // waiting out a send-phase delay
    buffer: seq<Payload>,      // read while the link was down
    retention: seq<Payload>,
    staged: seq<Payload>,      // owed to the next control stream
    unacked: set<nat>,         // re-carried by datagram until acked
    anchor: nat,               // own-slot anchor this connection was resumed with
    rehomed: bool,             // whether it was resumed on a new relay
    onStream: seq<nat>,        // turns written on this connection's control stream
    produced: seq<Payload>,    // everything the game ever produced
    stamped: seq<Payload>,     // everything ever stamped, in order
    acked: set<nat>,
    written: set<nat>)         // turns ever written on a control stream

  const Fresh := Session(Opening, 0, [], [], [], [], [], {}, 0, false, [], [], [], {}, {})

  datatype Action =
    | Produce(payload: Payload)            // the game hands a turn over
    | Tick(now: nat)                       // time passes
    | Hold(delayUs: nat)                   // the next turn waits out its phase
    | SendChannel(ok: bool)                // the next turn goes straight out
    | SendHeld(ok: bool)                   // the oldest held turn goes out
    | SendBuffer(ok: bool)                 // the oldest buffered turn goes out
    | BufferTurn                           // a turn read during an outage
    | Acked(seqs: set<nat>)                // packet acks or a beacon cursor
    | LinkFails
    | ResumeSameRelay(anchor: nat)
    | Rehome(anchor: nat)
    | Redivert(ok: bool)                   // the oldest staged turn is written
    | StagedDone | HeldDone | BufferDone   // the session moves on
    | Teardown
    | Finish

  function Stamp(p: Payload, seqNo: nat, slot: SlotId): Payload {
    p.(seqNo := seqNo, slot := slot)
  }

  /** The wire handoff every turn goes through: stamp, retain, and carry. A
      datagram turn is in the unacked window even if this send fails. */
  function Handoff(fits: Fits, slot: SlotId, s: Session, p: Payload, ok: bool): Session {
    var n := |s.stamped|;
    var t := Stamp(p, n, slot);
    var diverted := !fits(t) && ok;
    s.(stamped := s.stamped + [t],
       retention := Push(s.retention, t),
       unacked := if fits(t) then s.unacked + {n} else s.unacked,
       onStream := if diverted then s.onStream + [n] else s.onStream,
       written := if diverted then s.written + {n} else s.written,
       stage := if ok then s.stage else Down)
  }

  function Payloads(held: seq<Held>): seq<Payload> {
    seq(|held|, i requires 0 <= i < |held| => held[i].payload)
  }

  function DueFor(s: Session, delayUs: nat): nat {
    var due := s.clock + delayUs * Phase.NANOS_PER_MICRO;
    if s.held == [] then due else Max(due, s.held[|s.held| - 1].due)
  }

  /** What a same-relay resume will send again. */
  function Resent(fits: Fits, s: Session): set<nat> {
    s.unacked + SeqsOf(Oversize(fits, s.retention))
  }

  ghost predicate SameRelayAnchored(fits: Fits, s: Session, a: nat) {
    if Resent(fits, s) == {} then a == |s.stamped| else IsLeast(a, Resent(fits, s))
  }

  ghost predicate RehomeAnchored(s: Session, a: nat) {
    if s.retention != [] then IsContiguousAnchor(s.unacked, s.retention[0].seqNo, a)
    else if s.unacked != {} then IsLeast(a, s.unacked)
    else a == 0
  }

  predicate Up(s: Session) {
    s.stage != Down && s.stage != Over
  }

  ghost predicate Can(fits: Fits, s: Session, a: Action) {
    match a
    case Produce(_) => true
    case Tick(now) => s.clock <= now
    case Hold(delayUs) => s.stage == Serving && s.channel != [] && delayUs <= Phase.MAX_DELAY_US
    case SendChannel(_) => (s.stage == Serving || s.stage == Draining) && s.held == [] && s.channel != []
    case SendHeld(_) => (s.stage == FlushingHeld || s.stage == Serving || s.stage == Draining) && s.held != []
    case SendBuffer(_) => s.stage == FlushingBuffer && s.buffer != []
    case BufferTurn => s.stage == Down && s.channel != []
    case Acked(seqs) => seqs <= s.unacked
    case LinkFails => Up(s)
    case ResumeSameRelay(anchor) => s.stage == Down && SameRelayAnchored(fits, s, anchor)
    case Rehome(anchor) => s.stage == Down && RehomeAnchored(s, anchor)
    case Redivert(_) => s.stage == Opening && s.staged != []
    case StagedDone => s.stage == Opening && s.staged == []
    case HeldDone => s.stage == FlushingHeld && s.held == []
    case BufferDone => s.stage == FlushingBuffer && s.buffer == []
    case Teardown => s.stage == Serving
    case Finish => true
  }

  ghost function Do(fits: Fits, slot: SlotId, s: Session, a: Action): Session
    requires Can(fits, s, a)
  {
    match a
    case Produce(p) => s.(channel := s.channel + [p], produced := s.produced + [p])
    case Tick(now) => s.(clock := now)
    case Hold(delayUs) =>
      s.(channel := s.channel[1..], held := s.held + [Held(DueFor(s, delayUs), s.clock, delayUs, s.channel[0])])
    case SendChannel(ok) => Handoff(fits, slot, s.(channel := s.channel[1..]), s.channel[0], ok)
    case SendHeld(ok) => Handoff(fits, slot, s.(held := s.held[1..]), s.held[0].payload, ok)
    case SendBuffer(ok) => Handoff(fits, slot, s.(buffer := s.buffer[1..]), s.buffer[0], ok)
    case BufferTurn => s.(channel := s.channel[1..], buffer := s.buffer + [s.channel[0]])
    case Acked(seqs) => s.(unacked := s.unacked - seqs, acked := s.acked + seqs)
    case LinkFails => s.(stage := Down)
    case ResumeSameRelay(anchor) =>
      s.(stage := Opening, anchor := anchor, rehomed := false, onStream := [],
         staged := StageAll(s.staged, Oversize(fits, s.retention)))
    case Rehome(anchor) =>
      s.(stage := Opening, anchor := anchor, rehomed := true, onStream := [],
         staged := StageAll(s.staged, Oversize(fits, s.retention)),
         unacked := s.unacked + set t | t in s.retention && fits(t) :: t.seqNo)
    case Redivert(ok) =>
      if !ok then s.(stage := Down)
      else s.(staged := s.staged[1..], onStream := s.onStream + [s.staged[0].seqNo],
              written := s.written + {s.staged[0].seqNo})
    case StagedDone => s.(stage := FlushingHeld)
    case HeldDone => s.(stage := FlushingBuffer)
    case BufferDone => s.(stage := Serving)
    case Teardown => s.(stage := Draining)
    case Finish => s.(stage := Over)
  }

  ghost predicate IsRun(fits: Fits, slot: SlotId, run: seq<Action>)
    decreases |run|, 0
  {
    run != [] ==>
      && IsRun(fits, slot, run[..|run| - 1])
      && Can(fits, After(fits, slot, run[..|run| - 1]), run[|run| - 1])
  }

  ghost function After(fits: Fits, slot: SlotId, run: seq<Action>): Session
    requires IsRun(fits, slot, run)
    decreases |run|, 1
  {
    if run == [] then Fresh else Do(fits, slot, After(fits, slot, run[..|run| - 1]), run[|run| - 1])
  }

  // What every step keeps.

  /** The turns not yet stamped, oldest first. */
  function Waiting(s: Session): seq<Payload> {
    Payloads(s.held) + s.buffer + s.channel
  }

  /** Stamped and waiting turns together are what the game produced, in order, and
      the i-th turn produced is the one stamped i. */
  ghost predicate Conserved(slot: SlotId, produced: seq<Payload>, stamped: seq<Payload>, waiting: seq<Payload>) {
    && |stamped| <= |produced|
    && (forall i | 0 <= i < |stamped| :: stamped[i] == Stamp(produced[i], i, slot))
    && produced[|stamped|..] == waiting
  }

  /** Each stage has worked off what earlier stages were for. */
  ghost predicate InOrder(s: Session) {
    && (s.stage == FlushingBuffer ==> s.held == [])
    && (s.stage == Serving || s.stage == Draining ==> s.buffer == [])
    && (s.staged != [] ==> s.stage == Down || s.stage == Opening || s.stage == Over)
  }

  /** Staged turns are retained turns no datagram can carry, each staged once. */
  ghost predicate StagedFromRing(fits: Fits, staged: seq<Payload>, retention: seq<Payload>) {
    && (forall t | t in staged :: t in retention && !fits(t))
    && NoDuplicates(staged)
  }

  ghost predicate WindowSound(fits: Fits, unacked: set<nat>, stamped: seq<Payload>) {
    forall q | q in unacked :: q < |stamped| && fits(stamped[q])
  }

  /** Nothing this connection sends or will send again lies below its anchor; on a
      new relay, nothing but datagrams older than a hole. */
  ghost predicate AboveAnchor(anchor: nat, nextSeq: nat, staged: seq<Payload>, onStream: seq<nat>,
                              rehomed: bool, unacked: set<nat>)
  {
    && anchor <= nextSeq
    && (forall t | t in staged :: anchor <= t.seqNo)
    && (forall q | q in onStream :: anchor <= q)
    && (!rehomed ==> forall q | q in unacked :: anchor <= q)
  }

  /** No turn is without a carrier: acked, re-carried by datagram, written to a
      control stream, owed to the next one, or retained for it while down. */
  ghost predicate Carried(fits: Fits, up: bool, stamped: seq<Payload>, acked: set<nat>, unacked: set<nat>,
                          written: set<nat>, staged: seq<Payload>, retention: seq<Payload>)
  {
    forall q | 0 <= q < |stamped| ::
      || q in acked || q in unacked || q in written || stamped[q] in staged
      || (!up && stamped[q] in retention && !fits(stamped[q]))
  }

  /** While a connection is up, its own control stream has carried or is owed every
      retained turn no datagram can. */
  ghost predicate OversizeServed(fits: Fits, up: bool, retention: seq<Payload>, onStream: seq<nat>,
                                 staged: seq<Payload>)
  {
    up ==> forall t | t in retention && !fits(t) :: t.seqNo in onStream || t in staged
  }

  /** Acks are of turns a datagram can carry, control-stream writes of the others. */
  ghost predicate PathsApart(fits: Fits, stamped: seq<Payload>, acked: set<nat>, written: set<nat>) {
    && (forall q | q in acked :: q < |stamped| && fits(stamped[q]))
    && (forall q | q in written :: q < |stamped| && !fits(stamped[q]))
  }

  /** Held deadlines are in order, wait out their delay and are at most the maximal
      one past acceptance; a later one is its own or the one before it. */
  ghost predicate Punctual(clock: nat, held: seq<Held>) {
    && (forall i | 0 <= i < |held| ::
          && held[i].acceptedAt <= clock
          && OwnDeadline(held[i]) <= held[i].due <= held[i].acceptedAt + Phase.MAX_DELAY_US * Phase.NANOS_PER_MICRO)
    && (forall i | 0 < i < |held| :: held[i].due == OwnDeadline(held[i]) || held[i].due == held[i - 1].due)
    && (forall i, j | 0 <= i < j < |held| ::
          held[i].due <= held[j].due && held[i].acceptedAt <= held[j].acceptedAt)
  }

  function OwnDeadline(h: Held): nat {
    h.acceptedAt + h.delayUs * Phase.NANOS_PER_MICRO
  }

  ghost predicate Inv(fits: Fits, slot: SlotId, s: Session) {
    && Conserved(slot, s.produced, s.stamped, Waiting(s))
    && InOrder(s)
    && Punctual(s.clock, s.held)
    && IsLongestSuffix(s.retention, s.stamped)
    && StagedFromRing(fits, s.staged, s.retention)
    && WindowSound(fits, s.unacked, s.stamped)
    && AboveAnchor(s.anchor, |s.stamped|, s.staged, s.onStream, s.rehomed, s.unacked)
    && Carried(fits, Up(s), s.stamped, s.acked, s.unacked, s.written, s.staged, s.retention)
    && OversizeServed(fits, Up(s), s.retention, s.onStream, s.staged)
    && PathsApart(fits, s.stamped, s.acked, s.written)
  }

  // The ring's turns know their own place.

  ghost predicate Numbered(stamped: seq<Payload>) {
    forall i | 0 <= i < |stamped| :: stamped[i].seqNo == i
  }

  lemma ConservedIsNumbered(slot: SlotId, produced: seq<Payload>, stamped: seq<Payload>, waiting: seq<Payload>)
    requires Conserved(slot, produced, stamped, waiting)
    ensures Numbered(stamped)
  {
  }

  lemma RingIsNotEmpty(retention: seq<Payload>, stamped: seq<Payload>)
    requires IsLongestSuffix(retention, stamped) && stamped != []
    ensures retention != []
  {
    var last := [stamped[|stamped| - 1]];
    assert IsSuffix(last, stamped) && WithinCaps(last);
  }

  /** A retained turn is the stamped turn of its own number. */
  lemma RingIsIndexed(retention: seq<Payload>, stamped: seq<Payload>)
    requires Numbered(stamped) && IsLongestSuffix(retention, stamped)
    ensures forall t | t in retention :: t.seqNo < |stamped| && t == stamped[t.seqNo]
    ensures retention != [] ==> retention[0].seqNo == |stamped| - |retention|
    ensures forall q | |stamped| - |retention| <= q < |stamped| :: stamped[q] in retention
    ensures stamped != [] ==> retention != []
  {
    if stamped != [] {
      RingIsNotEmpty(retention, stamped);
    }
    hide WithinCaps;
    var k := |stamped| - |retention|;
    assert forall i | 0 <= i < |retention| :: retention[i] == stamped[k + i];
    assert forall q | k <= q < |stamped| :: stamped[q] == retention[q - k];
  }

  /** Every oversize retained turn ends up staged, once, among what was there. */
  lemma StagingIsSound(fits: Fits, staged: seq<Payload>, retention: seq<Payload>, stamped: seq<Payload>)
    requires Numbered(stamped) && IsLongestSuffix(retention, stamped) && StagedFromRing(fits, staged, retention)
    ensures var staged' := StageAll(staged, Oversize(fits, retention));
            && StagedFromRing(fits, staged', retention)
            && forall t :: t in staged' <==> t in retention && !fits(t)
  {
    RingIsIndexed(retention, stamped);
    OversizeIsExact(fits, retention);
    StageAllIsUnion(staged, Oversize(fits, retention), set t | t in stamped);
  }

  // Step by step.

  lemma HandoffConserves(slot: SlotId, produced: seq<Payload>, stamped: seq<Payload>, waiting: seq<Payload>)
    requires Conserved(slot, produced, stamped, waiting) && waiting != []
    ensures Conserved(slot, produced, stamped + [Stamp(waiting[0], |stamped|, slot)], waiting[1..])
  {
    assert waiting[0] == produced[|stamped|];
    assert produced[|stamped| + 1..] == waiting[1..];
  }

  lemma NewestIsRetained(retention: seq<Payload>, stamped: seq<Payload>)
    requires IsLongestSuffix(retention, stamped) && retention != []
    ensures stamped[|stamped| - 1] in retention
  {
    assert retention[|retention| - 1] == stamped[|stamped| - 1];
  }

  lemma HandoffCarries(fits: Fits, ok: bool, stamped: seq<Payload>, t: Payload, acked: set<nat>, unacked: set<nat>,
                       written: set<nat>, retention: seq<Payload>, retention': seq<Payload>)
    requires Carried(fits, true, stamped, acked, unacked, written, [], retention) && t in retention'
    ensures var n := |stamped|;
            Carried(fits, ok, stamped + [t], acked, if fits(t) then unacked + {n} else unacked,
                    if !fits(t) && ok then written + {n} else written, [], retention')
  {
    assert forall q | 0 <= q < |stamped| :: (stamped + [t])[q] == stamped[q];
  }

  lemma HandoffWindow(fits: Fits, stamped: seq<Payload>, t: Payload, unacked: set<nat>)
    requires WindowSound(fits, unacked, stamped)
    ensures WindowSound(fits, if fits(t) then unacked + {|stamped|} else unacked, stamped + [t])
  {
  }

  lemma HandoffServes(fits: Fits, ok: bool, retention: seq<Payload>, t: Payload, onStream: seq<nat>)
    requires OversizeServed(fits, true, retention, onStream, [])
    ensures OversizeServed(fits, ok, Push(retention, t), if !fits(t) && ok then onStream + [t.seqNo] else onStream, [])
  {
    PushComesFrom(retention, t);
    hide Push;
  }

  lemma HandoffKeepsPathsApart(fits: Fits, ok: bool, stamped: seq<Payload>, t: Payload, acked: set<nat>, written: set<nat>)
    requires PathsApart(fits, stamped, acked, written)
    ensures PathsApart(fits, stamped + [t], acked, if !fits(t) && ok then written + {|stamped|} else written)
  {
  }

  /** Handing over the oldest waiting turn, whichever queue it waited in. */
  lemma HandoffKeeps(fits: Fits, slot: SlotId, s: Session, popped: Session, p: Payload, ok: bool)
    requires Inv(fits, slot, s) && Up(s) && s.staged == []
    requires Waiting(s) != [] && p == Waiting(s)[0] && Waiting(popped) == Waiting(s)[1..]
    requires popped == s.(held := popped.held, buffer := popped.buffer, channel := popped.channel)
    requires InOrder(popped) && Punctual(popped.clock, popped.held)
    ensures Inv(fits, slot, Handoff(fits, slot, popped, p, ok))
  {
    hide Conserved, Punctual, IsLongestSuffix, Carried, WindowSound, Push, StagedFromRing, OversizeServed, PathsApart;
    var s', t := Handoff(fits, slot, popped, p, ok), Stamp(p, |s.stamped|, slot);
    assert StagedFromRing(fits, [], s'.retention) by { NothingStaged(fits, s'.retention); }
    HandoffConserves(slot, s.produced, s.stamped, Waiting(s));
    PushIsLongest(s.retention, s.stamped, t);
    NewestIsRetained(s'.retention, s'.stamped);
    HandoffCarries(fits, ok, s.stamped, t, s.acked, s.unacked, s.written, s.retention, s'.retention);
    HandoffWindow(fits, s.stamped, t, s.unacked);
    HandoffServes(fits, ok, s.retention, t, s.onStream);
    HandoffKeepsPathsApart(fits, ok, s.stamped, t, s.acked, s.written);
    assert Waiting(s') == Waiting(popped);
  }

  lemma NothingStaged(fits: Fits, retention: seq<Payload>)
    ensures StagedFromRing(fits, [], retention)
  {
  }

  lemma SendKeeps(fits: Fits, slot: SlotId, s: Session, a: Action)
    requires Inv(fits, slot, s) && Can(fits, s, a) && (a.SendChannel? || a.SendHeld? || a.SendBuffer?)
    ensures Inv(fits, slot, Do(fits, slot, s, a))
  {
    hide Inv, Handoff;
    match a {
      case SendChannel(ok) => SendChannelKeeps(fits, slot, s, ok);
      case SendHeld(ok) => SendHeldKeeps(fits, slot, s, ok);
      case SendBuffer(ok) => SendBufferKeeps(fits, slot, s, ok);
    }
  }

  lemma SendChannelKeeps(fits: Fits, slot: SlotId, s: Session, ok: bool)
    requires Inv(fits, slot, s) && Can(fits, s, SendChannel(ok))
    ensures Inv(fits, slot, Handoff(fits, slot, s.(channel := s.channel[1..]), s.channel[0], ok))
  {
    hide Conserved, IsLongestSuffix, StagedFromRing, WindowSound, AboveAnchor, Carried, OversizeServed, PathsApart;
    hide Handoff;
    HandoffKeeps(fits, slot, s, s.(channel := s.channel[1..]), s.channel[0], ok);
  }

  lemma SendHeldKeeps(fits: Fits, slot: SlotId, s: Session, ok: bool)
    requires Inv(fits, slot, s) && Can(fits, s, SendHeld(ok))
    ensures Inv(fits, slot, Handoff(fits, slot, s.(held := s.held[1..]), s.held[0].payload, ok))
  {
    hide Conserved, IsLongestSuffix, StagedFromRing, WindowSound, AboveAnchor, Carried, OversizeServed, PathsApart;
    hide Handoff;
    assert Payloads(s.held)[1..] == Payloads(s.held[1..]);
    HandoffKeeps(fits, slot, s, s.(held := s.held[1..]), s.held[0].payload, ok);
  }

  lemma SendBufferKeeps(fits: Fits, slot: SlotId, s: Session, ok: bool)
    requires Inv(fits, slot, s) && Can(fits, s, SendBuffer(ok))
    ensures Inv(fits, slot, Handoff(fits, slot, s.(buffer := s.buffer[1..]), s.buffer[0], ok))
  {
    hide Conserved, IsLongestSuffix, StagedFromRing, WindowSound, AboveAnchor, Carried, OversizeServed, PathsApart;
    hide Handoff;
    HandoffKeeps(fits, slot, s, s.(buffer := s.buffer[1..]), s.buffer[0], ok);
  }

  /** Staging everything oversize keeps every turn carried once the link is up. */
  lemma StagingCarries(fits: Fits, stamped: seq<Payload>, acked: set<nat>, unacked: set<nat>, unacked': set<nat>,
                       written: set<nat>, staged: seq<Payload>, staged': seq<Payload>, retention: seq<Payload>)
    requires Carried(fits, false, stamped, acked, unacked, written, staged, retention)
    requires unacked <= unacked' && StagedFromRing(fits, staged, retention)
    requires forall t :: t in staged' <==> t in retention && !fits(t)
    ensures Carried(fits, true, stamped, acked, unacked', written, staged', retention)
  {
  }

  lemma StagingServes(fits: Fits, retention: seq<Payload>, staged: seq<Payload>)
    requires forall t :: t in staged <==> t in retention && !fits(t)
    ensures OversizeServed(fits, true, retention, [], staged)
  {
  }

  lemma SameRelayAnchorCovers(fits: Fits, s: Session, a: nat, staged: seq<Payload>)
    requires SameRelayAnchored(fits, s, a) && WindowSound(fits, s.unacked, s.stamped)
    requires forall t | t in s.retention :: t.seqNo < |s.stamped|
    requires forall t | t in staged :: t in s.retention && !fits(t)
    ensures AboveAnchor(a, |s.stamped|, staged, [], false, s.unacked)
  {
    OversizeIsExact(fits, s.retention);
    hide Oversize;
    forall t | t in staged ensures a <= t.seqNo {
      assert t in Oversize(fits, s.retention);
      assert t.seqNo in Resent(fits, s);
    }
    forall q | q in s.unacked ensures a <= q {
      assert q in Resent(fits, s);
    }
    if Resent(fits, s) != {} && a !in s.unacked {
      var t :| t in Oversize(fits, s.retention) && t.seqNo == a;
    }
  }

  /** A resume on the same relay: the anchor covers both ways turns are re-sent. */
  lemma ResumeKeeps(fits: Fits, slot: SlotId, s: Session, a: nat)
    requires Inv(fits, slot, s) && Can(fits, s, ResumeSameRelay(a))
    ensures Inv(fits, slot, Do(fits, slot, s, ResumeSameRelay(a)))
  {
    hide Conserved, Punctual, IsLongestSuffix, Carried, WindowSound, StagedFromRing, AboveAnchor, StageAll, Oversize,
         Numbered, PathsApart, OversizeServed;
    ConservedIsNumbered(slot, s.produced, s.stamped, Waiting(s));
    var staged := StageAll(s.staged, Oversize(fits, s.retention));
    RingIsIndexed(s.retention, s.stamped);
    StagingIsSound(fits, s.staged, s.retention, s.stamped);
    SameRelayAnchorCovers(fits, s, a, staged);
    StagingCarries(fits, s.stamped, s.acked, s.unacked, s.unacked, s.written, s.staged, staged, s.retention);
    StagingServes(fits, s.retention, staged);
  }

  lemma RehomeAnchorCovers(fits: Fits, s: Session, a: nat, staged: seq<Payload>, unacked: set<nat>)
    requires RehomeAnchored(s, a) && Numbered(s.stamped) && IsLongestSuffix(s.retention, s.stamped)
    requires WindowSound(fits, s.unacked, s.stamped)
    requires forall t | t in staged :: t in s.retention
    ensures AboveAnchor(a, |s.stamped|, staged, [], true, unacked)
  {
    RingIsIndexed(s.retention, s.stamped);
    assert s.retention == [] ==> s.unacked == {};
    forall t | t in staged ensures a <= t.seqNo {
      assert t.seqNo >= |s.stamped| - |s.retention|;
    }
  }

  lemma ReinjectedWindow(fits: Fits, unacked: set<nat>, retention: seq<Payload>, stamped: seq<Payload>)
    requires WindowSound(fits, unacked, stamped)
    requires forall t | t in retention :: t.seqNo < |stamped| && t == stamped[t.seqNo]
    ensures WindowSound(fits, unacked + set t | t in retention && fits(t) :: t.seqNo, stamped)
  {
  }

  lemma RehomeKeeps(fits: Fits, slot: SlotId, s: Session, a: nat)
    requires Inv(fits, slot, s) && Can(fits, s, Rehome(a))
    ensures Inv(fits, slot, Do(fits, slot, s, Rehome(a)))
  {
    hide Conserved, Punctual, IsLongestSuffix, Carried, WindowSound, StagedFromRing, AboveAnchor, StageAll, Oversize,
         Numbered, PathsApart, OversizeServed;
    ConservedIsNumbered(slot, s.produced, s.stamped, Waiting(s));
    var s' := Do(fits, slot, s, Rehome(a));
    RingIsIndexed(s.retention, s.stamped);
    StagingIsSound(fits, s.staged, s.retention, s.stamped);
    RehomeAnchorCovers(fits, s, a, s'.staged, s'.unacked);
    ReinjectedWindow(fits, s.unacked, s.retention, s.stamped);
    StagingCarries(fits, s.stamped, s.acked, s.unacked, s'.unacked, s.written, s.staged, s'.staged, s.retention);
    StagingServes(fits, s.retention, s'.staged);
  }

  lemma RedivertKeeps(fits: Fits, slot: SlotId, s: Session, ok: bool)
    requires Inv(fits, slot, s) && Can(fits, s, Redivert(ok))
    ensures Inv(fits, slot, Do(fits, slot, s, Redivert(ok)))
  {
    hide Conserved, Punctual, IsLongestSuffix, Carried, WindowSound, StagedFromRing, AboveAnchor, Numbered;
    hide OversizeServed, PathsApart;
    if ok {
      ConservedIsNumbered(slot, s.produced, s.stamped, Waiting(s));
      RedivertCarries(fits, s);
      RedivertServes(fits, s);
    } else {
      DownServes(fits, s.retention, s.onStream, s.staged);
      Unlinking(fits, s.stamped, s.acked, s.unacked, s.written, s.staged, s.retention);
    }
  }

  lemma RedivertCarries(fits: Fits, s: Session)
    requires s.staged != [] && Numbered(s.stamped) && IsLongestSuffix(s.retention, s.stamped)
    requires StagedFromRing(fits, s.staged, s.retention)
    requires AboveAnchor(s.anchor, |s.stamped|, s.staged, s.onStream, s.rehomed, s.unacked)
    requires Carried(fits, true, s.stamped, s.acked, s.unacked, s.written, s.staged, s.retention)
    ensures var q, staged := s.staged[0].seqNo, s.staged[1..];
            && StagedFromRing(fits, staged, s.retention)
            && AboveAnchor(s.anchor, |s.stamped|, staged, s.onStream + [q], s.rehomed, s.unacked)
            && Carried(fits, true, s.stamped, s.acked, s.unacked, s.written + {q}, staged, s.retention)
  {
    hide IsLongestSuffix, Carried;
    RingIsIndexed(s.retention, s.stamped);
    assert s.staged == [s.staged[0]] + s.staged[1..];
    WrittenIsCarried(fits, s);
  }

  lemma WrittenIsCarried(fits: Fits, s: Session)
    requires s.staged != [] && Numbered(s.stamped)
    requires Carried(fits, true, s.stamped, s.acked, s.unacked, s.written, s.staged, s.retention)
    ensures Carried(fits, true, s.stamped, s.acked, s.unacked, s.written + {s.staged[0].seqNo}, s.staged[1..], s.retention)
  {
    assert s.staged == [s.staged[0]] + s.staged[1..];
  }

  lemma RedivertServes(fits: Fits, s: Session)
    requires s.staged != [] && Numbered(s.stamped) && IsLongestSuffix(s.retention, s.stamped)
    requires StagedFromRing(fits, s.staged, s.retention) && PathsApart(fits, s.stamped, s.acked, s.written)
    requires OversizeServed(fits, true, s.retention, s.onStream, s.staged)
    ensures var q, staged := s.staged[0].seqNo, s.staged[1..];
            && OversizeServed(fits, true, s.retention, s.onStream + [q], staged)
            && PathsApart(fits, s.stamped, s.acked, s.written + {q})
  {
    hide IsLongestSuffix;
    RingIsIndexed(s.retention, s.stamped);
    assert s.staged == [s.staged[0]] + s.staged[1..];
  }

  lemma DownServes(fits: Fits, retention: seq<Payload>, onStream: seq<nat>, staged: seq<Payload>)
    ensures OversizeServed(fits, false, retention, onStream, staged)
  {
  }

  /** Losing the link takes no carrier away. */
  lemma Unlinking(fits: Fits, stamped: seq<Payload>, acked: set<nat>, unacked: set<nat>,
                  written: set<nat>, staged: seq<Payload>, retention: seq<Payload>)
    requires Carried(fits, true, stamped, acked, unacked, written, staged, retention)
    ensures Carried(fits, false, stamped, acked, unacked, written, staged, retention)
  {
  }

  lemma ProductionConserves(slot: SlotId, produced: seq<Payload>, stamped: seq<Payload>, waiting: seq<Payload>, p: Payload)
    requires Conserved(slot, produced, stamped, waiting)
    ensures Conserved(slot, produced + [p], stamped, waiting + [p])
  {
    assert (produced + [p])[|stamped|..] == produced[|stamped|..] + [p];
  }

  /** A turn joins the hold in deadline order. */
  lemma HoldIsPunctual(s: Session, delayUs: nat, p: Payload)
    requires Punctual(s.clock, s.held) && delayUs <= Phase.MAX_DELAY_US
    ensures Punctual(s.clock, s.held + [Held(DueFor(s, delayUs), s.clock, delayUs, p)])
  {
  }

  lemma QueueKeeps(fits: Fits, slot: SlotId, s: Session, a: Action)
    requires Inv(fits, slot, s) && Can(fits, s, a) && (a.Produce? || a.Hold? || a.BufferTurn?)
    ensures Inv(fits, slot, Do(fits, slot, s, a))
  {
    hide Inv, DueFor;
    match a {
      case Produce(p) => ProduceKeeps(fits, slot, s, p);
      case Hold(delayUs) => HoldKeeps(fits, slot, s, delayUs);
      case BufferTurn => BufferKeeps(fits, slot, s);
    }
  }

  lemma ProduceKeeps(fits: Fits, slot: SlotId, s: Session, p: Payload)
    requires Inv(fits, slot, s)
    ensures Inv(fits, slot, s.(channel := s.channel + [p], produced := s.produced + [p]))
  {
    hide Conserved, Punctual, IsLongestSuffix, StagedFromRing, WindowSound, AboveAnchor, Carried;
    hide OversizeServed, PathsApart, Payloads;
    ProductionConserves(slot, s.produced, s.stamped, Waiting(s), p);
    assert Waiting(s.(channel := s.channel + [p], produced := s.produced + [p])) == Waiting(s) + [p];
  }

  lemma HoldKeeps(fits: Fits, slot: SlotId, s: Session, delayUs: nat)
    requires Inv(fits, slot, s) && s.channel != [] && s.stage == Serving && delayUs <= Phase.MAX_DELAY_US
    ensures Inv(fits, slot, s.(channel := s.channel[1..],
                               held := s.held + [Held(DueFor(s, delayUs), s.clock, delayUs, s.channel[0])]))
  {
    hide Conserved, Punctual, IsLongestSuffix, StagedFromRing, WindowSound, AboveAnchor, Carried, DueFor;
    hide OversizeServed, PathsApart;
    HoldIsPunctual(s, delayUs, s.channel[0]);
    var held := s.held + [Held(DueFor(s, delayUs), s.clock, delayUs, s.channel[0])];
    assert Payloads(held) == Payloads(s.held) + [s.channel[0]];
    assert Waiting(s.(channel := s.channel[1..], held := held)) == Waiting(s);
  }

  lemma BufferKeeps(fits: Fits, slot: SlotId, s: Session)
    requires Inv(fits, slot, s) && s.channel != [] && s.stage == Down
    ensures Inv(fits, slot, s.(channel := s.channel[1..], buffer := s.buffer + [s.channel[0]]))
  {
    hide Conserved, Punctual, IsLongestSuffix, StagedFromRing, WindowSound, AboveAnchor, Carried;
    hide OversizeServed, PathsApart, Payloads;
    assert Waiting(s.(channel := s.channel[1..], buffer := s.buffer + [s.channel[0]])) == Waiting(s);
  }

  lemma AckKeeps(fits: Fits, slot: SlotId, s: Session, seqs: set<nat>)
    requires Inv(fits, slot, s) && seqs <= s.unacked
    ensures Inv(fits, slot, s.(unacked := s.unacked - seqs, acked := s.acked + seqs))
  {
    hide Conserved, Punctual, IsLongestSuffix, StagedFromRing, OversizeServed;
  }

  /** Moving between stages touches no queue. */
  lemma StageKeeps(fits: Fits, slot: SlotId, s: Session, next: Stage)
    requires Inv(fits, slot, s) && InOrder(s.(stage := next))
    requires next == Down || next == Over || Up(s)
    ensures Inv(fits, slot, s.(stage := next))
  {
    hide Conserved, Punctual, IsLongestSuffix, StagedFromRing, WindowSound, AboveAnchor, Carried, Payloads;
    hide OversizeServed, PathsApart;
    DownServes(fits, s.retention, s.onStream, s.staged);
    if Up(s) && (next == Down || next == Over) {
      Unlinking(fits, s.stamped, s.acked, s.unacked, s.written, s.staged, s.retention);
    }
  }

  lemma MoveKeeps(fits: Fits, slot: SlotId, s: Session, a: Action)
    requires Inv(fits, slot, s) && Can(fits, s, a)
    requires a.LinkFails? || a.StagedDone? || a.HeldDone? || a.BufferDone? || a.Teardown? || a.Finish?
    ensures Inv(fits, slot, Do(fits, slot, s, a))
  {
    hide Inv, SameRelayAnchored, RehomeAnchored, StageAll, Oversize, Push, DueFor;
    StagesAreOrdered(fits, slot, s);
    StageKeeps(fits, slot, s, Do(fits, slot, s, a).stage);
  }

  lemma StagesAreOrdered(fits: Fits, slot: SlotId, s: Session)
    requires Inv(fits, slot, s)
    ensures InOrder(s)
  {
    hide Conserved, Punctual, IsLongestSuffix, StagedFromRing, WindowSound, AboveAnchor, Carried, InOrder;
    hide OversizeServed, PathsApart;
  }

  lemma TickKeeps(fits: Fits, slot: SlotId, s: Session, now: nat)
    requires Inv(fits, slot, s) && s.clock <= now
    ensures Inv(fits, slot, Do(fits, slot, s, Tick(now)))
  {
    hide Conserved, IsLongestSuffix, StagedFromRing, WindowSound, AboveAnchor, Carried, OversizeServed, PathsApart;
  }

  lemma StepKeeps(fits: Fits, slot: SlotId, s: Session, a: Action)
    requires Inv(fits, slot, s) && Can(fits, s, a)
    ensures Inv(fits, slot, Do(fits, slot, s, a))
  {
    hide Inv, DueFor, Handoff, StageAll, Oversize;
    match a {
      case Produce(_) => QueueKeeps(fits, slot, s, a);
      case Hold(_) => QueueKeeps(fits, slot, s, a);
      case BufferTurn => QueueKeeps(fits, slot, s, a);
      case SendChannel(_) => SendKeeps(fits, slot, s, a);
      case SendHeld(_) => SendKeeps(fits, slot, s, a);
      case SendBuffer(_) => SendKeeps(fits, slot, s, a);
      case Acked(seqs) => AckKeeps(fits, slot, s, seqs);
      case ResumeSameRelay(anchor) => ResumeKeeps(fits, slot, s, anchor);
      case Rehome(anchor) => RehomeKeeps(fits, slot, s, anchor);
      case Redivert(ok) => RedivertKeeps(fits, slot, s, ok);
      case Tick(now) => TickKeeps(fits, slot, s, now);
      case _ => MoveKeeps(fits, slot, s, a);
    }
  }

  lemma {:induction false} RunsKeep(fits: Fits, slot: SlotId, run: seq<Action>)
    requires IsRun(fits, slot, run)
    ensures Inv(fits, slot, After(fits, slot, run))
  {
    if run != [] {
      var front := run[..|run| - 1];
      RunsKeep(fits, slot, front);
      StepKeeps(fits, slot, After(fits, slot, front), run[|run| - 1]);
    }
  }

  // What it means for a session.

  /** Over every run the turns stamped so far, followed by those held, buffered and
      unread, are the turns the game produced; the i-th of them carries seq i. */
  lemma OutboundIsConserved(fits: Fits, slot: SlotId, run: seq<Action>)
    requires IsRun(fits, slot, run)
    ensures var s := After(fits, slot, run);
            && |s.stamped| + |Waiting(s)| == |s.produced|
            && (forall i | 0 <= i < |s.stamped| :: s.stamped[i] == Stamp(s.produced[i], i, slot))
            && (forall i | 0 <= i < |Waiting(s)| :: Waiting(s)[i] == s.produced[|s.stamped| + i])
  {
    hide IsRun, After, Inv, Waiting;
    RunsKeep(fits, slot, run);
    InvConserves(fits, slot, After(fits, slot, run));
  }

  /** In every reachable state the ring is the newest turns stamped, at most 512 of
      them and at most 256 KiB unless it is one, and as many as that allows. */
  lemma RetentionInNumbers(fits: Fits, slot: SlotId, run: seq<Action>)
    requires IsRun(fits, slot, run)
    ensures var s := After(fits, slot, run);
            var ring, all := s.retention, s.stamped;
            && |ring| <= |all| && ring == all[|all| - |ring|..]
            && |ring| <= 512 && (|ring| <= 1 || CommandBytes(ring) + 32 * |ring| <= 262_144)
            && forall n | |ring| < n <= |all| :: n > 512 || CommandBytes(all[|all| - n..]) + 32 * n > 262_144
  {
    hide IsLongestSuffix, CommandBytes, Conserved, InOrder, Punctual, StagedFromRing, WindowSound, AboveAnchor;
    hide Carried, OversizeServed, PathsApart;
    RunsKeep(fits, slot, run);
    var s := After(fits, slot, run);
    LongestInNumbers(s.retention, s.stamped);
  }

  /** What reaches the wire is what the game produced: the i-th turn carries seq i and
      this client's slot, and everything else as the game made it. */
  lemma TurnsGoOutAsProduced(fits: Fits, slot: SlotId, run: seq<Action>, i: nat)
    requires IsRun(fits, slot, run) && i < |After(fits, slot, run).stamped|
    ensures var s := After(fits, slot, run);
            && i < |s.produced|
            && s.stamped[i].seqNo == i && s.stamped[i].slot == slot
            && s.stamped[i].commands == s.produced[i].commands
            && s.stamped[i].gameFrameCount == s.produced[i].gameFrameCount
            && s.stamped[i].syncGeneration == s.produced[i].syncGeneration
            && s.stamped[i].stateHash == s.produced[i].stateHash
            && s.stamped[i].bufferDirective == s.produced[i].bufferDirective
  {
    hide IsRun, After;
    OutboundIsConserved(fits, slot, run);
  }

  lemma InvConserves(fits: Fits, slot: SlotId, s: Session)
    requires Inv(fits, slot, s)
    ensures |s.stamped| + |Waiting(s)| == |s.produced|
    ensures forall i | 0 <= i < |s.stamped| :: s.stamped[i] == Stamp(s.produced[i], i, slot)
    ensures forall i | 0 <= i < |Waiting(s)| :: Waiting(s)[i] == s.produced[|s.stamped| + i]
  {
    hide Waiting, InOrder, Punctual, IsLongestSuffix, StagedFromRing, WindowSound, AboveAnchor, Carried;
    hide OversizeServed, PathsApart;
  }

  /** In every reachable state no stamped turn has lost its last carrier. One that
      rides datagrams is acked or sent again until it is. One that does not is
      retained until a control stream has carried it, and while retained every
      connection's own stream has carried it or is owed it. */
  lemma NoTurnIsStranded(fits: Fits, slot: SlotId, run: seq<Action>, q: nat)
    requires IsRun(fits, slot, run) && q < |After(fits, slot, run).stamped|
    ensures var s := After(fits, slot, run);
            var t := s.stamped[q];
            if fits(t) then q in s.acked || q in s.unacked
            else if t in s.retention then Up(s) ==> q in s.onStream || t in s.staged
            else q in s.written
  {
    hide IsRun, After, Inv;
    RunsKeep(fits, slot, run);
    InvCarries(fits, slot, After(fits, slot, run), q);
  }

  lemma InvCarries(fits: Fits, slot: SlotId, s: Session, q: nat)
    requires Inv(fits, slot, s) && q < |s.stamped|
    ensures var t := s.stamped[q];
            if fits(t) then q in s.acked || q in s.unacked
            else if t in s.retention then Up(s) ==> q in s.onStream || t in s.staged
            else q in s.written
  {
    hide InOrder, Punctual, IsLongestSuffix, AboveAnchor, NoDuplicates;
  }

  predicate Resumes(a: Action) {
    a.ResumeSameRelay? || a.Rehome?
  }

  lemma {:induction false} AnchorPersists(fits: Fits, slot: SlotId, run: seq<Action>, i: nat)
    requires IsRun(fits, slot, run) && i < |run| && Resumes(run[i])
    requires forall j | i < j < |run| :: !Resumes(run[j])
    ensures var s := After(fits, slot, run);
            s.anchor == run[i].anchor && s.rehomed == run[i].Rehome?
  {
    if i < |run| - 1 {
      AnchorPersists(fits, slot, run[..|run| - 1], i);
    }
  }

  /** For the whole life of a connection resumed on the same relay, every turn it
      re-sends by datagram, has written or still owes to its control stream, or
      will yet stamp, is at or above the anchor the resume presented; and what it
      owes is still in the retention ring. */
  lemma ResumeAnchorIsSafe(fits: Fits, slot: SlotId, run: seq<Action>, i: nat)
    requires IsRun(fits, slot, run) && i < |run| && run[i].ResumeSameRelay?
    requires forall j | i < j < |run| :: !Resumes(run[j])
    ensures var s, a := After(fits, slot, run), run[i].anchor;
            && (forall q | q in s.unacked :: a <= q)
            && (forall q | q in s.onStream :: a <= q)
            && (forall t | t in s.staged :: a <= t.seqNo && t in s.retention)
            && a <= |s.stamped|
  {
    RunsKeep(fits, slot, run);
    AnchorPersists(fits, slot, run, i);
  }

  /** A resume on a new relay leaves no hole: the retained turns are the longest
      run both caps allow, and every turn from the declared anchor on is in the
      unacked window or staged, none of them staged twice. */
  lemma RehomeLeavesNoHole(fits: Fits, slot: SlotId, run: seq<Action>)
    requires IsRun(fits, slot, run) && run != [] && run[|run| - 1].Rehome?
    ensures var s, a := After(fits, slot, run), run[|run| - 1].anchor;
            && IsLongestSuffix(s.retention, s.stamped)
            && (forall q | a <= q < |s.stamped| :: q in s.unacked || s.stamped[q] in s.staged)
            && NoDuplicates(s.staged)
  {
    hide Conserved, Punctual, IsLongestSuffix, Carried, WindowSound, AboveAnchor, StageAll, Oversize, InOrder;
    hide NoDuplicates, RehomeAnchored, OversizeServed, PathsApart;
    var before, a := After(fits, slot, run[..|run| - 1]), run[|run| - 1].anchor;
    RunsKeep(fits, slot, run[..|run| - 1]);
    RunsKeep(fits, slot, run);
    RehomeCoversRing(fits, slot, before, a);
  }

  /** What run step `i` on has seen acked. */
  function AckedSince(run: seq<Action>, i: nat): set<nat>
    requires i < |run|
  {
    if |run| == i + 1 then {}
    else AckedSince(run[..|run| - 1], i) + AckedBy(run[|run| - 1])
  }

  function AckedBy(a: Action): set<nat> {
    if a.Acked? then a.seqs else {}
  }

  /** From `anchor` on, every stamped turn is on its way over this connection. */
  ghost predicate WholeFrom(anchor: nat, stamped: seq<Payload>, unacked: set<nat>, acked: set<nat>,
                            onStream: seq<nat>, staged: seq<Payload>)
  {
    forall q | anchor <= q < |stamped| :: q in unacked || q in acked || q in onStream || stamped[q] in staged
  }

  /** For as long as a connection to a new relay is up, every turn from its anchor on
      is sent again until this relay acks it, has been written on this connection's
      control stream, or is owed to it. */
  lemma {:induction false} RehomeStaysWhole(fits: Fits, slot: SlotId, run: seq<Action>, i: nat)
    requires IsRun(fits, slot, run) && i < |run| && run[i].Rehome?
    requires (forall j | i < j < |run| :: !Resumes(run[j])) && Up(After(fits, slot, run))
    ensures var s := After(fits, slot, run);
            WholeFrom(run[i].anchor, s.stamped, s.unacked, AckedSince(run, i), s.onStream, s.staged)
  {
    if i == |run| - 1 {
      RehomeLeavesNoHole(fits, slot, run);
    } else {
      var front, a := run[..|run| - 1], run[|run| - 1];
      var s := After(fits, slot, front);
      RunsKeep(fits, slot, front);
      hide Inv, WholeFrom, Can, Do;
      StepKeepsUp(fits, slot, s, a);
      RehomeStaysWhole(fits, slot, front, i);
      StepStaysWhole(fits, slot, s, a, run[i].anchor, AckedSince(front, i));
    }
  }

  /** Only a resume brings a link up. */
  lemma StepKeepsUp(fits: Fits, slot: SlotId, s: Session, a: Action)
    requires Can(fits, s, a) && !Resumes(a) && Up(Do(fits, slot, s, a))
    ensures Up(s)
  {
  }

  lemma StepStaysWhole(fits: Fits, slot: SlotId, s: Session, a: Action, anchor: nat, acked: set<nat>)
    requires Inv(fits, slot, s) && Can(fits, s, a) && !Resumes(a) && Up(Do(fits, slot, s, a))
    requires WholeFrom(anchor, s.stamped, s.unacked, acked, s.onStream, s.staged)
    ensures var s' := Do(fits, slot, s, a);
            WholeFrom(anchor, s'.stamped, s'.unacked, acked + AckedBy(a), s'.onStream, s'.staged)
  {
    hide Inv, WholeFrom, Push, DueFor, Handoff, StageAll, Oversize;
    assert acked + {} == acked;
    match a {
      case SendChannel(ok) => HandoffStaysWhole(fits, slot, s.(channel := s.channel[1..]), s.channel[0], ok, anchor, acked);
      case SendHeld(ok) => HandoffStaysWhole(fits, slot, s.(held := s.held[1..]), s.held[0].payload, ok, anchor, acked);
      case SendBuffer(ok) => HandoffStaysWhole(fits, slot, s.(buffer := s.buffer[1..]), s.buffer[0], ok, anchor, acked);
      case Redivert(ok) =>
        InvConserves(fits, slot, s);
        RedivertStaysWhole(s.stamped, s.unacked, acked, s.onStream, s.staged, anchor);
      case Acked(seqs) => AckStaysWhole(s.stamped, s.unacked, acked, s.onStream, s.staged, anchor, seqs);
      case _ =>
    }
  }

  lemma HandoffStaysWhole(fits: Fits, slot: SlotId, s: Session, p: Payload, ok: bool, anchor: nat, acked: set<nat>)
    requires WholeFrom(anchor, s.stamped, s.unacked, acked, s.onStream, s.staged)
    ensures var s' := Handoff(fits, slot, s, p, ok);
            Up(s') ==> WholeFrom(anchor, s'.stamped, s'.unacked, acked + {}, s'.onStream, s'.staged)
  {
    hide Push;
  }

  lemma RedivertStaysWhole(stamped: seq<Payload>, unacked: set<nat>, acked: set<nat>, onStream: seq<nat>,
                           staged: seq<Payload>, anchor: nat)
    requires staged != [] && Numbered(stamped) && WholeFrom(anchor, stamped, unacked, acked, onStream, staged)
    ensures WholeFrom(anchor, stamped, unacked, acked + {}, onStream + [staged[0].seqNo], staged[1..])
  {
    assert staged == [staged[0]] + staged[1..];
  }

  lemma AckStaysWhole(stamped: seq<Payload>, unacked: set<nat>, acked: set<nat>, onStream: seq<nat>,
                      staged: seq<Payload>, anchor: nat, seqs: set<nat>)
    requires WholeFrom(anchor, stamped, unacked, acked, onStream, staged)
    ensures WholeFrom(anchor, stamped, unacked - seqs, acked + seqs, onStream, staged)
  {
  }

  lemma RehomeCoversRing(fits: Fits, slot: SlotId, s: Session, a: nat)
    requires Inv(fits, slot, s) && Can(fits, s, Rehome(a))
    ensures var s' := Do(fits, slot, s, Rehome(a));
            forall q | a <= q < |s.stamped| :: q in s'.unacked || s.stamped[q] in s'.staged
  {
    hide Punctual, IsLongestSuffix, Carried, WindowSound, StagedFromRing, AboveAnchor, StageAll, Oversize;
    var s' := Do(fits, slot, s, Rehome(a));
    RingIsIndexed(s.retention, s.stamped);
    StagingIsSound(fits, s.staged, s.retention, s.stamped);
    forall q | a <= q < |s.stamped| ensures q in s'.unacked || s.stamped[q] in s'.staged {
      if q >= |s.stamped| - |s.retention| {
        assert s.stamped[q] in s.retention && s.stamped[q].seqNo == q;
      }
    }
  }

  /** A held turn waits out the delay it was given, and never more than 100 ms past its
      acceptance; held turns come due in the order they were produced, and one that
      waits longer than its delay does so for the one before it. */
  lemma HeldTurnsArePunctual(fits: Fits, slot: SlotId, run: seq<Action>)
    requires IsRun(fits, slot, run)
    ensures var held := After(fits, slot, run).held;
            && (forall i | 0 <= i < |held| ::
                  && held[i].acceptedAt + held[i].delayUs * 1_000 <= held[i].due
                  && held[i].due <= held[i].acceptedAt + 100_000_000)
            && (forall i, j | 0 <= i < j < |held| :: held[i].due <= held[j].due)
            && (forall i | 0 < i < |held| ::
                  held[i].due == held[i].acceptedAt + held[i].delayUs * 1_000 || held[i].due == held[i - 1].due)
  {
    hide IsRun, After, Inv;
    RunsKeep(fits, slot, run);
    InvIsPunctual(fits, slot, After(fits, slot, run));
  }

  lemma InvIsPunctual(fits: Fits, slot: SlotId, s: Session)
    requires Inv(fits, slot, s)
    ensures Punctual(s.clock, s.held)
  {
    hide Conserved, InOrder, Punctual, IsLongestSuffix, StagedFromRing, WindowSound, AboveAnchor, Carried;
    hide OversizeServed, PathsApart;
  }
}
