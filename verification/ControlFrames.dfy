/** The frames a session writes on its control streams beside its turns: the start
    announcement behind the load-state fence, the result, the rollback statistics
    and the leave intent behind its drain gate. */
module ControlFrames {
  import opened Basics
  import opened Messages
  import opened Retention
  import Turns

  datatype Announcer = Idle | Pending | Sent

  datatype Frame =
    | GameStarted
    | ProbeAck(id: nat, signalled: bool)    // and whether the game had signalled its start
    | LeaveIntent(gated: bool, serving: bool, unstamped: nat, inFlight: nat, owedResult: bool)
    | GameResult
    | RollbackStats(snapshot: nat)

  /** A frame that was written, and on which stream. */
  datatype Written = Written(stream: nat, frame: Frame)

  /** The start announcement: the game's signal, and how far it has got. */
  datatype Start = Start(
    signalled: bool,    // the game has ever signalled
    queued: bool,       // the signal is unread in its channel
    announced: bool,    // retained for the session
    onStream: bool)     // written on this very stream

  datatype Control = Control(
    announcer: Announcer,
    resultExpected: bool,
    resultSent: bool,
    start: Start,
    snapshot: Option<nat>,
    snapshotOnStream: Option<nat>,
    stream: nat,
    trace: seq<Written>)      // every frame ever written, in order

  const Silent := Control(Idle, false, false, Start(false, false, false, false), None, None, 0, [])

  datatype Driver = Driver(turns: Turns.Session, control: Control)

  datatype Action =
    | Turn(action: Turns.Action)
    | SignalStart | ExpectResult | Publish(snapshot: nat)   // the game
    | OpenStream
    | Reassert(ok: bool)                              // the opening of a stream
    | OnGameStarted(ok: bool)                         // select arms
    | OnProbe(id: nat, startOk: bool, ackOk: bool)
    | OnLeaveIntent(statsOk: bool)
    | OnResult(ok: bool)
    | OnRollbackStats(ok: bool)
    | MaybeSend(ok: bool)                             // the gate
    | ForceSend(statsOk: bool, ok: bool)              // the safety timeout, or the end of teardown
    | TeardownLeave | TeardownStart(ok: bool) | TeardownResult(ok: bool)

  /** A frame on a stream, or nothing. */
  function Maybe(b: bool, stream: nat, frame: Frame): seq<Written> {
    if b then [Written(stream, frame)] else []
  }

  function Put(c: Control, ok: bool, frame: Frame): seq<Written> {
    if ok then c.trace + [Written(c.stream, frame)] else c.trace
  }

  function PutStart(c: Control, ok: bool): Control {
    c.(trace := Put(c, ok, GameStarted), start := c.start.(onStream := c.start.onStream || ok))
  }

  /** Whether a snapshot is due: there is one, this stream has not carried it, and
      the intent is not out. */
  predicate StatsDue(c: Control) {
    !c.announcer.Sent? && c.snapshot.Some? && c.snapshotOnStream != c.snapshot
  }

  function PutStats(c: Control, ok: bool): Control {
    if StatsDue(c) && ok
    then c.(trace := Put(c, true, RollbackStats(c.snapshot.value)), snapshotOnStream := c.snapshot)
    else c
  }

  /** At most one result is ever offered to the stream, none after the intent; an
      attempt counts as sent whether or not the write succeeded. */
  function PutResult(c: Control, ok: bool): Control {
    if c.resultSent || c.announcer.Sent? then c
    else c.(trace := Put(c, ok, GameResult), resultSent := true)
  }

  predicate AwaitingResult(c: Control) {
    c.resultExpected && !c.resultSent
  }

  /** The gate as the code has it: it does not look at the outage buffer. */
  predicate Gate(t: Turns.Session, c: Control) {
    c.announcer.Pending? && !AwaitingResult(c) && t.channel == [] && t.held == [] && t.unacked == {}
  }

  predicate Serving(t: Turns.Session) {
    t.stage == Turns.Serving || t.stage == Turns.Draining
  }

  function Intent(t: Turns.Session, c: Control, gated: bool): Frame {
    LeaveIntent(gated, Serving(t), SaturatingSub(|t.produced|, |t.stamped|), |t.unacked|, AwaitingResult(c))
  }

  function PutIntent(t: Turns.Session, c: Control, gated: bool, ok: bool): Control {
    c.(trace := Put(c, ok, Intent(t, c, gated)), announcer := if ok then Sent else c.announcer)
  }

  function Armed(c: Control): Control {
    c.(announcer := if c.announcer.Sent? then Sent else Pending)
  }

  predicate CanAct(t: Turns.Session, c: Control, a: Action) {
    match a
    case Reassert(_) => c.start.announced
    case OnGameStarted(_) => c.start.queued
    case TeardownStart(_) => c.start.queued
    case MaybeSend(_) => Gate(t, c)
    case ForceSend(_, _) => c.announcer.Pending?
    case _ => !a.Turn?
  }

  ghost predicate Can(fits: Fits, d: Driver, a: Action) {
    if a.Turn? then Turns.Can(fits, d.turns, a.action) else CanAct(d.turns, d.control, a)
  }

  ghost function Do(fits: Fits, slot: SlotId, d: Driver, a: Action): Driver
    requires Can(fits, d, a)
  {
    if a.Turn? then d.(turns := Turns.Do(fits, slot, d.turns, a.action))
    else d.(control := Act(d.turns, d.control, a))
  }

  /** Reading the signal out of its channel latches it for the session. */
  function ReadStart(c: Control): Control {
    c.(start := c.start.(queued := false, announced := c.start.announced || c.start.queued))
  }

  predicate StartOwed(c: Control) {
    c.start.announced && !c.start.onStream
  }

  /** Reads the signal and writes the announcement this stream is owed. */
  function PutOwedStart(c: Control, ok: bool): Control {
    var read := ReadStart(c);
    if StartOwed(read) then PutStart(read, ok) else read
  }

  /** A fence ack, withheld while this stream is owed an announcement. */
  function PutAck(c: Control, id: nat, signalled: bool, ok: bool): Control {
    if StartOwed(c) then c else c.(trace := Put(c, ok, ProbeAck(id, signalled)))
  }

  function Probe(c: Control, id: nat, startOk: bool, ackOk: bool): Control {
    PutAck(PutOwedStart(c, startOk), id, c.start.signalled, ackOk)
  }

  function Act(t: Turns.Session, c: Control, a: Action): Control
    requires !a.Turn?
  {
    match a
    case SignalStart => c.(start := c.start.(signalled := true, queued := true))
    case ExpectResult => c.(resultExpected := true)
    case Publish(snapshot) => c.(snapshot := Some(snapshot))
    case OpenStream => c.(stream := c.stream + 1, start := c.start.(onStream := false), snapshotOnStream := None)
    case Reassert(ok) => PutStart(c, ok)
    case OnGameStarted(ok) => if c.start.announced then ReadStart(c) else PutStart(ReadStart(c), ok)
    case OnProbe(id, startOk, ackOk) => Probe(c, id, startOk, ackOk)
    case OnLeaveIntent(statsOk) => Armed(PutStats(c, statsOk))
    case OnResult(ok) => PutResult(c, ok)
    case OnRollbackStats(ok) => PutStats(c, ok)
    case MaybeSend(ok) => PutIntent(t, c, true, ok)
    case ForceSend(statsOk, ok) => PutIntent(t, PutStats(c, statsOk), false, ok)
    case TeardownLeave => Armed(c)
    case TeardownStart(ok) =>
      if c.start.announced then ReadStart(c)
      else ReadStart(c).(trace := Put(c, ok, GameStarted))
    case TeardownResult(ok) => PutResult(c, ok)
  }

  ghost predicate IsRun(fits: Fits, slot: SlotId, run: seq<Action>)
    decreases |run|, 0
  {
    run != [] ==>
      && IsRun(fits, slot, run[..|run| - 1])
      && Can(fits, After(fits, slot, run[..|run| - 1]), run[|run| - 1])
  }

  ghost function After(fits: Fits, slot: SlotId, run: seq<Action>): Driver
    requires IsRun(fits, slot, run)
    decreases |run|, 1
  {
    if run == [] then Driver(Turns.Fresh, Silent)
    else Do(fits, slot, After(fits, slot, run[..|run| - 1]), run[|run| - 1])
  }

  // What every step keeps.

  /** At most one intent, at most one result, and neither a result nor a snapshot
      after the intent. */
  ghost predicate OneDeparture(trace: seq<Written>) {
    forall i, j | 0 <= i < j < |trace| ::
      && !(trace[i].frame.LeaveIntent? && trace[j].frame.LeaveIntent?)
      && !(trace[i].frame.GameResult? && trace[j].frame.GameResult?)
      && !(trace[i].frame.LeaveIntent? && (trace[j].frame.GameResult? || trace[j].frame.RollbackStats?))
  }

  ghost predicate HasIntent(trace: seq<Written>) {
    exists i | 0 <= i < |trace| :: trace[i].frame.LeaveIntent?
  }

  ghost predicate HasResult(trace: seq<Written>) {
    exists i | 0 <= i < |trace| :: trace[i].frame.GameResult?
  }

  ghost predicate AnnouncerMatches(c: Control) {
    (c.announcer.Sent? <==> HasIntent(c.trace)) && (HasResult(c.trace) ==> c.resultSent)
  }

  /** A gated intent found nothing in flight and no result owed, and in the serve
      loop every turn stamped. */
  ghost predicate GatedIsDrained(trace: seq<Written>) {
    forall i | 0 <= i < |trace| && trace[i].frame.LeaveIntent? && trace[i].frame.gated ::
      && trace[i].frame.inFlight == 0 && !trace[i].frame.owedResult
      && (trace[i].frame.serving ==> trace[i].frame.unstamped == 0)
  }

  ghost predicate StartIsOn(trace: seq<Written>, stream: nat, end: nat) {
    exists i | 0 <= i < end && i < |trace| :: trace[i] == Written(stream, GameStarted)
  }

  /** Every fence ack that followed the game's signal follows, on its own stream, a
      written start announcement. */
  ghost predicate FenceHolds(trace: seq<Written>) {
    forall j | 0 <= j < |trace| && trace[j].frame.ProbeAck? && trace[j].frame.signalled ::
      StartIsOn(trace, trace[j].stream, j)
  }

  ghost predicate StartIsTracked(c: Control) {
    && (c.start.signalled ==> c.start.queued || c.start.announced)
    && (c.start.onStream ==> StartIsOn(c.trace, c.stream, |c.trace|))
  }

  ghost predicate ControlInv(c: Control) {
    OneDeparture(c.trace) && AnnouncerMatches(c) && GatedIsDrained(c.trace) && FenceHolds(c.trace) && StartIsTracked(c)
  }

  /** What a frame must satisfy to be written next. */
  ghost predicate MayFollow(c: Control, frame: Frame) {
    match frame
    case GameStarted => true
    case ProbeAck(_, signalled) => signalled ==> StartIsOn(c.trace, c.stream, |c.trace|)
    case LeaveIntent(gated, serving, unstamped, inFlight, owedResult) =>
      !c.announcer.Sent? && (gated ==> inFlight == 0 && !owedResult && (serving ==> unstamped == 0))
    case GameResult => !c.announcer.Sent? && !c.resultSent
    case RollbackStats(_) => !c.announcer.Sent?
  }

  /** Writing an allowed frame keeps the trace in order. */
  lemma PutKeepsTrace(c: Control, ok: bool, frame: Frame)
    requires ControlInv(c) && MayFollow(c, frame)
    ensures var trace' := Put(c, ok, frame);
            && OneDeparture(trace') && GatedIsDrained(trace') && FenceHolds(trace')
            && (HasIntent(trace') <==> HasIntent(c.trace) || (ok && frame.LeaveIntent?))
            && (HasResult(trace') <==> HasResult(c.trace) || (ok && frame.GameResult?))
            && (c.start.onStream || (ok && frame.GameStarted?) ==> StartIsOn(trace', c.stream, |trace'|))
  {
    if ok {
      ExtendTrace(c.trace, Written(c.stream, frame));
      var trace' := c.trace + [Written(c.stream, frame)];
      assert trace'[|c.trace|] == Written(c.stream, frame);
      assert forall i | 0 <= i < |c.trace| :: trace'[i] == c.trace[i];
    }
  }

  lemma ExtendTrace(trace: seq<Written>, w: Written)
    ensures forall stream: nat, end: nat | end <= |trace| && StartIsOn(trace, stream, end) ::
              StartIsOn(trace + [w], stream, end) && StartIsOn(trace + [w], stream, |trace| + 1)
    ensures HasIntent(trace + [w]) <==> HasIntent(trace) || w.frame.LeaveIntent?
    ensures HasResult(trace + [w]) <==> HasResult(trace) || w.frame.GameResult?
  {
    var trace' := trace + [w];
    assert trace'[|trace|] == w;
    assert forall i | 0 <= i < |trace| :: trace'[i] == trace[i];
  }

  /** A step that writes at most one allowed frame and keeps its books. */
  lemma WriteKeeps(c: Control, ok: bool, frame: Frame, c': Control)
    requires ControlInv(c) && MayFollow(c, frame)
    requires c'.trace == Put(c, ok, frame) && c'.stream == c.stream
    requires c'.announcer.Sent? <==> c.announcer.Sent? || (ok && frame.LeaveIntent?)
    requires c.resultSent || (ok && frame.GameResult?) ==> c'.resultSent
    requires c'.start.onStream ==> c.start.onStream || (ok && frame.GameStarted?)
    requires c'.start.signalled ==> c'.start.queued || c'.start.announced
    ensures ControlInv(c')
  {
    hide OneDeparture, GatedIsDrained, FenceHolds, StartIsOn, HasIntent, HasResult;
    PutKeepsTrace(c, ok, frame);
  }

  lemma StartFacts(c: Control)
    requires ControlInv(c)
    ensures c.start.signalled ==> c.start.queued || c.start.announced
    ensures c.start.onStream ==> StartIsOn(c.trace, c.stream, |c.trace|)
  {
    hide OneDeparture, GatedIsDrained, FenceHolds, AnnouncerMatches, StartIsOn;
  }

  /** In the serve loop an open gate means every turn produced is stamped. */
  lemma ServingGateIsDrained(fits: Fits, slot: SlotId, t: Turns.Session, c: Control)
    requires Turns.Inv(fits, slot, t) && Gate(t, c)
    ensures |t.produced| - |t.stamped| == |t.buffer|
    ensures Serving(t) ==> |t.produced| == |t.stamped|
  {
    assert |Turns.Waiting(t)| == |t.buffer|;
  }

  lemma PutIntentKeeps(fits: Fits, slot: SlotId, t: Turns.Session, c: Control, gated: bool, ok: bool)
    requires Turns.Inv(fits, slot, t) && ControlInv(c) && c.announcer.Pending? && (gated ==> Gate(t, c))
    ensures ControlInv(PutIntent(t, c, gated, ok))
  {
    hide Turns.Inv, ControlInv;
    if gated && Serving(t) {
      ServingGateIsDrained(fits, slot, t, c);
    }
    StartFacts(c);
    WriteKeeps(c, ok, Intent(t, c, gated), PutIntent(t, c, gated, ok));
  }

  lemma PutStatsKeeps(c: Control, ok: bool)
    requires ControlInv(c)
    ensures ControlInv(PutStats(c, ok))
  {
    hide ControlInv;
    if StatsDue(c) && ok {
      StartFacts(c);
      WriteKeeps(c, true, RollbackStats(c.snapshot.value), PutStats(c, ok));
    }
  }

  lemma PutResultKeeps(c: Control, ok: bool)
    requires ControlInv(c)
    ensures ControlInv(PutResult(c, ok))
  {
    hide ControlInv;
    if !c.resultSent && !c.announcer.Sent? {
      StartFacts(c);
      WriteKeeps(c, ok, GameResult, PutResult(c, ok));
    }
  }

  lemma ProbeKeeps(c: Control, id: nat, startOk: bool, ackOk: bool)
    requires ControlInv(c)
    ensures ControlInv(Probe(c, id, startOk, ackOk))
  {
    hide ControlInv;
    StartFacts(c);
    var started := PutOwedStart(c, startOk);
    WriteKeeps(c, StartOwed(ReadStart(c)) && startOk, GameStarted, started);
    if !StartOwed(started) {
      var ack := ProbeAck(id, c.start.signalled);
      StartFacts(started);
      WriteKeeps(started, ackOk, ack, started.(trace := Put(started, ackOk, ack)));
    }
  }

  /** Opening a stream forgets what the last one carried. */
  lemma OpenKeeps(t: Turns.Session, c: Control)
    requires ControlInv(c)
    ensures ControlInv(Act(t, c, OpenStream))
  {
    hide OneDeparture, GatedIsDrained, FenceHolds, StartIsOn, HasIntent, HasResult;
  }

  lemma ArmedKeeps(c: Control)
    requires ControlInv(c)
    ensures ControlInv(Armed(c))
  {
    hide ControlInv;
    StartFacts(c);
    WriteKeeps(c, false, GameStarted, Armed(c));
  }

  lemma ActKeeps(fits: Fits, slot: SlotId, t: Turns.Session, c: Control, a: Action)
    requires Turns.Inv(fits, slot, t) && ControlInv(c) && CanAct(t, c, a)
    ensures ControlInv(Act(t, c, a))
  {
    hide Turns.Inv, ControlInv, PutStats, PutIntent, PutResult, Probe, Armed;
    StartFacts(c);
    match a {
      case OpenStream => OpenKeeps(t, c);
      case Reassert(ok) => WriteKeeps(c, ok, GameStarted, Act(t, c, a));
      case OnGameStarted(ok) => WriteKeeps(c, ok && !c.start.announced, GameStarted, Act(t, c, a));
      case OnProbe(id, startOk, ackOk) => ProbeKeeps(c, id, startOk, ackOk);
      case OnLeaveIntent(statsOk) =>
        PutStatsKeeps(c, statsOk);
        ArmedKeeps(PutStats(c, statsOk));
      case OnResult(ok) => PutResultKeeps(c, ok);
      case OnRollbackStats(ok) => PutStatsKeeps(c, ok);
      case MaybeSend(ok) => PutIntentKeeps(fits, slot, t, c, true, ok);
      case ForceSend(statsOk, ok) =>
        PutStatsKeeps(c, statsOk);
        StatsLeaveAnnouncer(c, statsOk);
        PutIntentKeeps(fits, slot, t, PutStats(c, statsOk), false, ok);
      case TeardownLeave => ArmedKeeps(c);
      case TeardownStart(ok) => WriteKeeps(c, ok && !c.start.announced, GameStarted, Act(t, c, a));
      case TeardownResult(ok) => PutResultKeeps(c, ok);
      case SignalStart => WriteKeeps(c, false, GameStarted, Act(t, c, a));
      case ExpectResult => WriteKeeps(c, false, GameStarted, Act(t, c, a));
      case Publish(_) => WriteKeeps(c, false, GameStarted, Act(t, c, a));
      case Turn(_) => assert false;
    }
  }

  lemma StatsLeaveAnnouncer(c: Control, ok: bool)
    ensures PutStats(c, ok).announcer == c.announcer
  {
  }

  lemma {:induction false} RunsKeep(fits: Fits, slot: SlotId, run: seq<Action>)
    requires IsRun(fits, slot, run)
    ensures var d := After(fits, slot, run);
            Turns.Inv(fits, slot, d.turns) && ControlInv(d.control)
  {
    hide Turns.Inv, ControlInv, Turns.Do, Act;
    if run == [] {
      FreshIsInv(fits, slot);
    } else {
      var front, a := run[..|run| - 1], run[|run| - 1];
      RunsKeep(fits, slot, front);
      var d := After(fits, slot, front);
      if a.Turn? {
        Turns.StepKeeps(fits, slot, d.turns, a.action);
      } else {
        ActKeeps(fits, slot, d.turns, d.control, a);
      }
    }
  }

  lemma FreshIsInv(fits: Fits, slot: SlotId)
    ensures Turns.Inv(fits, slot, Turns.Fresh) && ControlInv(Silent)
  {
    assert Turns.IsRun(fits, slot, []);
    Turns.RunsKeep(fits, slot, []);
  }

  // What it means for a departure and for the fence.

  /** Over every run, whatever fails and however often the link is replaced: at
      most one leave intent is ever written, at most one result, and neither a
      result nor a snapshot after the intent. */
  lemma DepartsOnce(fits: Fits, slot: SlotId, run: seq<Action>, i: nat, j: nat)
    requires IsRun(fits, slot, run) && i < j < |After(fits, slot, run).control.trace|
    ensures var trace := After(fits, slot, run).control.trace;
            && (trace[i].frame.LeaveIntent? ==>
                  !trace[j].frame.LeaveIntent? && !trace[j].frame.GameResult? && !trace[j].frame.RollbackStats?)
            && (trace[i].frame.GameResult? ==> !trace[j].frame.GameResult?)
  {
    RunsKeep(fits, slot, run);
  }

  /** An intent released by the gate in the serve loop found every produced turn
      stamped, none in flight and no result owed. */
  lemma GatedIntentIsDrained(fits: Fits, slot: SlotId, run: seq<Action>, i: nat)
    requires IsRun(fits, slot, run) && i < |After(fits, slot, run).control.trace|
    requires var f := After(fits, slot, run).control.trace[i].frame;
             f.LeaveIntent? && f.gated && f.serving
    ensures var f := After(fits, slot, run).control.trace[i].frame;
            f.unstamped == 0 && f.inFlight == 0 && !f.owedResult
  {
    RunsKeep(fits, slot, run);
  }

  /** On every stream: a fence ack for a probe handled after the game signalled its
      start comes after a start announcement written on that same stream. */
  lemma FenceIsSound(fits: Fits, slot: SlotId, run: seq<Action>, j: nat)
    requires IsRun(fits, slot, run) && j < |After(fits, slot, run).control.trace|
    requires var f := After(fits, slot, run).control.trace[j].frame;
             f.ProbeAck? && f.signalled
    ensures var trace := After(fits, slot, run).control.trace;
            exists i | 0 <= i < j :: trace[i] == Written(trace[j].stream, GameStarted)
  {
    RunsKeep(fits, slot, run);
  }

  // The gate while a resumed session works off what piled up.

  /** After a turn is flushed, the gate is open exactly when that turn was too large
      for a datagram and nothing but the outage buffer is left: a turn that rides a
      datagram always holds the intent back. */
  lemma FlushGateExactly(fits: Fits, slot: SlotId, d: Driver, ok: bool)
    requires || (d.turns.stage == Turns.FlushingHeld && d.turns.held != [])
             || (d.turns.stage == Turns.FlushingBuffer && d.turns.buffer != [])
    ensures var t, c := d.turns, d.control;
            var held := t.stage == Turns.FlushingHeld;
            var p := if held then t.held[0].payload else t.buffer[0];
            var a := if held then Turns.SendHeld(ok) else Turns.SendBuffer(ok);
            Gate(Turns.Do(fits, slot, t, a), c) <==>
              && c.announcer.Pending? && !AwaitingResult(c)
              && t.channel == [] && (if held then |t.held| == 1 else t.held == []) && t.unacked == {}
              && !fits(Turns.Stamp(p, |t.stamped|, slot))
  {
    var t := d.turns;
    assert |t.stamped| in t.unacked + {|t.stamped|};
  }

  ghost predicate Reachable(fits: Fits, slot: SlotId, d: Driver) {
    exists run :: IsRun(fits, slot, run) && After(fits, slot, run) == d
  }

  lemma StepReaches(fits: Fits, slot: SlotId, d: Driver, a: Action)
    requires Reachable(fits, slot, d) && Can(fits, d, a)
    ensures Reachable(fits, slot, Do(fits, slot, d, a))
  {
    hide Can, Do;
    var run :| IsRun(fits, slot, run) && After(fits, slot, run) == d;
    assert (run + [a])[..|run|] == run;
    assert IsRun(fits, slot, run + [a]) && After(fits, slot, run + [a]) == Do(fits, slot, d, a);
  }

  lemma TurnReaches(fits: Fits, slot: SlotId, t: Turns.Session, c: Control, a: Turns.Action, t': Turns.Session)
    requires Reachable(fits, slot, Driver(t, c)) && Turns.Can(fits, t, a) && t' == Turns.Do(fits, slot, t, a)
    ensures Reachable(fits, slot, Driver(t', c))
  {
    hide Reachable, Turns.Can, Turns.Do;
    StepReaches(fits, slot, Driver(t, c), Turn(a));
  }

  lemma FreshIsReachable(fits: Fits, slot: SlotId)
    ensures Reachable(fits, slot, Driver(Turns.Fresh, Silent))
  {
    assert IsRun(fits, slot, []) && After(fits, slot, []) == Driver(Turns.Fresh, Silent);
  }

  lemma ServingIsReachable(fits: Fits, slot: SlotId)
    ensures Reachable(fits, slot, Driver(Turns.Fresh.(stage := Turns.Serving), Silent))
  {
    var t := Turns.Fresh;
    FreshIsReachable(fits, slot);
    hide Reachable;
    TurnReaches(fits, slot, t, Silent, Turns.StagedDone, t.(stage := Turns.FlushingHeld));
    TurnReaches(fits, slot, t.(stage := Turns.FlushingHeld), Silent, Turns.HeldDone, t.(stage := Turns.FlushingBuffer));
    TurnReaches(fits, slot, t.(stage := Turns.FlushingBuffer), Silent, Turns.BufferDone, t.(stage := Turns.Serving));
  }

  const Leaving := Silent.(announcer := Pending)

  function HeldWhileServing(big: Payload): Turns.Session {
    Turns.Fresh.(stage := Turns.Serving, held := [Turns.Held(1_000_000, 0, 1_000, big)], produced := [big])
  }

  function OutageSession(stage: Turns.Stage, big: Payload, small: Payload): Turns.Session {
    HeldWhileServing(big).(stage := stage, buffer := [small], produced := [big, small])
  }

  /** The game produces `big`, which waits out a delay. */
  lemma HoldingIsReachable(fits: Fits, slot: SlotId, big: Payload)
    ensures Reachable(fits, slot, Driver(HeldWhileServing(big), Silent))
  {
    hide Reachable;
    ServingIsReachable(fits, slot);
    var t := Turns.Fresh.(stage := Turns.Serving);
    var produced := t.(channel := [big], produced := [big]);
    TurnReaches(fits, slot, t, Silent, Turns.Produce(big), produced);
    assert Turns.Do(fits, slot, produced, Turns.Hold(1000)).held == HeldWhileServing(big).held;
    TurnReaches(fits, slot, produced, Silent, Turns.Hold(1000), HeldWhileServing(big));
  }

  /** And then the game leaves. */
  lemma LeavingIsReachable(fits: Fits, slot: SlotId, big: Payload)
    ensures Reachable(fits, slot, Driver(HeldWhileServing(big), Leaving))
  {
    HoldingIsReachable(fits, slot, big);
    hide Reachable, HeldWhileServing;
    assert Act(HeldWhileServing(big), Silent, OnLeaveIntent(false)) == Leaving;
    StepReaches(fits, slot, Driver(HeldWhileServing(big), Silent), OnLeaveIntent(false));
  }

  /** The link fails, `small` is produced during the outage, and the session
      resumes on a new stream. */
  lemma OutageIsReachable(fits: Fits, slot: SlotId, big: Payload, small: Payload)
    ensures Reachable(fits, slot, Driver(OutageSession(Turns.FlushingHeld, big, small), Leaving.(stream := 1)))
  {
    hide Reachable;
    LeavingIsReachable(fits, slot, big);
    var down := HeldWhileServing(big).(stage := Turns.Down);
    TurnReaches(fits, slot, HeldWhileServing(big), Leaving, Turns.LinkFails, down);
    var produced := down.(channel := [small], produced := [big, small]);
    TurnReaches(fits, slot, down, Leaving, Turns.Produce(small), produced);
    TurnReaches(fits, slot, produced, Leaving, Turns.BufferTurn, OutageSession(Turns.Down, big, small));
    ResumedIsReachable(fits, slot, big, small);
  }

  lemma ResumedIsReachable(fits: Fits, slot: SlotId, big: Payload, small: Payload)
    requires Reachable(fits, slot, Driver(OutageSession(Turns.Down, big, small), Leaving))
    ensures Reachable(fits, slot, Driver(OutageSession(Turns.FlushingHeld, big, small), Leaving.(stream := 1)))
  {
    hide Reachable;
    var down, opening := OutageSession(Turns.Down, big, small), OutageSession(Turns.Opening, big, small);
    assert Turns.Resent(fits, down) == {};
    TurnReaches(fits, slot, down, Leaving, Turns.ResumeSameRelay(0), opening);
    StepReaches(fits, slot, Driver(opening, Leaving), OpenStream);
    TurnReaches(fits, slot, opening, Leaving.(stream := 1), Turns.StagedDone,
                OutageSession(Turns.FlushingHeld, big, small));
  }

  /** So the gate can let the intent out before a produced turn: when `big` fits no
      datagram, flushing it opens the gate with `small` still in the buffer. */
  lemma GateCanOpenEarly(fits: Fits, slot: SlotId, big: Payload, small: Payload) returns (d: Driver)
    requires !fits(Turns.Stamp(big, 0, slot))
    ensures Reachable(fits, slot, d)
    ensures d.control.trace == [Written(1, LeaveIntent(true, false, 1, 0, false))]
    ensures d.turns.buffer == [small]
  {
    hide Reachable;
    OutageIsReachable(fits, slot, big, small);
    var t := OutageSession(Turns.FlushingHeld, big, small);
    var flushed := Turns.Do(fits, slot, t, Turns.SendHeld(true));
    var leaving := Leaving.(stream := 1);
    TurnReaches(fits, slot, t, leaving, Turns.SendHeld(true), flushed);
    StepReaches(fits, slot, Driver(flushed, leaving), MaybeSend(true));
    d := Do(fits, slot, Driver(flushed, leaving), MaybeSend(true));
  }
}
