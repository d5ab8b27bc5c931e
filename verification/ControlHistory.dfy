/** What the control streams carry, told from the history alone: the actions a run is
    made of and the frames already written, not the flags the driver keeps. */
module ControlHistory {
  import opened Basics
  import opened ControlFrames
  import opened Messages
  import opened Retention
  import Turns

  ghost predicate Leaves(run: seq<Action>) {
    OnLeaveIntent(true) in run || OnLeaveIntent(false) in run || TeardownLeave in run
  }

  /** Some write of the intent succeeded. */
  ghost predicate IntentOut(run: seq<Action>) {
    MaybeSend(true) in run || ForceSend(true, true) in run || ForceSend(false, true) in run
  }

  predicate IsResult(a: Action) {
    a.OnResult? || a.TeardownResult?
  }

  ghost predicate ResultTried(run: seq<Action>) {
    OnResult(true) in run || OnResult(false) in run || TeardownResult(true) in run || TeardownResult(false) in run
  }

  predicate ReadsSignal(a: Action) {
    a.OnGameStarted? || a.OnProbe? || a.TeardownStart?
  }

  /** A start signal waits in its channel. */
  ghost predicate Unread(run: seq<Action>) {
    && run != []
    && (run[|run| - 1].SignalStart? || (!ReadsSignal(run[|run| - 1]) && Unread(run[..|run| - 1])))
  }

  /** Some start signal has been read. */
  ghost predicate Announced(run: seq<Action>) {
    && run != []
    && (Announced(run[..|run| - 1]) || (ReadsSignal(run[|run| - 1]) && Unread(run[..|run| - 1])))
  }

  ghost function Newest(run: seq<Action>): Option<nat> {
    if run == [] then None
    else if run[|run| - 1].Publish? then Some(run[|run| - 1].snapshot)
    else Newest(run[..|run| - 1])
  }

  /** The stream in use: how many have been opened. */
  ghost function StreamOf(run: seq<Action>): nat {
    if run == [] then 0 else StreamOf(run[..|run| - 1]) + if run[|run| - 1].OpenStream? then 1 else 0
  }

  /** The snapshot a stream carried last. */
  ghost function Carried(trace: seq<Written>, stream: nat): Option<nat> {
    if trace == [] then None
    else
      var last := trace[|trace| - 1];
      if last.stream == stream && last.frame.RollbackStats? then Some(last.frame.snapshot)
      else Carried(trace[..|trace| - 1], stream)
  }

  ghost predicate StartOn(trace: seq<Written>, stream: nat) {
    Written(stream, GameStarted) in trace
  }

  // The flags follow the actions.

  ghost predicate LeaveFollows(run: seq<Action>, c: Control) {
    && (c.announcer.Sent? <==> IntentOut(run))
    && (c.announcer.Idle? <==> !Leaves(run))
    && (c.resultExpected <==> ExpectResult in run)
    && (c.resultSent ==> ResultTried(run))
    && (!IntentOut(run) && ResultTried(run) ==> c.resultSent)
  }

  ghost predicate StartFollows(run: seq<Action>, c: Control) {
    && (c.start.signalled <==> SignalStart in run)
    && (c.start.queued <==> Unread(run))
    && (c.start.announced <==> Announced(run))
    && (SignalStart in run <==> Unread(run) || Announced(run))
    && c.snapshot == Newest(run) && c.stream == StreamOf(run)
  }

  /** No frame is on a stream not yet opened, and the books of this one are right. A
      start written at teardown is not booked. */
  ghost predicate BooksFollow(tornDown: bool, c: Control) {
    && (forall i | 0 <= i < |c.trace| :: c.trace[i].stream <= c.stream)
    && c.snapshotOnStream == Carried(c.trace, c.stream)
    && (c.start.onStream ==> StartOn(c.trace, c.stream))
    && (!tornDown && StartOn(c.trace, c.stream) ==> c.start.onStream)
  }

  lemma OneMoreLeave(run: seq<Action>, a: Action)
    ensures var run' := run + [a];
            && (Leaves(run') <==> Leaves(run) || a.OnLeaveIntent? || a.TeardownLeave?)
            && (IntentOut(run') <==> IntentOut(run) || ((a.MaybeSend? || a.ForceSend?) && a.ok))
            && (ResultTried(run') <==> ResultTried(run) || IsResult(a))
            && (ExpectResult in run' <==> ExpectResult in run || a.ExpectResult?)
  {
  }

  lemma OneMoreStart(run: seq<Action>, a: Action)
    ensures var run' := run + [a];
            && (SignalStart in run' <==> SignalStart in run || a.SignalStart?)
            && (TeardownStart(true) in run' <==> TeardownStart(true) in run || a == TeardownStart(true))
            && (Unread(run') <==> a.SignalStart? || (!ReadsSignal(a) && Unread(run)))
            && (Announced(run') <==> Announced(run) || (ReadsSignal(a) && Unread(run)))
            && Newest(run') == (if a.Publish? then Some(a.snapshot) else Newest(run))
            && StreamOf(run') == StreamOf(run) + if a.OpenStream? then 1 else 0
  {
    assert (run + [a])[..|run|] == run;
  }

  lemma LeaveStep(run: seq<Action>, t: Turns.Session, c: Control, a: Action)
    requires LeaveFollows(run, c) && CanAct(t, c, a)
    ensures LeaveFollows(run + [a], Act(t, c, a))
  {
    hide Put, Intent, Leaves, IntentOut, ResultTried, Probe;
    OneMoreLeave(run, a);
    if a.OnProbe? {
      ProbeFlags(c, a.id, a.startOk, a.ackOk);
    }
  }

  lemma ProbeFlags(c: Control, id: nat, startOk: bool, ackOk: bool)
    ensures var c' := Probe(c, id, startOk, ackOk);
            && c' == c.(start := c'.start, trace := c'.trace)
            && c'.start == c.start.(queued := false, announced := c.start.announced || c.start.queued,
                                    onStream := c'.start.onStream)
  {
  }

  lemma StartFlags(t: Turns.Session, c: Control, a: Action)
    requires CanAct(t, c, a)
    ensures var c' := Act(t, c, a);
            && (c'.start.signalled <==> c.start.signalled || a.SignalStart?)
            && (c'.start.queued <==> a.SignalStart? || (!ReadsSignal(a) && c.start.queued))
            && (c'.start.announced <==> c.start.announced || (ReadsSignal(a) && c.start.queued))
            && c'.snapshot == (if a.Publish? then Some(a.snapshot) else c.snapshot)
            && c'.stream == c.stream + if a.OpenStream? then 1 else 0
  {
    hide Put, Intent, Gate, Probe;
    if a.OnProbe? {
      ProbeFlags(c, a.id, a.startOk, a.ackOk);
    }
  }

  lemma StartStep(run: seq<Action>, t: Turns.Session, c: Control, a: Action)
    requires StartFollows(run, c) && CanAct(t, c, a)
    ensures StartFollows(run + [a], Act(t, c, a))
  {
    hide CanAct, Act, Unread, Announced, Newest, StreamOf;
    OneMoreStart(run, a);
    StartFlags(t, c, a);
  }

  /** A step that writes at most one frame and books it. */
  lemma WriteBooks(tornDown: bool, c: Control, ok: bool, frame: Frame, tornDown': bool, c': Control)
    requires BooksFollow(tornDown, c) && (tornDown ==> tornDown')
    requires c'.trace == Put(c, ok, frame) && c'.stream == c.stream
    requires c'.snapshotOnStream == if ok && frame.RollbackStats? then Some(frame.snapshot) else c.snapshotOnStream
    requires c'.start.onStream ==> c.start.onStream || (ok && frame.GameStarted?)
    requires !tornDown' && (c.start.onStream || (ok && frame.GameStarted?)) ==> c'.start.onStream
    requires c.start.onStream ==> c'.start.onStream
    ensures BooksFollow(tornDown', c')
  {
    if ok {
      assert c'.trace[..|c.trace|] == c.trace;
    }
  }

  lemma {:induction false} NothingBeyond(trace: seq<Written>, stream: nat)
    requires forall i | 0 <= i < |trace| :: trace[i].stream < stream
    ensures Carried(trace, stream) == None && !StartOn(trace, stream)
  {
    if trace != [] {
      NothingBeyond(trace[..|trace| - 1], stream);
    }
  }

  lemma StatsBooks(tornDown: bool, c: Control, ok: bool)
    requires BooksFollow(tornDown, c)
    ensures BooksFollow(tornDown, PutStats(c, ok))
  {
    hide BooksFollow;
    if StatsDue(c) && ok {
      WriteBooks(tornDown, c, true, RollbackStats(c.snapshot.value), tornDown, PutStats(c, ok));
    }
  }

  lemma ResultBooks(tornDown: bool, c: Control, ok: bool)
    requires BooksFollow(tornDown, c)
    ensures BooksFollow(tornDown, PutResult(c, ok))
  {
    hide BooksFollow;
    var wrote := ok && !c.resultSent && !c.announcer.Sent?;
    WriteBooks(tornDown, c, wrote, GameResult, tornDown, PutResult(c, ok));
  }

  lemma ProbeBooks(tornDown: bool, c: Control, id: nat, startOk: bool, ackOk: bool)
    requires BooksFollow(tornDown, c)
    ensures BooksFollow(tornDown, Probe(c, id, startOk, ackOk))
  {
    hide BooksFollow;
    var started := PutOwedStart(c, startOk);
    WriteBooks(tornDown, c, StartOwed(ReadStart(c)) && startOk, GameStarted, tornDown, started);
    var ack := ProbeAck(id, c.start.signalled);
    WriteBooks(tornDown, started, !StartOwed(started) && ackOk, ack, tornDown, Probe(c, id, startOk, ackOk));
  }

  lemma OpenBooks(tornDown: bool, t: Turns.Session, c: Control)
    requires BooksFollow(tornDown, c)
    ensures BooksFollow(tornDown, Act(t, c, OpenStream))
  {
    NothingBeyond(c.trace, c.stream + 1);
  }

  lemma IntentBooks(tornDown: bool, t: Turns.Session, c: Control, gated: bool, ok: bool)
    requires BooksFollow(tornDown, c)
    ensures BooksFollow(tornDown, PutIntent(t, c, gated, ok))
  {
    hide BooksFollow;
    WriteBooks(tornDown, c, ok, Intent(t, c, gated), tornDown, PutIntent(t, c, gated, ok));
  }

  lemma StartBooks(tornDown: bool, t: Turns.Session, c: Control, a: Action)
    requires BooksFollow(tornDown, c) && (a.Reassert? || a.OnGameStarted? || a.TeardownStart?)
    ensures BooksFollow(tornDown || a == TeardownStart(true), Act(t, c, a))
  {
    hide BooksFollow;
    var wrote := a.ok && (a.Reassert? || !c.start.announced);
    WriteBooks(tornDown, c, wrote, GameStarted, tornDown || a == TeardownStart(true), Act(t, c, a));
  }

  lemma ReportBooks(tornDown: bool, t: Turns.Session, c: Control, a: Action)
    requires BooksFollow(tornDown, c) && (a.OnRollbackStats? || a.OnLeaveIntent? || a.ForceSend?)
    ensures BooksFollow(tornDown, Act(t, c, a))
  {
    hide BooksFollow, PutStats, PutIntent;
    var ok := if a.OnRollbackStats? then a.ok else a.statsOk;
    StatsBooks(tornDown, c, ok);
    if a.OnLeaveIntent? {
      QuietBooks(tornDown, PutStats(c, ok), Armed(PutStats(c, ok)));
    } else if a.ForceSend? {
      IntentBooks(tornDown, t, PutStats(c, ok), false, a.ok);
    }
  }

  lemma OtherBooks(tornDown: bool, t: Turns.Session, c: Control, a: Action)
    requires BooksFollow(tornDown, c)
    requires a.SignalStart? || a.ExpectResult? || a.Publish? || a.TeardownLeave?
    ensures BooksFollow(tornDown, Act(t, c, a))
  {
    hide BooksFollow;
    QuietBooks(tornDown, c, Act(t, c, a));
  }

  lemma WriterBooks(tornDown: bool, t: Turns.Session, c: Control, a: Action)
    requires BooksFollow(tornDown, c)
    requires IsResult(a) || a.OnProbe? || a.MaybeSend?
    ensures BooksFollow(tornDown, Act(t, c, a))
  {
    hide BooksFollow, PutResult, Probe, PutIntent;
    if a.OnProbe? {
      ProbeBooks(tornDown, c, a.id, a.startOk, a.ackOk);
    } else if a.MaybeSend? {
      IntentBooks(tornDown, t, c, true, a.ok);
    } else {
      ResultBooks(tornDown, c, a.ok);
    }
  }

  lemma BooksStep(tornDown: bool, t: Turns.Session, c: Control, a: Action)
    requires BooksFollow(tornDown, c) && !a.Turn?
    ensures BooksFollow(tornDown || a == TeardownStart(true), Act(t, c, a))
  {
    hide BooksFollow, Act;
    if a.OpenStream? {
      OpenBooks(tornDown, t, c);
    } else if a.Reassert? || a.OnGameStarted? || a.TeardownStart? {
      StartBooks(tornDown, t, c, a);
    } else if a.OnRollbackStats? || a.OnLeaveIntent? || a.ForceSend? {
      ReportBooks(tornDown, t, c, a);
    } else if IsResult(a) || a.OnProbe? || a.MaybeSend? {
      WriterBooks(tornDown, t, c, a);
    } else {
      OtherBooks(tornDown, t, c, a);
    }
  }

  lemma QuietBooks(tornDown: bool, c: Control, c': Control)
    requires BooksFollow(tornDown, c)
    requires c'.trace == c.trace && c'.stream == c.stream && c'.snapshotOnStream == c.snapshotOnStream
    requires c'.start.onStream == c.start.onStream
    ensures BooksFollow(tornDown, c')
  {
  }

  /** Over every run. */
  lemma {:induction false} FlagsFollow(fits: Fits, slot: SlotId, run: seq<Action>)
    requires IsRun(fits, slot, run)
    ensures var c := After(fits, slot, run).control;
            LeaveFollows(run, c) && StartFollows(run, c) && BooksFollow(TeardownStart(true) in run, c)
  {
    if run == [] {
      assert After(fits, slot, run).control == Silent;
    } else {
      hide LeaveFollows, StartFollows, BooksFollow, Turns.Can, Turns.Do, CanAct, Act;
      var front, a := run[..|run| - 1], run[|run| - 1];
      assert run == front + [a];
      FlagsFollow(fits, slot, front);
      var d := After(fits, slot, front);
      OneMoreStart(front, a);
      if a.Turn? {
        TurnStep(front, d.control, a);
      } else {
        LeaveStep(front, d.turns, d.control, a);
        StartStep(front, d.turns, d.control, a);
        BooksStep(TeardownStart(true) in front, d.turns, d.control, a);
      }
    }
  }

  lemma TurnStep(run: seq<Action>, c: Control, a: Action)
    requires LeaveFollows(run, c) && StartFollows(run, c) && a.Turn?
    ensures LeaveFollows(run + [a], c) && StartFollows(run + [a], c)
  {
    hide Leaves, IntentOut, ResultTried, Unread, Announced, Newest, StreamOf;
    OneMoreLeave(run, a);
    OneMoreStart(run, a);
  }

  // What each action writes, and when it may happen.

  ghost function Trace(fits: Fits, slot: SlotId, run: seq<Action>): seq<Written>
    requires IsRun(fits, slot, run)
  {
    After(fits, slot, run).control.trace
  }

  lemma Extends(fits: Fits, slot: SlotId, run: seq<Action>, a: Action)
    requires IsRun(fits, slot, run) && !a.Turn?
    requires CanAct(After(fits, slot, run).turns, After(fits, slot, run).control, a)
    ensures IsRun(fits, slot, run + [a])
    ensures var d := After(fits, slot, run);
            Trace(fits, slot, run + [a]) == Act(d.turns, d.control, a).trace
  {
    hide CanAct, Act, Turns.Can, Turns.Do;
    assert (run + [a])[..|run|] == run;
  }

  lemma ResultWrites(t: Turns.Session, c: Control, a: Action)
    requires IsResult(a)
    ensures CanAct(t, c, a)
    ensures Act(t, c, a).trace == c.trace + Maybe(a.ok && !c.resultSent && !c.announcer.Sent?, c.stream, GameResult)
  {
  }

  /** A result is written exactly by the first attempt at it, if that succeeds and no
      intent is out. */
  lemma ResultExactly(fits: Fits, slot: SlotId, run: seq<Action>, a: Action)
    requires IsRun(fits, slot, run) && (a.OnResult? || a.TeardownResult?)
    ensures IsRun(fits, slot, run + [a])
    ensures Trace(fits, slot, run + [a])
            == Trace(fits, slot, run)
             + Maybe(a.ok && !ResultTried(run) && !IntentOut(run), StreamOf(run), GameResult)
  {
    hide ResultTried, IntentOut, StreamOf, Leaves, Unread, Announced, Newest, BooksFollow, IsRun, After, CanAct, Act;
    var d := After(fits, slot, run);
    FlagsFollow(fits, slot, run);
    ResultWrites(d.turns, d.control, a);
    Extends(fits, slot, run, a);
  }

  lemma ProbeWrites(t: Turns.Session, c: Control, id: nat, startOk: bool, ackOk: bool)
    ensures CanAct(t, c, OnProbe(id, startOk, ackOk))
    ensures var owed := (c.start.queued || c.start.announced) && !c.start.onStream;
            Act(t, c, OnProbe(id, startOk, ackOk)).trace
            == c.trace
             + Maybe(owed && startOk, c.stream, GameStarted)
             + Maybe((!owed || startOk) && ackOk, c.stream, ProbeAck(id, c.start.signalled))
  {
  }

  /** A probe is answered, the start it is owed first, unless a write fails; and when
      that is the start's write, nothing is written. */
  lemma ProbeExactly(fits: Fits, slot: SlotId, run: seq<Action>, id: nat, startOk: bool, ackOk: bool)
    requires IsRun(fits, slot, run) && TeardownStart(true) !in run
    ensures IsRun(fits, slot, run + [OnProbe(id, startOk, ackOk)])
    ensures var trace, stream := Trace(fits, slot, run), StreamOf(run);
            var owed := SignalStart in run && Written(stream, GameStarted) !in trace;
            Trace(fits, slot, run + [OnProbe(id, startOk, ackOk)])
            == trace
             + Maybe(owed && startOk, stream, GameStarted)
             + Maybe((!owed || startOk) && ackOk, stream, ProbeAck(id, SignalStart in run))
  {
    hide ResultTried, IntentOut, StreamOf, Leaves, Unread, Announced, Newest, Carried, IsRun, After, CanAct, Act;
    var d := After(fits, slot, run);
    FlagsFollow(fits, slot, run);
    ProbeWrites(d.turns, d.control, id, startOk, ackOk);
    Extends(fits, slot, run, OnProbe(id, startOk, ackOk));
  }

  lemma StartWrites(t: Turns.Session, c: Control, a: Action)
    requires a.OnGameStarted? || a.TeardownStart? || a.Reassert?
    ensures CanAct(t, c, a) <==> if a.Reassert? then c.start.announced else c.start.queued
    ensures Act(t, c, a).trace
            == c.trace + Maybe(a.ok && (a.Reassert? || !c.start.announced), c.stream, GameStarted)
  {
  }

  /** The start is announced when its signal is first read, on the stream then open, and
      again at the opening of every later one. */
  lemma StartExactly(fits: Fits, slot: SlotId, run: seq<Action>, a: Action)
    requires IsRun(fits, slot, run) && (a.OnGameStarted? || a.TeardownStart? || a.Reassert?)
    ensures Can(fits, After(fits, slot, run), a) <==> if a.Reassert? then Announced(run) else Unread(run)
    ensures Can(fits, After(fits, slot, run), a) ==>
              && IsRun(fits, slot, run + [a])
              && Trace(fits, slot, run + [a])
                 == Trace(fits, slot, run)
                  + Maybe(a.ok && (a.Reassert? || !Announced(run)), StreamOf(run), GameStarted)
  {
    hide ResultTried, IntentOut, StreamOf, Leaves, Unread, Announced, Newest, BooksFollow, IsRun, After, CanAct, Act;
    var d := After(fits, slot, run);
    FlagsFollow(fits, slot, run);
    StartWrites(d.turns, d.control, a);
    if Can(fits, d, a) {
      Extends(fits, slot, run, a);
    }
  }

  lemma StatsWrites(t: Turns.Session, c: Control, a: Action, ok: bool)
    requires a == OnRollbackStats(ok) || a == OnLeaveIntent(ok)
    ensures CanAct(t, c, a)
    ensures Act(t, c, a).trace
            == match c.snapshot
               case None => c.trace
               case Some(n) =>
                 c.trace + Maybe(ok && !c.announcer.Sent? && c.snapshotOnStream != Some(n), c.stream, RollbackStats(n))
  {
  }

  /** The newest snapshot is written unless the stream carries it already or the
      intent is out; arming the leave does the same and nothing else. */
  lemma StatsExactly(fits: Fits, slot: SlotId, run: seq<Action>, a: Action, ok: bool)
    requires IsRun(fits, slot, run) && (a == OnRollbackStats(ok) || a == OnLeaveIntent(ok))
    ensures IsRun(fits, slot, run + [a])
    ensures var trace, stream := Trace(fits, slot, run), StreamOf(run);
            Trace(fits, slot, run + [a])
            == match Newest(run)
               case None => trace
               case Some(n) =>
                 trace + Maybe(ok && !IntentOut(run) && Carried(trace, stream) != Some(n), stream, RollbackStats(n))
  {
    hide ResultTried, IntentOut, StreamOf, Leaves, Unread, Announced, Newest, Carried, StartOn;
    hide IsRun, After, CanAct, Act;
    var d := After(fits, slot, run);
    FlagsFollow(fits, slot, run);
    StatsWrites(d.turns, d.control, a, ok);
    Extends(fits, slot, run, a);
  }

  /** The gate lets an intent go exactly when the game is leaving, none is out, a
      result that is expected has been offered, and nothing is queued, held or in
      flight. The safety timeout asks for the first two only. */
  lemma IntentExactly(fits: Fits, slot: SlotId, run: seq<Action>, statsOk: bool, ok: bool)
    requires IsRun(fits, slot, run)
    ensures var d, t := After(fits, slot, run), After(fits, slot, run).turns;
            && (Can(fits, d, ForceSend(statsOk, ok)) <==> Leaves(run) && !IntentOut(run))
            && (Can(fits, d, MaybeSend(ok)) <==>
                  && Leaves(run) && !IntentOut(run)
                  && (ExpectResult in run ==> ResultTried(run))
                  && t.channel == [] && t.held == [] && t.unacked == {})
  {
    hide ResultTried, IntentOut, Leaves, StartFollows, BooksFollow, IsRun, After;
    FlagsFollow(fits, slot, run);
  }

  lemma GatedWrites(t: Turns.Session, c: Control, ok: bool)
    ensures CanAct(t, c, MaybeSend(ok)) ==>
              var serving := t.stage.Serving? || t.stage.Draining?;
              Act(t, c, MaybeSend(ok)).trace
              == c.trace
               + Maybe(ok, c.stream, LeaveIntent(true, serving, SaturatingSub(|t.produced|, |t.stamped|), 0, false))
  {
  }

  lemma GatedIntentWritten(fits: Fits, slot: SlotId, run: seq<Action>, ok: bool)
    requires IsRun(fits, slot, run) && Can(fits, After(fits, slot, run), MaybeSend(ok))
    ensures IsRun(fits, slot, run + [MaybeSend(ok)])
    ensures var t := After(fits, slot, run).turns;
            var serving := t.stage.Serving? || t.stage.Draining?;
            Trace(fits, slot, run + [MaybeSend(ok)])
            == Trace(fits, slot, run)
             + Maybe(ok, StreamOf(run), LeaveIntent(true, serving, SaturatingSub(|t.produced|, |t.stamped|), 0, false))
  {
    hide ResultTried, IntentOut, Leaves, StreamOf, Unread, Announced, Newest, BooksFollow, IsRun, After, CanAct, Act;
    var d := After(fits, slot, run);
    FlagsFollow(fits, slot, run);
    GatedWrites(d.turns, d.control, ok);
    Extends(fits, slot, run, MaybeSend(ok));
  }

  lemma ForcedWrites(t: Turns.Session, c: Control, statsOk: bool, ok: bool)
    requires c.announcer.Pending?
    ensures var serving := t.stage.Serving? || t.stage.Draining?;
            var stats := match c.snapshot
                         case None => []
                         case Some(n) => Maybe(statsOk && c.snapshotOnStream != Some(n), c.stream, RollbackStats(n));
            Act(t, c, ForceSend(statsOk, ok)).trace
            == c.trace + stats
             + Maybe(ok, c.stream,
                     LeaveIntent(false, serving, SaturatingSub(|t.produced|, |t.stamped|), |t.unacked|,
                                 c.resultExpected && !c.resultSent))
  {
  }

  /** A forced intent takes the newest snapshot with it, in front. */
  lemma ForcedIntentWritten(fits: Fits, slot: SlotId, run: seq<Action>, statsOk: bool, ok: bool)
    requires IsRun(fits, slot, run) && Can(fits, After(fits, slot, run), ForceSend(statsOk, ok))
    ensures IsRun(fits, slot, run + [ForceSend(statsOk, ok)])
    ensures var t, trace, stream := After(fits, slot, run).turns, Trace(fits, slot, run), StreamOf(run);
            var serving := t.stage.Serving? || t.stage.Draining?;
            var stats := match Newest(run)
                         case None => []
                         case Some(n) => Maybe(statsOk && Carried(trace, stream) != Some(n), stream, RollbackStats(n));
            Trace(fits, slot, run + [ForceSend(statsOk, ok)])
            == trace + stats
             + Maybe(ok, stream,
                     LeaveIntent(false, serving, SaturatingSub(|t.produced|, |t.stamped|), |t.unacked|,
                                 ExpectResult in run && !ResultTried(run)))
  {
    hide ResultTried, IntentOut, Leaves, StreamOf, Unread, Announced, Newest, Carried, StartOn, IsRun, After, Act;
    var d := After(fits, slot, run);
    FlagsFollow(fits, slot, run);
    ForcedWrites(d.turns, d.control, statsOk, ok);
    Extends(fits, slot, run, ForceSend(statsOk, ok));
  }

  // Whole runs.

  /** An intent is on the wire exactly when a write of it succeeded. */
  lemma IntentWrittenExactly(fits: Fits, slot: SlotId, run: seq<Action>)
    requires IsRun(fits, slot, run)
    ensures HasIntent(Trace(fits, slot, run)) <==> IntentOut(run)
  {
    hide IntentOut, Leaves, ResultTried, HasIntent, HasResult, OneDeparture, GatedIsDrained, FenceHolds;
    hide StartFollows, BooksFollow, StartIsTracked;
    RunsKeep(fits, slot, run);
    FlagsFollow(fits, slot, run);
  }

  lemma {:induction false} PrefixIsRun(fits: Fits, slot: SlotId, run: seq<Action>, i: nat)
    requires IsRun(fits, slot, run) && i < |run|
    ensures IsRun(fits, slot, run[..i]) && Can(fits, After(fits, slot, run[..i]), run[i])
  {
    hide Can, Do;
    var front := run[..|run| - 1];
    if i < |front| {
      PrefixIsRun(fits, slot, front, i);
      assert front[..i] == run[..i];
    }
  }

  /** Whenever the gate lets the intent go: nothing waits in the channel or the hold
      and nothing is in flight, in the serve loop every turn the game produced is
      stamped, and the result it promised has been offered. */
  lemma DepartureIsDrained(fits: Fits, slot: SlotId, run: seq<Action>, i: nat)
    requires IsRun(fits, slot, run) && i < |run| && run[i].MaybeSend?
    ensures IsRun(fits, slot, run[..i])
    ensures var t := After(fits, slot, run[..i]).turns;
            && t.channel == [] && t.held == [] && t.unacked == {}
            && (t.stage.Serving? || t.stage.Draining? ==> |t.produced| == |t.stamped|)
            && (ExpectResult in run[..i] ==> ResultTried(run[..i]))
  {
    hide ResultTried, IntentOut, Leaves, Turns.Inv, ControlInv;
    PrefixIsRun(fits, slot, run, i);
    IntentExactly(fits, slot, run[..i], false, run[i].ok);
    RunsKeep(fits, slot, run[..i]);
    var d := After(fits, slot, run[..i]);
    ServingGateIsDrained(fits, slot, d.turns, d.control);
  }

  /** The i-th action is the first attempt at a result, it succeeds, and no intent is
      out. */
  ghost predicate FirstResult(run: seq<Action>, i: nat) {
    && i < |run| && (run[i].OnResult? || run[i].TeardownResult?) && run[i].ok
    && !ResultTried(run[..i]) && !IntentOut(run[..i])
  }

  /** A session has written a result exactly when there was such an attempt. */
  lemma {:induction false} ResultWrittenExactly(fits: Fits, slot: SlotId, run: seq<Action>)
    requires IsRun(fits, slot, run)
    ensures HasResult(Trace(fits, slot, run)) <==> exists i :: FirstResult(run, i)
  {
    if run == [] {
      assert Trace(fits, slot, run) == [];
    } else {
      hide FirstResult, HasResult, ResultTried, IntentOut, Can, After, Trace;
      var front, a := run[..|run| - 1], run[|run| - 1];
      assert run == front + [a];
      ResultWrittenExactly(fits, slot, front);
      FirstResultExtends(front, a);
      ResultIsNew(fits, slot, run);
    }
  }

  lemma ResultIsNew(fits: Fits, slot: SlotId, run: seq<Action>)
    requires IsRun(fits, slot, run) && run != []
    ensures var front, a := run[..|run| - 1], run[|run| - 1];
            HasResult(Trace(fits, slot, run)) <==>
              HasResult(Trace(fits, slot, front)) || (IsResult(a) && a.ok && !ResultTried(front) && !IntentOut(front))
  {
    hide HasResult, HasIntent, StartIsOn, Can, Act, Turns.Do, StreamOf, ResultTried, IntentOut;
    var front, a := run[..|run| - 1], run[|run| - 1];
    var d := After(fits, slot, front);
    if IsResult(a) {
      assert run == front + [a];
      ResultExactly(fits, slot, front, a);
      var trace := Trace(fits, slot, front);
      assert trace + [] == trace;
      ExtendTrace(trace, Written(StreamOf(front), GameResult));
    } else if !a.Turn? {
      OthersWriteNoResult(d.turns, d.control, a);
    }
  }

  lemma FirstResultExtends(run: seq<Action>, a: Action)
    ensures (exists i :: FirstResult(run + [a], i)) <==>
            || (exists i :: FirstResult(run, i))
            || (IsResult(a) && a.ok && !ResultTried(run) && !IntentOut(run))
  {
    hide ResultTried, IntentOut;
    var run' := run + [a];
    assert run'[..|run|] == run;
    forall i: nat | i < |run| ensures FirstResult(run', i) == FirstResult(run, i) {
      assert run'[..i] == run[..i];
    }
    assert FirstResult(run', |run|) <==> IsResult(a) && a.ok && !ResultTried(run) && !IntentOut(run);
  }

  lemma PutNoResult(c: Control, ok: bool, frame: Frame)
    requires !frame.GameResult?
    ensures HasResult(Put(c, ok, frame)) == HasResult(c.trace)
  {
    hide HasIntent, StartIsOn, HasResult;
    ExtendTrace(c.trace, Written(c.stream, frame));
  }

  lemma OthersWriteNoResult(t: Turns.Session, c: Control, a: Action)
    requires !a.Turn? && !IsResult(a)
    ensures HasResult(Act(t, c, a).trace) == HasResult(c.trace)
  {
    hide HasResult, Put;
    match a {
      case Reassert(ok) => PutNoResult(c, ok, GameStarted);
      case OnGameStarted(ok) => PutNoResult(ReadStart(c), ok, GameStarted);
      case TeardownStart(ok) => PutNoResult(c, ok, GameStarted);
      case OnProbe(id, startOk, ackOk) =>
        PutNoResult(ReadStart(c), startOk, GameStarted);
        PutNoResult(PutOwedStart(c, startOk), ackOk, ProbeAck(id, c.start.signalled));
      case OnLeaveIntent(statsOk) => StatsWriteNoResult(c, statsOk);
      case OnRollbackStats(ok) => StatsWriteNoResult(c, ok);
      case MaybeSend(ok) => PutNoResult(c, ok, Intent(t, c, true));
      case ForceSend(statsOk, ok) =>
        StatsWriteNoResult(c, statsOk);
        PutNoResult(PutStats(c, statsOk), ok, Intent(t, PutStats(c, statsOk), false));
      case _ =>
    }
  }

  lemma StatsWriteNoResult(c: Control, ok: bool)
    ensures HasResult(PutStats(c, ok).trace) == HasResult(c.trace)
  {
    hide HasResult, Put;
    if StatsDue(c) {
      PutNoResult(c, true, RollbackStats(c.snapshot.value));
    }
  }
}
