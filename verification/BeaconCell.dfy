/** The cursor cell between the beacon reader task and the driver: two tasks, one
    shared map, one closed flag and one stored wakeup permit, interleaved step by
    step. The stream between the peer's writer and the reader is ordered and
    reliable (section 2.2 of RFC 9000). */
module BeaconCell {
  import opened Basics
  import opened Messages
  import opened BeaconCodec

  /** The reader: between frames, or owing the wakeup a fold or a close must be
      followed by, or ended. */
  datatype Reader = Reading | FoldedNotNotified | ClosedNotNotified | Ended

  /** The driver inside `recv`: about to take, about to look at the closed flag,
      about to take one last time, or parked on the permit. */
  datatype Driver = Idle | TakingFirst | Checking | TakingLast | Parked | Gone

  datatype System = System(
    stream: seq<seq<byte>>,   // every frame the peer wrote
    consumed: nat,            // how many of them the reader has read
    reader: Reader,
    driver: Driver,
    pending: map<SlotId, u64>,
    permit: bool,
    closed: bool,
    taken: seq<Cursor>,       // what `recv` has returned so far
    wentTerminal: bool)       // whether `recv` has returned None

  const Start := System([], 0, Reading, Idle, map[], false, false, [], false)

  datatype Action =
    | Write(frame: seq<byte>)     // the peer
    | ReadFrame | Notify | EndOfStream | NotifyClosed | NoticeOrphaned   // the reader
    | CallRecv | TakeSome(slot: SlotId) | FindNone | Check | Wake | Cancel | DropHandle   // the driver

  predicate Can(s: System, a: Action) {
    match a
    case Write(frame) => |frame| == BEACON_FRAME_LEN
    case ReadFrame => s.reader.Reading? && s.driver != Gone && s.consumed < |s.stream|
    case Notify => s.reader.FoldedNotNotified?
    case EndOfStream => s.reader.Reading? && s.driver != Gone
    case NotifyClosed => s.reader.ClosedNotNotified?
    case NoticeOrphaned => s.reader.Reading? && s.driver == Gone
    case CallRecv => s.driver.Idle?
    case TakeSome(slot) => (s.driver.TakingFirst? || s.driver.TakingLast?) && slot in s.pending
    case FindNone => (s.driver.TakingFirst? || s.driver.TakingLast?) && s.pending == map[]
    case Check => s.driver.Checking?
    case Wake => s.driver.Parked? && s.permit
    case Cancel => s.driver.Parked?
    case DropHandle => s.driver.Idle?
  }

  function Fold(pending: map<SlotId, u64>, c: Cursor): map<SlotId, u64> {
    if c.0 in pending && pending[c.0] >= c.1 then pending else pending[c.0 := c.1]
  }

  function Do(s: System, a: Action): System
    requires Can(s, a)
  {
    match a
    case Write(frame) => s.(stream := s.stream + [frame])
    case ReadFrame =>
      var s' := s.(consumed := s.consumed + 1);
      match DecodeFrame(s.stream[s.consumed]) {
        case Err(_) => s'
        case Ok(c) => s'.(pending := Fold(s.pending, c), reader := FoldedNotNotified)
      }
    case Notify => s.(permit := true, reader := Reading)
    case EndOfStream => s.(closed := true, reader := ClosedNotNotified)
    case NotifyClosed => s.(permit := true, reader := Ended)
    case NoticeOrphaned => s.(reader := Ended)
    case CallRecv => s.(driver := TakingFirst)
    case TakeSome(slot) =>
      s.(pending := s.pending - {slot}, taken := s.taken + [(slot, s.pending[slot])], driver := Idle)
    case FindNone =>
      if s.driver.TakingFirst? then s.(driver := Checking) else s.(driver := Idle, wentTerminal := true)
    case Check => s.(driver := if s.closed then TakingLast else Parked)
    case Wake => s.(permit := false, driver := TakingFirst)
    case Cancel => s.(driver := Idle)
    case DropHandle => s.(driver := Gone)
  }

  /** The actions of a run, each possible where it happens. */
  ghost predicate IsRun(run: seq<Action>)
    decreases |run|, 0
  {
    run != [] ==> IsRun(run[..|run| - 1]) && Can(After(run[..|run| - 1]), run[|run| - 1])
  }

  ghost function After(run: seq<Action>): System
    requires IsRun(run)
    decreases |run|, 1
  {
    if run == [] then Start else Do(After(run[..|run| - 1]), run[|run| - 1])
  }

  // The cell itself, as each side updates it.

  lemma RunExtends(run: seq<Action>, a: Action)
    requires IsRun(run) && Can(After(run), a)
    ensures IsRun(run + [a]) && After(run + [a]) == Do(After(run), a)
  {
    hide Can, Do;
    assert (run + [a])[..|run|] == run;
  }

  predicate LeavesCellAlone(a: Action) {
    a.Write? || a.NoticeOrphaned? || a.CallRecv? || a.Check? || a.Cancel? || a.DropHandle?
  }

  class CursorCell {
    var pending: map<SlotId, u64>
    var permit: bool
    var closed: bool
    ghost var system: System
    ghost var run: seq<Action>

    /** The system is where its run leads, and the cell is the system's. */
    ghost predicate Valid()
      reads this
    {
      && IsRun(run) && system == After(run)
      && pending == system.pending && permit == system.permit && closed == system.closed
    }

    constructor ()
      ensures Valid() && run == [] && system == Start
    {
      pending, permit, closed := map[], false, false;
      system, run := Start, [];
    }

    ghost method Step(a: Action)
      requires IsRun(run) && system == After(run) && Can(system, a)
      modifies this`system, this`run
      ensures IsRun(run) && system == After(run) && run == old(run) + [a] && system == Do(old(system), a)
    {
      hide Can, Do;
      RunExtends(run, a);
      system, run := Do(system, a), run + [a];
    }

    /** What the peer and the driver do without touching the cell. */
    ghost method Elsewhere(a: Action)
      requires Valid() && Can(system, a) && LeavesCellAlone(a)
      modifies this`system, this`run
      ensures Valid() && run == old(run) + [a]
    {
      hide IsRun, After;
      Step(a);
    }

    /** The reader merges the cursor it has read, never backwards, and then leaves a
        wakeup. */
    method FoldCursor(slot: SlotId, cursor: u64)
      requires Valid() && Can(system, ReadFrame) && DecodeFrame(system.stream[system.consumed]) == Ok((slot, cursor))
      modifies this
      ensures Valid() && run == old(run) + [ReadFrame, Notify]
      ensures permit && slot in pending && cursor <= pending[slot]
      ensures forall s | s in old(pending) :: s in pending && old(pending)[s] <= pending[s]
    {
      hide IsRun, After, DecodeFrame;
      if slot !in pending {
        pending := pending[slot := cursor];
      } else if pending[slot] < cursor {
        pending := pending[slot := cursor];
      }
      Step(ReadFrame);
      permit := true;
      Step(Action.Notify);
    }

    /** The driver takes some pending cursor, or finds none. */
    method TakePending() returns (entry: Option<Cursor>)
      requires Valid() && (system.driver.TakingFirst? || system.driver.TakingLast?)
      modifies this
      ensures Valid() && run == old(run) + [if entry.Some? then TakeSome(entry.value.0) else FindNone]
      ensures entry.None? <==> old(pending) == map[]
      ensures entry.Some? ==> entry.value in old(pending).Items && pending == old(pending) - {entry.value.0}
    {
      hide IsRun, After;
      if pending == map[] {
        Step(FindNone);
        return None;
      }
      var slot :| slot in pending;
      entry := Some((slot, pending[slot]));
      pending := pending - {slot};
      Step(TakeSome(slot));
    }

    /** A parked driver is woken and uses the wakeup up. */
    method Notified()
      requires Valid() && Can(system, Wake)
      modifies this
      ensures Valid() && run == old(run) + [Wake] && !permit
    {
      hide IsRun, After;
      permit := false;
      Step(Wake);
    }

    /** The reader's stream has ended: closed first, and then a wakeup. */
    method Close()
      requires Valid() && Can(system, EndOfStream)
      modifies this
      ensures Valid() && run == old(run) + [EndOfStream, NotifyClosed] && closed && permit
    {
      hide IsRun, After;
      closed := true;
      Step(EndOfStream);
      permit := true;
      Step(NotifyClosed);
    }
  }

  // What every interleaving keeps.

  /** The cursors the reader has folded in. */
  function Decoded(frames: seq<seq<byte>>): seq<Cursor> {
    if frames == [] then []
    else
      var front := Decoded(frames[..|frames| - 1]);
      match DecodeFrame(frames[|frames| - 1]) case Ok(c) => front + [c] case Err(_) => front
  }

  function Folded(s: System): seq<Cursor>
    requires s.consumed <= |s.stream|
  {
    Decoded(s.stream[..s.consumed])
  }

  /** Every folded cursor is pending or dominated by one already taken. */
  ghost predicate Covered(folded: seq<Cursor>, pending: map<SlotId, u64>, taken: seq<Cursor>) {
    forall i | 0 <= i < |folded| ::
      (folded[i].0 in pending && folded[i].1 <= pending[folded[i].0]) || Dominated(taken, folded[i])
  }

  ghost predicate Dominated(taken: seq<Cursor>, c: Cursor) {
    exists k | 0 <= k < |taken| :: taken[k].0 == c.0 && c.1 <= taken[k].1
  }

  /** Nothing is handed out that was not folded in. */
  ghost predicate Genuine(folded: seq<Cursor>, pending: map<SlotId, u64>, taken: seq<Cursor>) {
    && (forall slot | slot in pending :: (slot, pending[slot]) in folded)
    && (forall i | 0 <= i < |taken| :: taken[i] in folded)
  }

  /** A cursor a driver past its first take has not seen, or a close a parked one
      has not, is still to be announced. */
  ghost predicate Announced(s: System) {
    && ((s.driver.Checking? || s.driver.Parked?) && s.pending != map[] ==> s.permit || s.reader.FoldedNotNotified?)
    && (s.driver.Parked? && s.closed ==> s.permit || s.reader.ClosedNotNotified?)
  }

  ghost predicate Ending(s: System) {
    && (s.closed ==> s.reader.ClosedNotNotified? || s.reader.Ended?)
    && (s.reader.ClosedNotNotified? ==> s.closed)
    && (s.reader.Ended? ==> s.closed || s.driver.Gone?)
    && (s.driver.TakingLast? ==> s.closed)
    && (s.wentTerminal ==> s.closed && s.pending == map[])
  }

  ghost predicate Inv(s: System) {
    && s.consumed <= |s.stream|
    && Announced(s)
    && Ending(s)
    && Covered(Folded(s), s.pending, s.taken)
    && Genuine(Folded(s), s.pending, s.taken)
  }

  lemma FoldKeeps(folded: seq<Cursor>, pending: map<SlotId, u64>, taken: seq<Cursor>, c: Cursor)
    requires Covered(folded, pending, taken) && Genuine(folded, pending, taken)
    ensures Covered(folded + [c], Fold(pending, c), taken) && Genuine(folded + [c], Fold(pending, c), taken)
  {
    assert (folded + [c])[|folded|] == c;
    assert forall x | x in folded :: x in folded + [c];
  }

  lemma TakeKeeps(folded: seq<Cursor>, pending: map<SlotId, u64>, taken: seq<Cursor>, slot: SlotId)
    requires Covered(folded, pending, taken) && Genuine(folded, pending, taken) && slot in pending
    ensures var taken' := taken + [(slot, pending[slot])];
            Covered(folded, pending - {slot}, taken') && Genuine(folded, pending - {slot}, taken')
  {
    var taken' := taken + [(slot, pending[slot])];
    assert taken'[|taken|] == (slot, pending[slot]);
    forall i | 0 <= i < |folded|
      ensures (folded[i].0 in pending - {slot} && folded[i].1 <= pending[folded[i].0]) || Dominated(taken', folded[i])
    {
      if Dominated(taken, folded[i]) {
        var k :| 0 <= k < |taken| && taken[k].0 == folded[i].0 && folded[i].1 <= taken[k].1;
        assert taken'[k] == taken[k];
      }
    }
  }

  lemma StepKeeps(s: System, a: Action)
    requires Inv(s) && Can(s, a)
    ensures Inv(Do(s, a))
  {
    hide Covered, Genuine, DecodeFrame, Decoded, Fold;
    var s' := Do(s, a);
    match a {
      case Write(frame) =>
        assert s'.stream[..s.consumed] == s.stream[..s.consumed];
      case ReadFrame => ReadKeeps(s);
      case TakeSome(slot) =>
        TakeKeeps(Folded(s), s.pending, s.taken, slot);
      case _ =>
    }
  }

  lemma ReadKeeps(s: System)
    requires Inv(s) && Can(s, ReadFrame)
    ensures Inv(Do(s, ReadFrame))
  {
    hide Covered, Genuine, DecodeFrame, Fold;
    assert s.stream[..s.consumed + 1][..s.consumed] == s.stream[..s.consumed];
    if DecodeFrame(s.stream[s.consumed]).Ok? {
      FoldKeeps(Folded(s), s.pending, s.taken, DecodeFrame(s.stream[s.consumed]).value);
    }
  }

  lemma {:induction false} RunsKeep(run: seq<Action>)
    requires IsRun(run)
    ensures Inv(After(run))
  {
    if run != [] {
      RunsKeep(run[..|run| - 1]);
      StepKeeps(After(run[..|run| - 1]), run[|run| - 1]);
    }
  }

  // What that means for the driver.

  /** No wakeup is lost: a driver parked without a permit, with the reader at
      rest, has nothing to take and nothing to learn. */
  lemma NoLostWakeup(run: seq<Action>)
    requires IsRun(run)
    ensures var s := After(run);
            s.driver.Parked? && !s.permit && (s.reader.Reading? || s.reader.Ended?) ==> s.pending == map[] && !s.closed
  {
    RunsKeep(run);
  }

  /** Each slot's newest cursor survives however slowly the driver drains. */
  lemma NewestSurvives(run: seq<Action>, i: nat)
    requires IsRun(run)
    requires After(run).consumed <= |After(run).stream| && i < |Folded(After(run))|
    ensures var s := After(run);
            var c := Folded(s)[i];
            (c.0 in s.pending && c.1 <= s.pending[c.0]) || Dominated(s.taken, c)
  {
    RunsKeep(run);
  }

  /** `recv` goes terminal only once the reader has ended, and by then every
      cursor it ever folded in has been handed out or superseded. */
  lemma TerminalMeansDrained(run: seq<Action>)
    requires IsRun(run) && After(run).wentTerminal
    ensures var s := After(run);
            && s.closed && !s.reader.Reading? && !s.reader.FoldedNotNotified? && s.pending == map[]
            && s.consumed <= |s.stream|
            && forall i | 0 <= i < |Folded(s)| :: Dominated(s.taken, Folded(s)[i])
  {
    RunsKeep(run);
  }

  predicate OfDriver(a: Action) {
    a.TakeSome? || a.FindNone? || a.Check? || a.Wake?
  }

  /** How many steps a call that has something to report still has before it
      returns. */
  function Rank(s: System): nat {
    match s.driver
    case Parked => if s.pending != map[] then 2 else 4
    case TakingFirst => if s.pending != map[] then 1 else 3
    case Checking => if s.closed then 2 else 3
    case TakingLast => 1
    case _ => 0
  }

  /** A `recv` in progress has a cursor or the end to report, and the reader owes
      no wakeup. */
  predicate HasNews(s: System) {
    && !s.driver.Idle? && !s.driver.Gone? && (s.reader.Reading? || s.reader.Ended?)
    && (s.pending != map[] || s.closed)
  }

  /** The call has returned: with a cursor more, or for good. */
  predicate Reported(before: System, s: System) {
    s.driver.Idle? && (|s.taken| == |before.taken| + 1 || s.wentTerminal)
  }

  /** With the reader at rest, a `recv` that has something to report can take a
      step, and every step it can take brings its return closer or is its return,
      with something to report until then. */
  lemma DriverMakesProgress(run: seq<Action>)
    requires IsRun(run) && HasNews(After(run))
    ensures exists a :: OfDriver(a) && Can(After(run), a)
    ensures forall a | OfDriver(a) && Can(After(run), a) ::
              var s, s' := After(run), Do(After(run), a);
              && Rank(s') < Rank(s)
              && (Reported(s, s') || (HasNews(s') && s'.taken == s.taken))
  {
    hide After, IsRun;
    RunsKeep(run);
    NewsMoves(After(run));
  }

  lemma NewsMoves(s: System)
    requires Inv(s) && HasNews(s)
    ensures exists a :: OfDriver(a) && Can(s, a)
    ensures forall a | OfDriver(a) && Can(s, a) ::
              var s' := Do(s, a);
              Rank(s') < Rank(s) && (Reported(s, s') || (HasNews(s') && s'.taken == s.taken))
  {
    hide Covered, Genuine;
    if s.driver.Parked? {
      assert Can(s, Wake);
    } else if s.driver.Checking? {
      assert Can(s, Check);
    } else if s.pending == map[] {
      assert Can(s, FindNone);
    } else {
      var slot :| slot in s.pending;
      assert Can(s, TakeSome(slot));
    }
  }

  /** Steps of the driver alone, each possible where it happens. */
  predicate Driven(s: System, steps: seq<Action>)
    decreases |steps|
  {
    steps != [] ==> OfDriver(steps[0]) && Can(s, steps[0]) && Driven(Do(s, steps[0]), steps[1..])
  }

  function Drive(s: System, steps: seq<Action>): System
    requires Driven(s, steps)
    decreases |steps|
  {
    if steps == [] then s else Drive(Do(s, steps[0]), steps[1..])
  }

  /** So whatever the driver does on its own, it takes at most four steps, and it
      can take another until the call has returned. */
  lemma RecvReturns(run: seq<Action>, steps: seq<Action>)
    requires IsRun(run) && HasNews(After(run)) && Driven(After(run), steps)
    ensures |steps| <= 4
    ensures var s := Drive(After(run), steps);
            Reported(After(run), s) || exists a :: OfDriver(a) && Can(s, a)
  {
    hide IsRun, After, Inv, Driven, Drive, Can;
    RunsKeep(run);
    DrivenReturns(After(run), steps);
  }

  lemma {:induction false} DrivenReturns(s: System, steps: seq<Action>)
    requires Inv(s) && HasNews(s) && Driven(s, steps)
    ensures |steps| <= Rank(s)
    ensures var s' := Drive(s, steps);
            Reported(s, s') || exists a :: OfDriver(a) && Can(s', a)
    decreases |steps|
  {
    hide Inv, HasNews, Do, Can;
    NewsMoves(s);
    if steps != [] {
      var s' := Do(s, steps[0]);
      if Reported(s, s') {
        IdleIsDone(s', steps[1..]);
      } else {
        StepKeeps(s, steps[0]);
        DrivenReturns(s', steps[1..]);
      }
    }
  }

  lemma IdleIsDone(s: System, steps: seq<Action>)
    requires s.driver.Idle? && Driven(s, steps)
    ensures steps == []
  {
  }

  // End to end with the peer's writer.

  lemma {:induction false} DecodedOfEncoded(cursors: seq<Cursor>)
    ensures Decoded(seq(|cursors|, i requires 0 <= i < |cursors| => EncodeFrame(cursors[i]))) == cursors
  {
    if cursors != [] {
      var front := cursors[..|cursors| - 1];
      var frames := seq(|cursors|, i requires 0 <= i < |cursors| => EncodeFrame(cursors[i]));
      DecodedOfEncoded(front);
      assert frames[..|front|] == seq(|front|, i requires 0 <= i < |front| => EncodeFrame(front[i]));
      FrameRoundTrips(cursors[|front|]);
    }
  }

  /** Once the reader has read everything a push-on-advance writer wrote and the
      driver has drained the cell, the newest cursor of every slot is among those
      the driver was given. */
  lemma LastCursorArrives(run: seq<Action>, written: seq<Cursor>, last: map<SlotId, u64>, slot: SlotId)
    requires IsRun(run)
    requires Climbs(written) && Summarizes(last, written) && slot in last
    requires var s := After(run);
             && s.stream == seq(|written|, i requires 0 <= i < |written| => EncodeFrame(written[i]))
             && s.consumed == |s.stream| && s.pending == map[]
    ensures (slot, last[slot]) in After(run).taken
  {
    hide IsRun, After, Inv, EncodeFrame, Decoded, Climbs;
    RunsKeep(run);
    DecodedOfEncoded(written);
    assert After(run).stream[..|After(run).stream|] == After(run).stream;
    InvDrains(After(run));
    DrainedIsNewest(written, After(run).taken, last, slot);
  }

  lemma InvDrains(s: System)
    requires Inv(s)
    ensures s.consumed <= |s.stream|
    ensures Covered(Folded(s), s.pending, s.taken) && Genuine(Folded(s), s.pending, s.taken)
  {
    hide Announced, Ending, Covered, Genuine, Folded;
  }

  lemma DrainedIsNewest(written: seq<Cursor>, taken: seq<Cursor>, last: map<SlotId, u64>, slot: SlotId)
    requires Covered(written, map[], taken) && Genuine(written, map[], taken)
    requires Summarizes(last, written) && slot in last
    ensures (slot, last[slot]) in taken
  {
    hide Covered, Genuine, Summarizes;
    NewestIsDominated(written, taken, last, slot);
    var k :| 0 <= k < |taken| && taken[k].0 == slot && last[slot] <= taken[k].1;
    TakenIsNoNewer(written, taken, last, k);
  }

  lemma NewestIsDominated(written: seq<Cursor>, taken: seq<Cursor>, last: map<SlotId, u64>, slot: SlotId)
    requires Covered(written, map[], taken) && Summarizes(last, written) && slot in last
    ensures Dominated(taken, (slot, last[slot]))
  {
    hide Dominated;
  }

  lemma TakenIsNoNewer(written: seq<Cursor>, taken: seq<Cursor>, last: map<SlotId, u64>, k: nat)
    requires Genuine(written, map[], taken) && Summarizes(last, written) && k < |taken|
    ensures taken[k].0 in last && taken[k].1 <= last[taken[k].0]
  {
    assert taken[k] in written;
  }
}
