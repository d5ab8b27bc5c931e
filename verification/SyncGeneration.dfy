/** Tagging a staged checksum with the generation its buffer was staged under,
    from nothing but a 16-slot native ring index. */
module SyncGeneration {
  import opened Basics
  import opened Commands
  import opened Messages
  import Validation

  const RING_SIZE: nat := 16
  const SYNC_COMMAND: byte := 0x37
  const SYNC_COMMAND_LEN: nat := 7
  const INVALID_GENERATION: u64 := U64_MAX

  /** What the game thread reports: one native recording, or one outgoing flush. */
  datatype Event =
    | Record(before: byte, after: byte)
    | Flush(commands: seq<byte>, ring: byte)

  /** What the first checksum of a turn says about itself. */
  datatype Scan = NoSync | Sync(ring: nat) | BadFraming

  function ScanTurn(bytes: seq<byte>): Scan
    decreases |bytes|
  {
    if bytes == [] then NoSync
    else match DeclaredLength(bytes)
      case None => BadFraming
      case Some(n) =>
        if n > |bytes| then BadFraming
        else if bytes[0] == SYNC_COMMAND && n == SYNC_COMMAND_LEN then Sync(bytes[1] / 16)
        else ScanTurn(bytes[n..])
  }

  // The reference: what the events say, read off the whole log.

  function ObservedRing(e: Event): byte {
    match e case Record(before, _) => before case Flush(_, ring) => ring
  }

  ghost function Recordings(log: seq<Event>): nat {
    if log == [] then 0
    else Recordings(log[..|log| - 1]) + if log[|log| - 1].Record? then 1 else 0
  }

  /** The true native generation when `e` happens after `log`: the ring index
      first observed, plus one per recording since. */
  ghost function GenerationAt(log: seq<Event>, e: Event): nat {
    if log == [] then ObservedRing(e) else ObservedRing(log[0]) + Recordings(log)
  }

  /** The generation the buffer now being flushed was staged under: the one
      current at the previous flush, or now if there was none. */
  ghost function StagedAt(log: seq<Event>, e: Event): nat {
    match LastStaged(log) case Some(g) => g case None => GenerationAt(log, e)
  }

  ghost function LastStaged(log: seq<Event>): Option<nat> {
    if log == [] then None
    else
      var before, e := log[..|log| - 1], log[|log| - 1];
      if e.Flush? then Some(GenerationAt(before, e)) else LastStaged(before)
  }

  /** Whether `e` agrees with a ring that advances by one per recording. */
  ghost predicate Agrees(log: seq<Event>, e: Event) {
    && ObservedRing(e) < RING_SIZE
    && ObservedRing(e) == GenerationAt(log, e) % RING_SIZE
    && match e
       case Record(before, after) =>
         after == (before + 1) % RING_SIZE && GenerationAt(log, e) + 1 < INVALID_GENERATION
       case Flush(commands, _) =>
         match ScanTurn(commands)
         case NoSync => true
         case Sync(ring) => ring == StagedAt(log, e) % RING_SIZE
         case BadFraming => false
  }

  ghost predicate Consistent(log: seq<Event>) {
    log != [] ==> Consistent(log[..|log| - 1]) && Agrees(log[..|log| - 1], log[|log| - 1])
  }

  /** The tag a flush must carry: none without a checksum, otherwise the staged
      generation for as long as everything observed is consistent. */
  ghost function ExpectedTag(log: seq<Event>, e: Event): Option<nat>
    requires e.Flush?
  {
    if ScanTurn(e.commands).NoSync? then None
    else if Consistent(log + [e]) then Some(StagedAt(log, e))
    else Some(INVALID_GENERATION)
  }

  class SyncGenerationTracker {
    var nativeGeneration: Option<u64>
    var stagedGeneration: Option<u64>
    var failed: bool
    ghost var log: seq<Event>

    ghost predicate Valid()
      reads this
    {
      && failed == !Consistent(log)
      && (Consistent(log) ==>
            && stagedGeneration == LastStaged(log)
            && if log == [] then nativeGeneration == None
               else nativeGeneration == Some(ObservedRing(log[0]) + Recordings(log)))
    }

    constructor ()
      ensures Valid() && log == []
    {
      nativeGeneration, stagedGeneration, failed := None, None, false;
      log := [];
    }

    method ObserveNativeRing(ring: byte, ghost e: Event) returns (generation: Option<u64>)
      requires Valid() && ObservedRing(e) == ring
      modifies this`nativeGeneration, this`failed
      ensures failed == (old(failed) || ring >= RING_SIZE || ring != GenerationAt(log, e) % RING_SIZE)
      ensures failed ==> generation.None?
      ensures !failed ==> generation == nativeGeneration == Some(GenerationAt(log, e))
    {
      if failed {
        return None;
      }
      if ring >= RING_SIZE {
        failed := true;
        return None;
      }
      if nativeGeneration.None? {
        nativeGeneration := Some(ring);
      }
      if nativeGeneration.value % RING_SIZE != ring {
        failed := true;
        return None;
      }
      return nativeGeneration;
    }

    method RecordSyncSlot(before: byte, after: byte)
      requires Valid()
      modifies this
      ensures Valid() && log == old(log) + [Record(before, after)]
    {
      ghost var e := Record(before, after);
      LogAppend(log, e);
      var previous := ObserveNativeRing(before, e);
      if previous.Some? {
        if after != (before + 1) % RING_SIZE {
          failed := true;
        } else if previous.value == U64_MAX || previous.value + 1 == INVALID_GENERATION {
          failed := true;
        } else {
          nativeGeneration := Some(previous.value + 1);
        }
      }
      log := log + [e];
    }

    /** The tag of every flush of every run: the generation current when the
        buffer was staged, or invalid from the first inconsistency on. */
    method StampTurn(commands: seq<byte>, nativeRing: byte) returns (tag: Option<u64>)
      requires Valid()
      modifies this
      ensures Valid() && log == old(log) + [Flush(commands, nativeRing)]
      ensures tag == ExpectedTag(old(log), Flush(commands, nativeRing))
    {
      hide Consistent, LastStaged, Recordings, GenerationAt, DeclaredLength;
      ghost var e := Flush(commands, nativeRing);
      LogAppend(log, e);
      ghost var before := log;
      var current := ObserveNativeRing(nativeRing, e);
      var staged := if stagedGeneration.Some? then stagedGeneration else current;
      assert !failed ==> staged == Some(StagedAt(before, e));
      stagedGeneration := current;
      log := log + [e];
      var remaining := commands;
      while remaining != []
        invariant ScanTurn(remaining) == ScanTurn(commands)
        decreases |remaining|
      {
        var length := DeclaredLength(remaining);
        if length.None? || length.value > |remaining| {
          failed := true;
          return Some(INVALID_GENERATION);
        }
        if remaining[0] == SYNC_COMMAND && length.value == SYNC_COMMAND_LEN {
          var ring := remaining[1] / 16;
          if failed || staged.None? || staged.value % RING_SIZE != ring {
            failed := true;
            return Some(INVALID_GENERATION);
          }
          return staged;
        }
        remaining := remaining[length.value..];
      }
      return None;
    }
  }

  lemma LogAppend(log: seq<Event>, e: Event)
    ensures Consistent(log + [e]) == (Consistent(log) && Agrees(log, e))
    ensures LastStaged(log + [e]) == if e.Flush? then Some(GenerationAt(log, e)) else LastStaged(log)
    ensures ObservedRing((log + [e])[0]) + Recordings(log + [e])
            == GenerationAt(log, e) + if e.Record? then 1 else 0
  {
    assert (log + [e])[..|log|] == log;
  }

  // What the tags of a run say to each other.

  /** Inconsistency is for good. */
  lemma {:induction false} ConsistencyIsPrefixClosed(log: seq<Event>, k: nat)
    requires k <= |log| && Consistent(log)
    ensures Consistent(log[..k])
  {
    if k < |log| {
      var front := log[..|log| - 1];
      ConsistencyIsPrefixClosed(front, k);
      assert front[..k] == log[..k];
    } else {
      assert log[..k] == log;
    }
  }

  /** The generation only grows along a log. */
  lemma GenerationGrows(log: seq<Event>, e: Event, k: nat)
    requires k < |log|
    ensures GenerationAt(log[..k], log[k]) <= GenerationAt(log, e)
  {
    RecordingsGrow(log, k);
  }

  lemma {:induction false} RecordingsGrow(log: seq<Event>, k: nat)
    requires k <= |log|
    ensures Recordings(log[..k]) <= Recordings(log)
  {
    if k < |log| {
      RecordingsGrow(log[..|log| - 1], k);
      assert log[..|log| - 1][..k] == log[..k];
    } else {
      assert log[..k] == log;
    }
  }

  /** The staged generation of a flush is at most the one current at it, and at
      least the one current at every earlier flush. */
  lemma {:induction false} StagedBounds(log: seq<Event>, e: Event)
    ensures StagedAt(log, e) <= GenerationAt(log, e)
    ensures forall k :: 0 <= k < |log| && log[k].Flush? ==> GenerationAt(log[..k], log[k]) <= StagedAt(log, e)
  {
    if log != [] {
      var front, last := log[..|log| - 1], log[|log| - 1];
      assert StagedAt(log, e) == if last.Flush? then GenerationAt(front, last)
                                 else if LastStaged(front).Some? then LastStaged(front).value
                                 else GenerationAt(log, e);
      StagedBounds(front, last);
      GenerationGrows(log, e, |log| - 1);
      forall k | 0 <= k < |log| && log[k].Flush?
        ensures GenerationAt(log[..k], log[k]) <= StagedAt(log, e)
      {
        if k < |front| {
          assert front[..k] == log[..k];
          GenerationGrows(front, last, k);
          GenerationGrows(log, e, k);
        }
      }
    }
  }

  lemma TagIsStaged(log: seq<Event>, i: nat)
    requires i < |log| && log[i].Flush? && Consistent(log)
    requires !ScanTurn(log[i].commands).NoSync?
    ensures ExpectedTag(log[..i], log[i]) == Some(StagedAt(log[..i], log[i]))
  {
    hide ScanTurn, Agrees;
    ConsistencyIsPrefixClosed(log, i + 1);
    assert log[..i + 1] == log[..i] + [log[i]];
  }

  lemma {:induction false} LastStagedCounts(log: seq<Event>, p: nat)
    requires p < |log| && log[p].Flush? && forall k | p < k < |log| :: log[k].Record?
    ensures LastStaged(log) == Some(ObservedRing(log[0]) + Recordings(log[..p]))
  {
    var front := log[..|log| - 1];
    if p < |front| {
      LastStagedCounts(front, p);
      assert front[..p] == log[..p];
    }
  }

  lemma {:induction false} NothingStagedYet(log: seq<Event>)
    requires forall k | 0 <= k < |log| :: log[k].Record?
    ensures LastStaged(log) == None
  {
    if log != [] {
      NothingStagedYet(log[..|log| - 1]);
    }
  }

  /** Flush `p` is where flush `j`'s buffer was staged: the flush before it, or itself
      if it is the first. */
  ghost predicate IsStagingPoint(log: seq<Event>, p: int, j: int) {
    && 0 <= p <= j < |log| && log[p].Flush? && (forall k | p < k < j :: log[k].Record?)
    && (p == j ==> forall k | 0 <= k < j :: log[k].Record?)
  }

  /** The i-th event fits a 16-slot ring that moves by one per recording, and a
      checksum names the slot of its buffer's staging. */
  ghost predicate Fits(log: seq<Event>, i: int)
    requires 0 <= i < |log|
  {
    var first := ObservedRing(log[0]);
    var generation := first + Recordings(log[..i]);
    match log[i]
    case Record(before, after) =>
      before < 16 && before == generation % 16 && after == (before + 1) % 16 && generation + 1 < 0xFFFF_FFFF_FFFF_FFFF
    case Flush(commands, ring) =>
      && ring < 16 && ring == generation % 16 && !ScanTurn(commands).BadFraming?
      && (ScanTurn(commands).Sync? ==>
            forall p | IsStagingPoint(log, p, i) :: ScanTurn(commands).ring == (first + Recordings(log[..p])) % 16)
  }

  lemma {:induction false} FindStagingPoint(log: seq<Event>, j: nat, n: nat) returns (p: nat)
    requires n <= j < |log| && log[j].Flush? && forall k | n <= k < j :: log[k].Record?
    ensures IsStagingPoint(log, p, j)
    decreases n
  {
    if n == 0 {
      p := j;
    } else if log[n - 1].Flush? {
      p := n - 1;
    } else {
      p := FindStagingPoint(log, j, n - 1);
    }
  }

  lemma StagedCounts(log: seq<Event>, p: nat, j: nat)
    requires IsStagingPoint(log, p, j)
    ensures StagedAt(log[..j], log[j]) == ObservedRing(log[0]) + Recordings(log[..p])
  {
    var before := log[..j];
    if p < j {
      LastStagedCounts(before, p);
      assert before[..p] == log[..p];
    } else {
      NothingStagedYet(before);
    }
  }

  lemma AgreesIfFits(log: seq<Event>, i: nat)
    requires i < |log|
    ensures Agrees(log[..i], log[i]) <==> Fits(log, i)
  {
    hide ScanTurn, StagedAt, Recordings;
    assert GenerationAt(log[..i], log[i]) == ObservedRing(log[0]) + Recordings(log[..i]) by {
      assert i == 0 ==> Recordings(log[..i]) == 0 by { NoRecordings(log[..i]); }
    }
    if log[i].Flush? {
      var p := FindStagingPoint(log, i, i);
      forall q: nat | q <= i && IsStagingPoint(log, q, i)
        ensures StagedAt(log[..i], log[i]) == ObservedRing(log[0]) + Recordings(log[..q])
      {
        StagedCounts(log, q, i);
      }
      StagedCounts(log, p, i);
    }
  }

  lemma NoRecordings(log: seq<Event>)
    ensures log == [] ==> Recordings(log) == 0
  {
  }

  /** A run is consistent exactly when every event fits. */
  lemma {:induction false} ConsistentExactly(log: seq<Event>)
    ensures Consistent(log) <==> forall i | 0 <= i < |log| :: Fits(log, i)
  {
    if log != [] {
      var front, last := log[..|log| - 1], |log| - 1;
      hide Agrees, Fits;
      ConsistentExactly(front);
      AgreesIfFits(log, last);
      forall i | 0 <= i < last ensures Fits(log, i) == Fits(front, i) {
        assert front[..i] == log[..i];
        AgreesIfFits(log, i);
        AgreesIfFits(front, i);
      }
    }
  }

  /** A tag counts: it is the ring index first observed, plus one for every recording
      before the previous flush, or before this flush if it is the first. */
  lemma TagCountsRecordings(log: seq<Event>, p: nat, j: nat)
    requires IsStagingPoint(log, p, j) && log[j].Flush? && Consistent(log)
    requires !ScanTurn(log[j].commands).NoSync?
    ensures ExpectedTag(log[..j], log[j]) == Some(ObservedRing(log[0]) + Recordings(log[..p]))
  {
    hide ScanTurn, Consistent, StagedAt;
    TagIsStaged(log, j);
    StagedCounts(log, p, j);
  }

  /** In a consistent run the tags never decrease, whatever number of recordings
      falls between two flushes, and none is the invalid one. */
  lemma TagsNeverDecrease(log: seq<Event>, i: nat, j: nat)
    requires i < j < |log| && log[i].Flush? && log[j].Flush? && Consistent(log)
    requires !ScanTurn(log[i].commands).NoSync? && !ScanTurn(log[j].commands).NoSync?
    ensures ExpectedTag(log[..i], log[i]).value <= ExpectedTag(log[..j], log[j]).value < INVALID_GENERATION
  {
    TagIsStaged(log, i);
    TagIsStaged(log, j);
    StagedGrowsAlong(log, i, j);
  }

  lemma StagedGrowsAlong(log: seq<Event>, i: nat, j: nat)
    requires i < j < |log| && log[i].Flush? && Consistent(log)
    ensures StagedAt(log[..i], log[i]) <= StagedAt(log[..j], log[j]) < INVALID_GENERATION
  {
    ConsistencyIsPrefixClosed(log, j);
    ConsistencyIsPrefixClosed(log, j + 1);
    assert log[..j + 1][..j] == log[..j];
    assert log[..j][..i] == log[..i];
    StagedGrows(log[..j], i, log[j]);
  }

  lemma StagedGrows(log: seq<Event>, i: nat, e: Event)
    requires i < |log| && log[i].Flush?
    requires Consistent(log) && ObservedRing(e) < RING_SIZE
    ensures StagedAt(log[..i], log[i]) <= StagedAt(log, e) < INVALID_GENERATION
  {
    StagedBounds(log[..i], log[i]);
    StagedBounds(log, e);
    GenerationIsBounded(log, e);
  }

  /** After any inconsistency every checksum turn is tagged invalid. */
  lemma FailureIsForGood(log: seq<Event>, i: nat, e: Event)
    requires i <= |log| && !Consistent(log[..i])
    requires e.Flush? && !ScanTurn(e.commands).NoSync?
    ensures ExpectedTag(log, e) == Some(INVALID_GENERATION)
  {
    LogAppend(log, e);
    if Consistent(log) {
      ConsistencyIsPrefixClosed(log, i);
    }
  }

  /** A consistent run never reaches the invalid generation. */
  lemma {:induction false} GenerationIsBounded(log: seq<Event>, e: Event)
    requires Consistent(log) && ObservedRing(e) < RING_SIZE
    ensures GenerationAt(log, e) < INVALID_GENERATION
  {
    if log != [] {
      var front, last := log[..|log| - 1], log[|log| - 1];
      GenerationIsBounded(front, last);
      LogAppend(front, last);
      assert log == front + [last];
    }
  }

  // The tagger against the relay's validator.

  predicate IsSync(c: seq<byte>) {
    c != [] && c[0] == SYNC_COMMAND
  }

  /** Where the first checksum command of a list stands. */
  ghost predicate FirstSyncAt(cmds: seq<seq<byte>>, i: int) {
    && 0 <= i < |cmds| && IsSync(cmds[i])
    && forall j | 0 <= j < i :: !IsSync(cmds[j])
  }

  lemma SyncCommandShape(c: seq<byte>)
    requires IsCommand(c) && IsSync(c)
    ensures |c| == SYNC_COMMAND_LEN && !Validation.IsStripped(c)
  {
    assert FixedLength(SYNC_COMMAND) == SYNC_COMMAND_LEN;
  }

  /** On a turn that divides into commands the tagger's walk never fails, and
      reads the ring of exactly the first checksum command. */
  lemma {:induction false} ScanReadsFirstSync(cmds: seq<seq<byte>>)
    requires forall i | 0 <= i < |cmds| :: IsCommand(cmds[i])
    ensures !ScanTurn(Concat(cmds)).BadFraming?
    ensures ScanTurn(Concat(cmds)).NoSync? <==> forall i | 0 <= i < |cmds| :: !IsSync(cmds[i])
    ensures forall i | FirstSyncAt(cmds, i) ::
              |cmds[i]| == SYNC_COMMAND_LEN && ScanTurn(Concat(cmds)) == Sync(cmds[i][1] / 16)
  {
    if cmds != [] {
      var c, rest := cmds[0], cmds[1..];
      CommandIsPrefixDetermined(c, Concat(rest));
      assert Concat(cmds)[|c|..] == Concat(rest);
      ScanReadsFirstSync(rest);
      if IsSync(c) {
        SyncCommandShape(c);
        assert FirstSyncAt(cmds, 0);
      } else {
        assert forall i | 0 < i < |cmds| :: cmds[i] == rest[i - 1];
        forall i | FirstSyncAt(cmds, i)
          ensures |cmds[i]| == SYNC_COMMAND_LEN && ScanTurn(Concat(cmds)) == Sync(cmds[i][1] / 16)
        {
          assert FirstSyncAt(rest, i - 1);
        }
      }
    }
  }

  /** Stripping changes nothing the tagger reads. */
  lemma {:induction false} StrippingKeepsScan(cmds: seq<seq<byte>>)
    requires forall i | 0 <= i < |cmds| :: IsCommand(cmds[i])
    ensures ScanTurn(Concat(Validation.Kept(cmds))) == ScanTurn(Concat(cmds))
  {
    if cmds != [] {
      var c, rest := cmds[0], cmds[1..];
      StrippingKeepsScan(rest);
      CommandIsPrefixDetermined(c, Concat(rest));
      assert Concat(cmds)[|c|..] == Concat(rest);
      if IsSync(c) {
        SyncCommandShape(c);
      }
      if !Validation.IsStripped(c) {
        var kept := Validation.Kept(rest);
        CommandIsPrefixDetermined(c, Concat(kept));
        assert Validation.Kept(cmds)[1..] == kept;
        assert Concat(Validation.Kept(cmds))[|c|..] == Concat(kept);
      }
    }
  }

  /** For every turn the relay accepts, the client's walk succeeds, the checksum
      it reads is the first one of the forwarded turn, and it finds none exactly
      when the forwarded turn has none. */
  lemma TaggerAgreesWithRelay(payload: Payload, slot: byte, cmds: seq<seq<byte>>)
    requires Splits(payload.commands, cmds)
    ensures var scan, kept := ScanTurn(payload.commands), Validation.Kept(cmds);
            && !scan.BadFraming?
            && scan == ScanTurn(Validation.Sanitized(payload, slot, cmds).payload.commands)
            && (scan.NoSync? <==> forall i | 0 <= i < |kept| :: !IsSync(kept[i]))
            && (forall i | FirstSyncAt(kept, i) ::
                  |kept[i]| == SYNC_COMMAND_LEN && scan == Sync(kept[i][1] / 16))
  {
    Validation.KeptIsFixpoint(cmds);
    ScanReadsFirstSync(cmds);
    ScanReadsFirstSync(Validation.Kept(cmds));
    StrippingKeepsScan(cmds);
  }
}
