/** The fixed-size ring keyed by sequence number, against a map. */
module SequenceRing {
  import opened Basics
  import opened Arithmetic

  const SIGN_BIT: nat := 0x8000_0000_0000_0000

  datatype Op<T> = Insert(seqNo: nat, value: T) | Remove(seqNo: nat)

  /** The next free sequence number: one past the highest ever inserted. */
  ghost function Next<T>(log: seq<Op<T>>): nat {
    if log == [] then 0
    else
      var before, op := Next(log[..|log| - 1]), log[|log| - 1];
      if op.Insert? then Max(before, op.seqNo + 1) else before
  }

  /** An insert is refused when it is one capacity or more behind. */
  ghost predicate Accepts<T>(log: seq<Op<T>>, capacity: nat, seqNo: nat) {
    seqNo >= Next(log) || Next(log) - seqNo < capacity
  }

  /** An insert so far ahead that it turns the whole ring over. */
  ghost predicate Rotates<T>(log: seq<Op<T>>, capacity: nat, seqNo: nat) {
    seqNo >= Next(log) + capacity
  }

  /** What an accepted insert clears: its own position, or everything. */
  ghost predicate Clears<T>(log: seq<Op<T>>, capacity: nat, op: Op<T>, seqNo: nat)
    requires capacity > 0
  {
    match op
    case Remove(r) => r == seqNo
    case Insert(s, _) =>
      Accepts(log, capacity, s) && (Rotates(log, capacity, s) || s % capacity == seqNo % capacity)
  }

  /** The map the ring stands for. */
  ghost function Content<T>(log: seq<Op<T>>, capacity: nat): map<nat, T>
    requires capacity > 0
  {
    if log == [] then map[]
    else
      var before, op := log[..|log| - 1], log[|log| - 1];
      var kept := map s | s in Content(before, capacity) && !Clears(before, capacity, op, s) ::
                    Content(before, capacity)[s];
      if op.Insert? && Accepts(before, capacity, op.seqNo) then kept[op.seqNo := op.value] else kept
  }

  class SequenceBuffer<T(0)> {
    const entries: array<T>
    const entrySequences: array<int>
    const blank: T
    var sequence: nat
    ghost var log: seq<Op<T>>

    ghost predicate Valid()
      reads this, entries, entrySequences
    {
      && entries.Length == entrySequences.Length > 0
      && entries as object != entrySequences
      && sequence == Next(log)
      && HoldsExactly(Content(log, entries.Length))
    }

    /** The two arrays hold `content` and nothing else. */
    ghost predicate HoldsExactly(content: map<nat, T>)
      reads this, entries, entrySequences
      requires entries.Length == entrySequences.Length > 0
    {
      && (forall s | s in content ::
            entrySequences[s % entries.Length] == s && entries[s % entries.Length] == content[s])
      && (forall i | 0 <= i < entries.Length ::
            entrySequences[i] == -1
            || (entrySequences[i] >= 0 && entrySequences[i] % entries.Length == i && entrySequences[i] in content))
    }

    constructor (capacity: nat, blank: T)
      requires capacity > 0
      ensures Valid() && log == [] && entries.Length == capacity
      ensures fresh(entries) && fresh(entrySequences)
    {
      this.blank := blank;
      entries := new T[capacity](_ => blank);
      entrySequences := new int[capacity](_ => -1);
      sequence := 0;
      log := [];
    }

    method Exists(seqNo: nat) returns (found: bool)
      requires Valid() && seqNo < SIGN_BIT
      ensures found == (seqNo in Content(log, entries.Length))
    {
      found := entrySequences[seqNo % entries.Length] == seqNo;
    }

    method Get(seqNo: nat) returns (value: Option<T>)
      requires Valid() && seqNo < SIGN_BIT
      ensures value == if seqNo in Content(log, entries.Length) then Some(Content(log, entries.Length)[seqNo]) else None
    {
      var index := seqNo % entries.Length;
      if entrySequences[index] == seqNo {
        value := Some(entries[index]);
      } else {
        value := None;
      }
    }

    method InsertEntry(seqNo: nat, entry: T) returns (accepted: bool)
      requires Valid() && seqNo + 1 < SIGN_BIT
      modifies this`sequence, this`log, entries, entrySequences
      ensures Valid() && log == old(log) + [Insert(seqNo, entry)]
      ensures accepted == Accepts(old(log), entries.Length, seqNo)
    {
      LogAppend(log, entries.Length, Insert(seqNo, entry));
      if seqNo < sequence && sequence - seqNo >= entrySequences.Length {
        log := log + [Insert(seqNo, entry)];
        return false;
      }
      AdvanceTo(seqNo);
      var index := seqNo % entries.Length;
      entrySequences[index] := seqNo;
      entries[index] := entry;
      log := log + [Insert(seqNo, entry)];
      return true;
    }

    method RemoveEntry(seqNo: nat) returns (value: Option<T>)
      requires Valid() && seqNo < SIGN_BIT
      modifies this`log, entries, entrySequences
      ensures Valid() && log == old(log) + [Remove(seqNo)]
      ensures value == if seqNo in Content(old(log), entries.Length)
                       then Some(Content(old(log), entries.Length)[seqNo]) else None
    {
      hide Content, Next, Clears;
      RemoveAppend(log, entries.Length, seqNo);
      value := TakeAt(seqNo);
      log := log + [Remove(seqNo)];
    }

    /** Takes the entry out if its exact sequence number is stored. */
    method TakeAt(seqNo: nat) returns (value: Option<T>)
      requires entries.Length == entrySequences.Length > 0
      requires entries as object != entrySequences
      modifies entries, entrySequences
      ensures var i := seqNo % entries.Length;
              if old(entrySequences[i]) == seqNo
              then value == Some(old(entries[i])) && entrySequences[..] == old(entrySequences[..])[i := -1]
                   && entries[..] == old(entries[..])[i := blank]
              else value == None && entrySequences[..] == old(entrySequences[..]) && entries[..] == old(entries[..])
    {
      var index := seqNo % entries.Length;
      value := None;
      if entrySequences[index] == seqNo {
        value := Some(entries[index]);
        entries[index] := blank;
        entrySequences[index] := -1;
      }
    }

    /** Moving forward empties the ring on a full turn; a shorter move asks for
        sequence numbers that cannot be stored yet, so it clears nothing. */
    method AdvanceTo(seqNo: nat)
      requires Valid()
      modifies this`sequence, entries, entrySequences
      ensures sequence == Max(old(sequence), seqNo + 1)
      ensures if Rotates(log, entries.Length, seqNo) then HoldsExactly(map[])
              else entrySequences[..] == old(entrySequences[..]) && entries[..] == old(entries[..])
    {
      if seqNo + 1 > sequence {
        RemoveEntriesInclusive(sequence, seqNo);
        sequence := seqNo + 1;
      }
    }

    method RemoveEntriesInclusive(first: nat, last: nat)
      requires Valid() && first == sequence <= last
      modifies entries, entrySequences
      ensures if last - first >= entries.Length then HoldsExactly(map[])
              else entrySequences[..] == old(entrySequences[..]) && entries[..] == old(entries[..])
    {
      KeysAreBelowNext(log, entries.Length);
      if last - first >= entries.Length {
        for index := 0 to entrySequences.Length
          invariant forall i | 0 <= i < index :: entrySequences[i] == -1
        {
          entrySequences[index] := -1;
          entries[index] := blank;
        }
      } else {
        for seqNo := first to last + 1
          invariant entrySequences[..] == old(entrySequences[..]) && entries[..] == old(entries[..])
        {
          assert entrySequences[..][seqNo % entries.Length] < first;
          var _ := TakeAt(seqNo);
        }
      }
    }
  }

  lemma LogAppend<T>(log: seq<Op<T>>, capacity: nat, op: Op<T>)
    requires capacity > 0
    ensures Next(log + [op]) == if op.Insert? then Max(Next(log), op.seqNo + 1) else Next(log)
    ensures Content(log + [op], capacity) ==
            var kept := map s | s in Content(log, capacity) && !Clears(log, capacity, op, s) :: Content(log, capacity)[s];
            if op.Insert? && Accepts(log, capacity, op.seqNo) then kept[op.seqNo := op.value] else kept
  {
    assert (log + [op])[..|log|] == log;
  }

  lemma RemoveAppend<T>(log: seq<Op<T>>, capacity: nat, seqNo: nat)
    requires capacity > 0
    ensures Next(log + [Remove(seqNo)]) == Next(log)
    ensures Content(log + [Remove(seqNo)], capacity) == Content(log, capacity) - {seqNo}
  {
    LogAppend(log, capacity, Remove(seqNo));
  }

  lemma {:induction false} KeysAreBelowNext<T>(log: seq<Op<T>>, capacity: nat)
    requires capacity > 0
    ensures forall s | s in Content(log, capacity) :: s < Next(log)
  {
    if log != [] {
      KeysAreBelowNext(log[..|log| - 1], capacity);
    }
  }

  // What a lookup says about the run.

  /** Operation `i` stored `seqNo` and nothing since has cleared its position. */
  ghost predicate StoredBy<T>(log: seq<Op<T>>, capacity: nat, seqNo: nat, i: int)
    requires capacity > 0
  {
    && 0 <= i < |log| && log[i].Insert? && log[i].seqNo == seqNo
    && Accepts(log[..i], capacity, seqNo)
    && forall j | i < j < |log| :: !Clears(log[..j], capacity, log[j], seqNo)
  }

  lemma StoredByAppend<T>(log: seq<Op<T>>, capacity: nat, op: Op<T>, seqNo: nat, i: int)
    requires capacity > 0
    ensures StoredBy(log + [op], capacity, seqNo, i) <==>
            if i == |log| then op.Insert? && op.seqNo == seqNo && Accepts(log, capacity, seqNo)
            else StoredBy(log, capacity, seqNo, i) && !Clears(log, capacity, op, seqNo)
  {
    assert forall j | 0 <= j <= |log| :: (log + [op])[..j] == log[..j];
    assert log[..|log|] == log;
    if StoredBy(log + [op], capacity, seqNo, i) && i < |log| {
      forall j | i < j < |log| ensures !Clears(log[..j], capacity, log[j], seqNo) {
        assert (log + [op])[..j] == log[..j] && (log + [op])[j] == log[j];
      }
      assert (log + [op])[|log|] == op;
    }
  }

  /** A sequence number is found exactly when some accepted insert of it is
      uncleared, and then with that insert's value: never an alias's. */
  lemma {:induction false} FoundExactlyWhenStored<T>(log: seq<Op<T>>, capacity: nat, seqNo: nat)
    requires capacity > 0
    ensures seqNo in Content(log, capacity) <==> exists i :: StoredBy(log, capacity, seqNo, i)
    ensures forall i | StoredBy(log, capacity, seqNo, i) ::
              seqNo in Content(log, capacity) && Content(log, capacity)[seqNo] == log[i].value
  {
    if log != [] {
      var front, op := log[..|log| - 1], log[|log| - 1];
      FoundExactlyWhenStored(front, capacity, seqNo);
      LogAppend(front, capacity, op);
      assert log == front + [op];
      forall i ensures StoredBy(log, capacity, seqNo, i) <==>
                       if i == |front| then op.Insert? && op.seqNo == seqNo && Accepts(front, capacity, seqNo)
                       else StoredBy(front, capacity, seqNo, i) && !Clears(front, capacity, op, seqNo) {
        StoredByAppend(front, capacity, op, seqNo, i);
      }
      if seqNo in Content(log, capacity) {
        if op.Insert? && op.seqNo == seqNo && Accepts(front, capacity, seqNo) {
          assert StoredBy(log, capacity, seqNo, |front|);
        } else {
          var i :| StoredBy(front, capacity, seqNo, i);
          assert StoredBy(log, capacity, seqNo, i);
        }
      }
    }
  }

  /** A late insert never displaces a newer entry. */
  lemma LateInsertKeepsNewer<T>(log: seq<Op<T>>, capacity: nat, op: Op<T>, newer: nat)
    requires capacity > 0 && op.Insert? && newer in Content(log, capacity) && op.seqNo < newer
    ensures newer in Content(log + [op], capacity)
    ensures Content(log + [op], capacity)[newer] == Content(log, capacity)[newer]
  {
    KeysAreBelowNext(log, capacity);
    LogAppend(log, capacity, op);
    if op.seqNo % capacity == newer % capacity {
      CongruentAreFarApart(op.seqNo, newer, capacity);
    }
  }

  lemma {:induction false} NextIsAbove<T>(log: seq<Op<T>>, i: nat)
    requires i < |log| && log[i].Insert?
    ensures log[i].seqNo < Next(log)
  {
    if i < |log| - 1 {
      NextIsAbove(log[..|log| - 1], i);
    }
  }

  /** The next free number is one past the highest ever inserted. */
  lemma {:induction false} NextIsExact<T>(log: seq<Op<T>>)
    ensures forall j | 0 <= j < |log| && log[j].Insert? :: log[j].seqNo < Next(log)
    ensures Next(log) > 0 ==> exists j | 0 <= j < |log| :: log[j].Insert? && log[j].seqNo + 1 == Next(log)
  {
    if log != [] {
      var front, op := log[..|log| - 1], log[|log| - 1];
      NextIsExact(front);
      if Next(log) > 0 && !(op.Insert? && op.seqNo + 1 == Next(log)) {
        var j :| 0 <= j < |front| && front[j].Insert? && front[j].seqNo + 1 == Next(front);
        assert log[j] == front[j];
      }
    }
  }

  /** An insert is accepted exactly when nothing inserted before it is ahead of it by
      one less than the capacity, or more. */
  lemma AcceptsExactly<T>(log: seq<Op<T>>, capacity: nat, seqNo: nat)
    requires capacity > 0
    ensures Accepts(log, capacity, seqNo) <==>
            forall j | 0 <= j < |log| && log[j].Insert? :: log[j].seqNo + 1 < seqNo + capacity
  {
    NextIsExact(log);
  }

  /** What one insert does to what can be found: nothing if it is refused; on a full
      turn of the ring it is all there is; otherwise it takes the place of whatever
      shared its position. */
  lemma InsertExactly<T>(log: seq<Op<T>>, capacity: nat, s: nat, v: T)
    requires capacity > 0
    ensures var found, found' := Content(log, capacity), Content(log + [Insert(s, v)], capacity);
            if Next(log) >= s + capacity then found' == found
            else if s >= Next(log) + capacity then found' == map[s := v]
            else
              && s in found' && found'[s] == v
              && forall t | t != s ::
                   && (t in found' <==> t in found && t % capacity != s % capacity)
                   && (t in found' ==> found'[t] == found[t])
  {
    LogAppend(log, capacity, Insert(s, v));
  }

  /** An entry that is not late and that nobody re-inserts or removes stays retrievable while
      everything inserted after it is less than one capacity ahead of it. */
  lemma RetainedWithinCapacity<T>(log: seq<Op<T>>, capacity: nat, i: nat)
    requires capacity > 0 && i < |log| && log[i].Insert?
    requires forall j | 0 <= j < i && log[j].Insert? :: log[j].seqNo + 1 < log[i].seqNo + capacity
    requires forall j | i < j < |log| :: log[j].seqNo != log[i].seqNo
    requires forall j | i < j < |log| && log[j].Insert? :: log[j].seqNo < log[i].seqNo + capacity
    ensures log[i].seqNo in Content(log, capacity) && Content(log, capacity)[log[i].seqNo] == log[i].value
  {
    var s := log[i].seqNo;
    AcceptsExactly(log[..i], capacity, s);
    forall j | i < j < |log| ensures !Clears(log[..j], capacity, log[j], s) {
      if log[j].Insert? {
        NextIsAbove(log[..j], i);
        var t := log[j].seqNo;
        if t % capacity == s % capacity {
          if t < s {
            CongruentAreFarApart(t, s, capacity);
          } else {
            CongruentAreFarApart(s, t, capacity);
          }
        }
      }
    }
    assert StoredBy(log, capacity, s, i);
    FoundExactlyWhenStored(log, capacity, s);
  }

  /** Everything found is within one capacity of the newest. */
  ghost predicate Fresh<T>(log: seq<Op<T>>, capacity: nat)
    requires capacity > 0
  {
    forall s | s in Content(log, capacity) :: Next(log) - s <= capacity
  }

  /** A forward gap leaves entries of an earlier turn of the ring behind. */
  lemma GapLeavesStaleEntry(v: int)
    ensures var log := [Insert(0, v), Insert(1, v), Insert(5, v)];
            0 in Content(log, 4) && Next(log) - 0 > 4 && !Fresh(log, 4)
  {
    var none: seq<Op<int>> := [];
    var one := none + [Insert(0, v)];
    var two := one + [Insert(1, v)];
    LogAppend(none, 4, Insert(0, v));
    LogAppend(one, 4, Insert(1, v));
    LogAppend(two, 4, Insert(5, v));
    assert two + [Insert(5, v)] == [Insert(0, v), Insert(1, v), Insert(5, v)];
  }

  /** An insert keeps the ring fresh exactly when the entries it leaves one
      capacity behind are all at its own position. */
  lemma StaysFreshExactly<T>(log: seq<Op<T>>, capacity: nat, s: nat, v: T)
    requires capacity > 0 && Fresh(log, capacity)
    ensures Fresh(log + [Insert(s, v)], capacity) <==>
            || s < Next(log) || Rotates(log, capacity, s)
            || forall t | t in Content(log, capacity) && t + capacity <= s :: t % capacity == s % capacity
  {
    var log' := log + [Insert(s, v)];
    LogAppend(log, capacity, Insert(s, v));
    KeysAreBelowNext(log, capacity);
    if s >= Next(log) && !Rotates(log, capacity, s) {
      forall t | t in Content(log, capacity) && t % capacity != s % capacity ensures t in Content(log', capacity) {}
    }
  }

  /** No insert of the run leaves sequence numbers out ahead of it. */
  ghost predicate Gapless<T>(log: seq<Op<T>>) {
    forall k | 0 <= k < |log| && log[k].Insert? :: log[k].seqNo <= Next(log[..k])
  }

  /** So everything a run without forward gaps leaves behind is within one capacity
      of the newest, whatever it inserts late or removes. */
  lemma {:induction false} GaplessRunsStayFresh<T>(log: seq<Op<T>>, capacity: nat)
    requires capacity > 0 && Gapless(log)
    ensures Fresh(log, capacity)
  {
    if log != [] {
      var front, op := log[..|log| - 1], log[|log| - 1];
      assert forall k | 0 <= k < |front| :: front[..k] == log[..k];
      assert log == front + [op];
      GaplessRunsStayFresh(front, capacity);
      if op.Insert? {
        GaplessInsertStaysFresh(front, capacity, op.seqNo, op.value);
      } else {
        LogAppend(front, capacity, op);
      }
    }
  }

  lemma GaplessInsertStaysFresh<T>(log: seq<Op<T>>, capacity: nat, s: nat, v: T)
    requires capacity > 0 && Fresh(log, capacity) && s <= Next(log)
    ensures Fresh(log + [Insert(s, v)], capacity)
  {
    forall t | t in Content(log, capacity) && t + capacity <= s ensures t % capacity == s % capacity {
      assert s == t + capacity * 1;
      DivAddMultiple(t, capacity, 1);
    }
    StaysFreshExactly(log, capacity, s, v);
  }
}
