/** Ordered release: whatever order turns arrive in, the game gets each slot's
    turns 0, 1, 2, ... once each. */
module Reorder {
  import opened Basics
  import opened Messages

  datatype TrySend = Accepted | Full | Closed
  datatype Release = Delivered | GameClosed | GameStalled

  /** A turn together with the slot it was received for. */
  type Arrival = (SlotId, Payload)

  ghost function Of(slot: SlotId, turns: seq<Arrival>): seq<Payload> {
    if turns == [] then []
    else
      var front, last := Of(slot, turns[..|turns| - 1]), turns[|turns| - 1];
      if last.0 == slot then front + [last.1] else front
  }

  /** A run of turns numbered 0, 1, 2, ... */
  ghost predicate CountsUp(turns: seq<Payload>) {
    forall i | 0 <= i < |turns| :: turns[i].seqNo == i
  }

  ghost predicate Arrived(arrivals: seq<Arrival>, slot: SlotId, seqNo: nat) {
    exists p :: (slot, p) in arrivals && p.seqNo == seqNo
  }

  /** The least seq that never arrived for the slot. */
  ghost predicate IsLeastMissing(arrivals: seq<Arrival>, slot: SlotId, seqNo: nat) {
    && !Arrived(arrivals, slot, seqNo)
    && forall q | 0 <= q < seqNo :: Arrived(arrivals, slot, q)
  }

  datatype Buffer = Buffer(nextSeq: map<SlotId, nat>, pending: map<SlotId, map<nat, Payload>>)

  /** The game has each slot's turns 0, 1, ... up to the slot's cursor. */
  ghost predicate InOrder(nextSeq: map<SlotId, nat>, handed: seq<Arrival>) {
    forall slot: SlotId :: CountsUp(Of(slot, handed))
      && |Of(slot, handed)| == if slot in nextSeq then nextSeq[slot] else 0
  }

  /** Everything held back arrived, and is at or past its slot's cursor. */
  ghost predicate HeldAhead(b: Buffer, arrivals: seq<Arrival>) {
    && b.pending.Keys <= b.nextSeq.Keys
    && forall slot, q | slot in b.pending && q in b.pending[slot] ::
         q >= b.nextSeq[slot] && b.pending[slot][q].seqNo == q && (slot, b.pending[slot][q]) in arrivals
  }

  /** What the buffer owes the run; unless the game is gone, every arrival is
      either handed over or held. */
  ghost predicate Coherent(b: Buffer, arrivals: seq<Arrival>, handed: seq<Arrival>, gone: bool) {
    && InOrder(b.nextSeq, handed)
    && (forall h | h in handed :: h in arrivals)
    && HeldAhead(b, arrivals)
    && (!gone ==> forall a | a in arrivals :: Kept(b, a))
  }

  ghost predicate Kept(b: Buffer, a: Arrival) {
    a.0 in b.nextSeq
    && (a.1.seqNo < b.nextSeq[a.0] || (a.0 in b.pending && a.1.seqNo in b.pending[a.0]))
  }

  /** Nothing more can be released. */
  predicate Drained(b: Buffer, slot: SlotId) {
    slot in b.nextSeq && slot in b.pending ==> b.nextSeq[slot] !in b.pending[slot]
  }

  lemma {:induction false} HandedHasArrived(b: Buffer, arrivals: seq<Arrival>, handed: seq<Arrival>, gone: bool, slot: SlotId, q: nat)
    requires Coherent(b, arrivals, handed, gone) && slot in b.nextSeq && q < b.nextSeq[slot]
    ensures Arrived(arrivals, slot, q)
  {
    OfComesFrom(slot, handed, q);
    assert (slot, Of(slot, handed)[q]) in arrivals;
  }

  lemma {:induction false} OfComesFrom(slot: SlotId, turns: seq<Arrival>, k: nat)
    requires k < |Of(slot, turns)|
    ensures (slot, Of(slot, turns)[k]) in turns
  {
    var n := |turns| - 1;
    if turns[n].0 != slot || k < |Of(slot, turns)| - 1 {
      OfComesFrom(slot, turns[..n], k);
    } else {
      assert turns[n] == (slot, Of(slot, turns)[k]);
    }
  }

  /** After a full release the cursor is the least seq never received. */
  lemma CursorIsLeastMissing(b: Buffer, arrivals: seq<Arrival>, handed: seq<Arrival>, slot: SlotId)
    requires Coherent(b, arrivals, handed, false) && slot in b.nextSeq && Drained(b, slot)
    ensures IsLeastMissing(arrivals, slot, b.nextSeq[slot])
  {
    forall q | 0 <= q < b.nextSeq[slot] ensures Arrived(arrivals, slot, q) {
      HandedHasArrived(b, arrivals, handed, false, slot, q);
    }
  }

  function AfterObserve(b: Buffer, slot: SlotId, payload: Payload): Buffer {
    var next := if slot in b.nextSeq then b.nextSeq[slot] else 0;
    var held := if slot in b.pending then b.pending[slot] else map[];
    Buffer(b.nextSeq[slot := next],
           if payload.seqNo >= next then b.pending[slot := held[payload.seqNo := payload]] else b.pending)
  }

  function AfterHandOff(b: Buffer, slot: SlotId): Buffer
    requires slot in b.nextSeq && slot in b.pending
  {
    Buffer(b.nextSeq[slot := b.nextSeq[slot] + 1],
           b.pending[slot := b.pending[slot] - {b.nextSeq[slot]}])
  }

  lemma ObserveIsCoherent(b: Buffer, arrivals: seq<Arrival>, handed: seq<Arrival>, gone: bool, slot: SlotId, payload: Payload)
    requires Coherent(b, arrivals, handed, gone)
    ensures Coherent(AfterObserve(b, slot, payload), arrivals + [(slot, payload)], handed, gone)
  {
    var b', arrivals' := AfterObserve(b, slot, payload), arrivals + [(slot, payload)];
    assert arrivals'[|arrivals|] == (slot, payload);
    forall a | a in arrivals' && !gone ensures Kept(b', a) {
      if a in arrivals {
        assert Kept(b, a);
      }
    }
  }

  lemma HandOffKeepsOrder(nextSeq: map<SlotId, nat>, handed: seq<Arrival>, slot: SlotId, p: Payload)
    requires InOrder(nextSeq, handed) && slot in nextSeq && p.seqNo == nextSeq[slot]
    ensures InOrder(nextSeq[slot := nextSeq[slot] + 1], handed + [(slot, p)])
  {
    var handed' := handed + [(slot, p)];
    assert handed'[..|handed|] == handed;
    forall s: SlotId
      ensures CountsUp(Of(s, handed')) && |Of(s, handed')| == |Of(s, handed)| + if s == slot then 1 else 0
    {
      assert Of(s, handed') == if s == slot then Of(s, handed) + [p] else Of(s, handed);
    }
  }

  lemma HandOffIsCoherent(b: Buffer, arrivals: seq<Arrival>, handed: seq<Arrival>, gone: bool, slot: SlotId)
    requires Coherent(b, arrivals, handed, gone)
    requires slot in b.nextSeq && slot in b.pending && b.nextSeq[slot] in b.pending[slot]
    ensures var p := b.pending[slot][b.nextSeq[slot]];
            Coherent(AfterHandOff(b, slot), arrivals, handed + [(slot, p)], gone)
  {
    hide InOrder, HeldAhead, Kept;
    var p := b.pending[slot][b.nextSeq[slot]];
    HeldTurnIsNext(b, arrivals, slot);
    HandOffKeepsOrder(b.nextSeq, handed, slot, p);
    HandOffHoldsAhead(b, arrivals, slot);
    forall a | a in arrivals && !gone ensures Kept(AfterHandOff(b, slot), a) {
      HandOffKeeps(b, slot, a);
    }
  }

  lemma HeldTurnIsNext(b: Buffer, arrivals: seq<Arrival>, slot: SlotId)
    requires HeldAhead(b, arrivals)
    requires slot in b.nextSeq && slot in b.pending && b.nextSeq[slot] in b.pending[slot]
    ensures var p := b.pending[slot][b.nextSeq[slot]];
            p.seqNo == b.nextSeq[slot] && (slot, p) in arrivals
  {
  }

  lemma HandOffHoldsAhead(b: Buffer, arrivals: seq<Arrival>, slot: SlotId)
    requires HeldAhead(b, arrivals) && slot in b.nextSeq && slot in b.pending
    ensures HeldAhead(AfterHandOff(b, slot), arrivals)
  {
  }

  lemma HandOffKeeps(b: Buffer, slot: SlotId, a: Arrival)
    requires Kept(b, a) && slot in b.nextSeq && slot in b.pending
    ensures Kept(AfterHandOff(b, slot), a)
  {
  }

  /** Dropping a turn for a game that is gone. */
  lemma DropIsCoherent(b: Buffer, arrivals: seq<Arrival>, handed: seq<Arrival>, gone: bool, slot: SlotId)
    requires Coherent(b, arrivals, handed, gone) && slot in b.nextSeq && slot in b.pending
    ensures Coherent(b.(pending := b.pending[slot := b.pending[slot] - {b.nextSeq[slot]}]), arrivals, handed, true)
  {
    hide InOrder;
  }

  /** The attempts from `lo` to before `hi` were accepted, and `r` is what the attempt
      after them met, if there was one. */
  ghost predicate Answered(channel: nat -> TrySend, lo: nat, hi: nat, r: Release) {
    && (forall k | lo <= k < hi :: channel(k).Accepted?)
    && (r.GameStalled? ==> channel(hi).Full?) && (r.GameClosed? ==> channel(hi).Closed?)
  }

  lemma NothingAnswered(channel: nat -> TrySend, k: nat)
    ensures Answered(channel, k, k, Delivered)
  {
  }

  lemma AnsweredOnce(channel: nat -> TrySend, lo: nat, k: nat)
    requires lo <= k && Answered(channel, lo, k, Delivered)
    ensures match channel(k)
            case Accepted => Answered(channel, lo, k + 1, Delivered)
            case Full => Answered(channel, lo, k, GameStalled)
            case Closed => Answered(channel, lo, k, GameClosed)
  {
  }

  lemma AnsweredJoins(channel: nat -> TrySend, lo: nat, mid: nat, hi: nat, r: Release)
    requires Answered(channel, lo, mid, Delivered) && Answered(channel, mid, hi, r)
    ensures Answered(channel, lo, hi, r)
  {
  }

  class SlotReorder {
    var nextSeq: map<SlotId, nat>
    var pending: map<SlotId, map<nat, Payload>>
    ghost var arrivals: seq<Arrival>
    ghost var handed: seq<Arrival>
    ghost var gone: bool

    ghost function View(): Buffer
      reads this
    {
      Buffer(nextSeq, pending)
    }

    ghost predicate Valid()
      reads this
    {
      Coherent(View(), arrivals, handed, gone)
    }

    constructor ()
      ensures Valid() && arrivals == [] && handed == [] && !gone
    {
      nextSeq, pending := map[], map[];
      arrivals, handed, gone := [], [], false;
    }

    method Observe(slot: SlotId, payload: Payload)
      requires Valid()
      modifies this
      ensures Valid() && arrivals == old(arrivals) + [(slot, payload)]
      ensures handed == old(handed) && gone == old(gone) && slot in nextSeq
      ensures payload.seqNo >= nextSeq[slot] ==>
                slot in pending && payload.seqNo in pending[slot] && pending[slot][payload.seqNo] == payload
    {
      ObserveIsCoherent(View(), arrivals, handed, gone, slot, payload);
      if slot !in nextSeq {
        nextSeq := nextSeq[slot := 0];
      } else {
        assert nextSeq[slot := nextSeq[slot]] == nextSeq;
      }
      if payload.seqNo >= nextSeq[slot] {
        var held := if slot in pending then pending[slot] else map[];
        pending := pending[slot := held[payload.seqNo := payload]];
      }
      arrivals := arrivals + [(slot, payload)];
    }

    /** Hands each slot's contiguous run to the game, visiting the slots in any
        order; `channel` answers the k-th hand-over attempt of this call. */
    method ReleaseInto(channel: nat -> TrySend) returns (r: Release)
      requires Valid()
      modifies this
      ensures Valid() && arrivals == old(arrivals) && nextSeq.Keys == old(nextSeq.Keys)
      ensures old(handed) <= handed
      ensures gone == (old(gone) || r.GameClosed?)
      ensures r.Delivered? ==> forall slot :: Drained(View(), slot)
      ensures r.Delivered? && !gone ==>
                forall slot | slot in nextSeq :: IsLeastMissing(arrivals, slot, nextSeq[slot])
      ensures r.GameStalled? ==> exists slot :: !Drained(View(), slot)
      ensures Answered(channel, 0, |handed| - |old(handed)|, r)
    {
      hide Coherent, Answered;
      NothingAnswered(channel, 0);
      var unvisited := nextSeq.Keys;
      var attempt := 0;
      r := Delivered;
      while unvisited != {} && r.Delivered?
        invariant Valid() && arrivals == old(arrivals) && nextSeq.Keys == old(nextSeq.Keys)
        invariant old(handed) <= handed && gone == (old(gone) || r.GameClosed?)
        invariant r.Delivered? ==> forall slot | slot !in unvisited :: Drained(View(), slot)
        invariant r.GameStalled? ==> exists slot :: !Drained(View(), slot)
        invariant Answered(channel, 0, attempt, r) && attempt == |handed| - |old(handed)|
        decreases unvisited
      {
        ghost var mid := attempt;
        var slot :| slot in unvisited;
        unvisited := unvisited - {slot};
        r, attempt := ReleaseSlot(slot, channel, attempt);
        AnsweredJoins(channel, 0, mid, attempt, r);
      }
      if r.Delivered? && !gone {
        forall slot | slot in nextSeq ensures IsLeastMissing(arrivals, slot, nextSeq[slot]) {
          CursorIsLeastMissing(View(), arrivals, handed, slot);
        }
      }
    }

    method ReleaseSlot(slot: SlotId, channel: nat -> TrySend, attempt: nat) returns (r: Release, attempt': nat)
      requires Valid() && slot in nextSeq
      modifies this
      ensures Valid() && arrivals == old(arrivals) && nextSeq.Keys == old(nextSeq.Keys)
      ensures old(handed) <= handed && gone == (old(gone) || r.GameClosed?)
      ensures r.Delivered? ==> Drained(View(), slot)
      ensures r.GameStalled? ==> !Drained(View(), slot)
      ensures forall s | s != slot :: Drained(View(), s) == old(Drained(View(), s))
      ensures Answered(channel, attempt, attempt', r) && attempt' == attempt + |handed| - |old(handed)|
    {
      hide Coherent, Answered;
      NothingAnswered(channel, attempt);
      attempt' := attempt;
      if slot in pending {
        while nextSeq[slot] in pending[slot]
          invariant Valid() && arrivals == old(arrivals) && nextSeq.Keys == old(nextSeq.Keys)
          invariant old(handed) <= handed && gone == old(gone)
          invariant slot in nextSeq && slot in pending
          invariant attempt <= attempt' == attempt + |handed| - |old(handed)|
          invariant Answered(channel, attempt, attempt', Delivered)
          invariant forall s | s != slot :: Drained(View(), s) == old(Drained(View(), s))
          decreases pending[slot].Keys
        {
          AnsweredOnce(channel, attempt, attempt');
          r := HandOver(slot, channel(attempt'));
          if !r.Delivered? {
            return;
          }
          attempt' := attempt' + 1;
        }
      }
      return Delivered, attempt';
    }

    /** One attempt: the slot's next turn is handed over, put back, or lost with the
        game. */
    method HandOver(slot: SlotId, answer: TrySend) returns (r: Release)
      requires Valid() && slot in nextSeq && slot in pending && nextSeq[slot] in pending[slot]
      modifies this
      ensures Valid() && arrivals == old(arrivals) && nextSeq.Keys == old(nextSeq.Keys)
      ensures r == match answer case Accepted => Delivered case Full => GameStalled case Closed => GameClosed
      ensures old(handed) <= handed && |handed| == |old(handed)| + if r.Delivered? then 1 else 0
      ensures r.Delivered? ==> handed[|old(handed)|] == (slot, old(pending[slot][nextSeq[slot]]))
      ensures gone == (old(gone) || r.GameClosed?)
      ensures r.GameStalled? ==> View() == old(View())
      ensures r.Delivered? ==> slot in pending && pending[slot].Keys < old(pending[slot]).Keys
      ensures forall s | s != slot :: Drained(View(), s) == old(Drained(View(), s))
    {
      hide Coherent;
      HandOffIsCoherent(View(), arrivals, handed, gone, slot);
      DropIsCoherent(View(), arrivals, handed, gone, slot);
      ghost var before := pending;
      var payload := pending[slot][nextSeq[slot]];
      pending := pending[slot := pending[slot] - {nextSeq[slot]}];
      assert nextSeq[slot] in before[slot].Keys && nextSeq[slot] !in pending[slot].Keys;
      match answer {
        case Accepted =>
          nextSeq := nextSeq[slot := nextSeq[slot] + 1];
          handed := handed + [(slot, payload)];
          return Delivered;
        case Full =>
          pending := pending[slot := pending[slot][nextSeq[slot] := payload]];
          assert pending[slot] == before[slot];
          assert pending == before;
          return GameStalled;
        case Closed =>
          gone := true;
          return GameClosed;
      }
    }

    /** One packet's fresh turns: those naming no real slot are dropped, the rest
        are buffered, then everything contiguous is released. */
    method IngestFreshTurns(received: seq<Payload>, channel: nat -> TrySend) returns (r: Release)
      requires Valid()
      modifies this
      ensures Valid() && arrivals == old(arrivals) + InRange(received)
      ensures old(handed) <= handed && gone == (old(gone) || r.GameClosed?)
      ensures r.Delivered? && !gone ==>
                forall slot | slot in nextSeq :: IsLeastMissing(arrivals, slot, nextSeq[slot])
      ensures Answered(channel, 0, |handed| - |old(handed)|, r)
    {
      hide Coherent, Answered;
      var i := 0;
      while i < |received|
        invariant 0 <= i <= |received|
        invariant Valid() && arrivals == old(arrivals) + InRange(received[..i])
        invariant handed == old(handed) && gone == old(gone)
      {
        assert received[..i + 1][..i] == received[..i];
        if received[i].slot < 0x100 {
          Observe(received[i].slot, received[i]);
        }
        i := i + 1;
      }
      assert received[..i] == received;
      r := ReleaseInto(channel);
    }

    /** The resume cursors: for each slot heard from, the seq next needed. */
    method Cursors() returns (cursors: map<SlotId, nat>)
      requires Valid()
      ensures cursors.Keys == nextSeq.Keys
      ensures forall slot | slot in cursors :: cursors[slot] == |Of(slot, handed)|
    {
      cursors := nextSeq;
    }
  }

  ghost function InRange(received: seq<Payload>): seq<Arrival> {
    if received == [] then []
    else
      var front, last := InRange(received[..|received| - 1]), received[|received| - 1];
      if last.slot < 0x100 then front + [(last.slot as SlotId, last)] else front
  }

  /** It is every received turn whose slot is a byte, in order, under that slot. */
  lemma {:induction false} InRangeExactly(a: seq<Payload>, b: seq<Payload>)
    ensures InRange(a + b) == InRange(a) + InRange(b)
    ensures |b| == 1 ==> InRange(b) == if b[0].slot < 256 then [(b[0].slot as SlotId, b[0])] else []
    decreases |b|
  {
    if b == [] {
      assert a + b == a;
    } else {
      var front := b[..|b| - 1];
      InRangeExactly(a, front);
      assert (a + b)[..|a + b| - 1] == a + front;
    }
  }
}
