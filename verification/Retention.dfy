/** What a client keeps of its own turns in case it must resume: the capped ring, the
    anchors computed from it, and the list owed to the next control stream. */
module Retention {
  import opened Basics
  import opened Messages

  const RETENTION_TURN_CAP: nat := 512
  const RETENTION_BYTE_CAP: nat := 256 * 1024

  /** Which turns fit a datagram on every path the session can hold. */
  type Fits = Payload -> bool

  function RetainedSize(p: Payload): nat {
    |p.commands| + 32
  }

  function Bytes(turns: seq<Payload>): nat {
    if turns == [] then 0 else RetainedSize(turns[0]) + Bytes(turns[1..])
  }

  predicate WithinCaps(turns: seq<Payload>) {
    |turns| <= RETENTION_TURN_CAP && (Bytes(turns) <= RETENTION_BYTE_CAP || |turns| <= 1)
  }

  /** Drops the oldest turns until both caps hold. */
  function Trim(turns: seq<Payload>): seq<Payload> {
    if WithinCaps(turns) then turns else Trim(turns[1..])
  }

  function Push(ring: seq<Payload>, p: Payload): seq<Payload> {
    Trim(ring + [p])
  }

  class RetentionRing {
    var turns: seq<Payload>
    var bytes: nat

    ghost predicate Valid()
      reads this
    {
      bytes == Bytes(turns)
    }

    constructor ()
      ensures Valid() && turns == []
    {
      turns, bytes := [], 0;
    }

    method PushTurn(payload: Payload)
      requires Valid()
      modifies this
      ensures Valid() && turns == Push(old(turns), payload)
    {
      BytesAppend(turns, payload);
      turns := turns + [payload];
      bytes := bytes + RetainedSize(payload);
      while |turns| > RETENTION_TURN_CAP || (bytes > RETENTION_BYTE_CAP && |turns| > 1)
        invariant Valid() && Trim(turns) == Push(old(turns), payload)
        decreases |turns|
      {
        var dropped := turns[0];
        turns := turns[1..];
        bytes := SaturatingSub(bytes, RetainedSize(dropped));
      }
    }
  }

  function CommandBytes(turns: seq<Payload>): nat {
    if turns == [] then 0 else CommandBytes(turns[..|turns| - 1]) + |turns[|turns| - 1].commands|
  }

  /** What the byte cap counts: command bytes, and 32 for each turn. */
  lemma {:induction false} BytesCount(turns: seq<Payload>)
    ensures Bytes(turns) == CommandBytes(turns) + 32 * |turns|
  {
    if turns != [] {
      var front, p := turns[..|turns| - 1], turns[|turns| - 1];
      BytesCount(front);
      BytesAppend(front, p);
      assert turns == front + [p];
    }
  }

  lemma {:induction false} BytesAppend(turns: seq<Payload>, p: Payload)
    ensures Bytes(turns + [p]) == Bytes(turns) + RetainedSize(p)
  {
    if turns == [] {
      assert turns + [p] == [p];
    } else {
      assert (turns + [p])[1..] == turns[1..] + [p];
      BytesAppend(turns[1..], p);
    }
  }

  // The ring is the longest suffix of everything sent that both caps allow.

  ghost predicate IsSuffix(ring: seq<Payload>, all: seq<Payload>) {
    |ring| <= |all| && ring == all[|all| - |ring|..]
  }

  ghost predicate IsLongestSuffix(ring: seq<Payload>, all: seq<Payload>) {
    && IsSuffix(ring, all) && WithinCaps(ring)
    && forall longer | IsSuffix(longer, all) && WithinCaps(longer) :: |longer| <= |ring|
  }

  /** In plain numbers, of everything sent: the newest turns, at most 512, and at most
      256 KiB unless it is one; and one more would be too many. */
  lemma LongestInNumbers(ring: seq<Payload>, all: seq<Payload>)
    requires IsLongestSuffix(ring, all)
    ensures |ring| <= |all| && ring == all[|all| - |ring|..]
    ensures |ring| <= 512 && (|ring| <= 1 || CommandBytes(ring) + 32 * |ring| <= 262_144)
    ensures forall n | |ring| < n <= |all| :: n > 512 || CommandBytes(all[|all| - n..]) + 32 * n > 262_144
  {
    hide Bytes;
    BytesCount(ring);
    forall n | |ring| < n <= |all| ensures n > 512 || CommandBytes(all[|all| - n..]) + 32 * n > 262_144 {
      var longer := all[|all| - n..];
      BytesCount(longer);
      assert IsSuffix(longer, all) && !WithinCaps(longer);
    }
  }

  /** Trimming finds the longest suffix within the caps. */
  lemma {:induction false} TrimIsLongest(turns: seq<Payload>)
    ensures IsLongestSuffix(Trim(turns), turns)
    ensures |Trim(turns)| <= |turns|
  {
    assert !WithinCaps(turns) ==> turns != [];
    hide WithinCaps, IsSuffix;
    if WithinCaps(turns) {
      OnlyWholeSuffix(turns);
    } else {
      TrimIsLongest(turns[1..]);
      assert Trim(turns) == Trim(turns[1..]);
      SuffixOfTail(Trim(turns), turns);
      forall longer | IsSuffix(longer, turns) && WithinCaps(longer)
        ensures |longer| <= |Trim(turns)|
      {
        SuffixOfTail(longer, turns);
      }
    }
  }

  lemma OnlyWholeSuffix(turns: seq<Payload>)
    ensures IsSuffix(turns, turns) && forall s | IsSuffix(s, turns) :: |s| <= |turns|
  {
  }

  lemma SuffixOfTail(s: seq<Payload>, turns: seq<Payload>)
    requires turns != []
    ensures IsSuffix(s, turns[1..]) ==> IsSuffix(s, turns)
    ensures IsSuffix(s, turns) && s != turns ==> IsSuffix(s, turns[1..])
  {
  }

  /** Taking the newest turn off a suffix within the caps leaves one. */
  lemma {:induction false} CapsWithoutNewest(turns: seq<Payload>)
    requires turns != [] && WithinCaps(turns)
    ensures WithinCaps(turns[..|turns| - 1])
  {
    var front := turns[..|turns| - 1];
    BytesAppend(front, turns[|turns| - 1]);
    assert front + [turns[|turns| - 1]] == turns;
  }

  /** A suffix of a suffix, and a suffix no longer than another. */
  lemma SuffixesNest(shorter: seq<Payload>, longer: seq<Payload>, all: seq<Payload>)
    requires IsSuffix(longer, all) && |shorter| <= |longer|
    ensures IsSuffix(shorter, longer) <==> IsSuffix(shorter, all)
  {
    assert longer[|longer| - |shorter|..] == all[|all| - |shorter|..];
  }

  lemma SuffixAppend(ring: seq<Payload>, all: seq<Payload>, p: Payload)
    requires IsSuffix(ring, all)
    ensures IsSuffix(ring + [p], all + [p])
  {
  }

  lemma SuffixWithoutNewest(longer: seq<Payload>, all: seq<Payload>, p: Payload)
    requires longer != [] && IsSuffix(longer, all + [p])
    ensures IsSuffix(longer[..|longer| - 1], all)
  {
  }

  lemma PushIsLongest(ring: seq<Payload>, all: seq<Payload>, p: Payload)
    requires IsLongestSuffix(ring, all)
    ensures IsLongestSuffix(Push(ring, p), all + [p])
    ensures Push(ring, p) != []
  {
    hide WithinCaps, Trim, IsSuffix;
    TrimIsLongest(ring + [p]);
    SuffixAppend(ring, all, p);
    PushKeepsNewest(ring, p);
    var ring' := Push(ring, p);
    SuffixesNest(ring', ring + [p], all + [p]);
    forall longer | IsSuffix(longer, all + [p]) && WithinCaps(longer)
      ensures |longer| <= |ring'|
    {
      if longer != [] {
        CapsWithoutNewest(longer);
        SuffixWithoutNewest(longer, all, p);
        SuffixesNest(longer, ring + [p], all + [p]);
      }
    }
  }

  /** The newest turn is never the one dropped. */
  lemma PushKeepsNewest(ring: seq<Payload>, p: Payload)
    ensures Push(ring, p) != [] && Push(ring, p)[|Push(ring, p)| - 1] == p
  {
    assert WithinCaps([p]) && IsSuffix([p], ring + [p]);
    TrimIsLongest(ring + [p]);
    hide WithinCaps, Trim;
  }

  lemma PushComesFrom(ring: seq<Payload>, p: Payload)
    ensures forall t | t in Push(ring, p) :: t in ring || t == p
  {
    TrimIsLongest(ring + [p]);
    hide WithinCaps, Trim;
  }

  // Anchors.

  ghost predicate IsLeast(a: nat, seqs: set<nat>) {
    a in seqs && forall q | q in seqs :: a <= q
  }

  function SeqsOf(turns: seq<Payload>): set<nat> {
    set t | t in turns :: t.seqNo
  }

  /** The retained turns no datagram can carry. */
  function Oversize(fits: Fits, ring: seq<Payload>): seq<Payload> {
    if ring == [] then []
    else if fits(ring[0]) then Oversize(fits, ring[1..])
    else [ring[0]] + Oversize(fits, ring[1..])
  }

  lemma {:induction false} OversizeIsExact(fits: Fits, ring: seq<Payload>)
    ensures forall t :: t in Oversize(fits, ring) <==> t in ring && !fits(t)
  {
    if ring != [] {
      OversizeIsExact(fits, ring[1..]);
      assert ring == [ring[0]] + ring[1..];
    }
  }

  ghost predicate Rising(turns: seq<Payload>) {
    forall i, j | 0 <= i < j < |turns| :: turns[i].seqNo < turns[j].seqNo
  }

  lemma {:induction false} OversizeRises(fits: Fits, ring: seq<Payload>)
    requires Rising(ring)
    ensures Rising(Oversize(fits, ring))
  {
    if ring != [] {
      OversizeRises(fits, ring[1..]);
      OversizeIsExact(fits, ring[1..]);
      var rest := Oversize(fits, ring[1..]);
      forall k | 0 <= k < |rest| ensures ring[0].seqNo < rest[k].seqNo {
        assert rest[k] in ring[1..];
      }
    }
  }

  lemma OversizeSeqs(fits: Fits, ring: seq<Payload>)
    ensures forall t | t in ring && !fits(t) :: t.seqNo in SeqsOf(Oversize(fits, ring))
    ensures forall q | q in SeqsOf(Oversize(fits, ring)) :: exists t | t in ring :: !fits(t) && t.seqNo == q
  {
    OversizeIsExact(fits, ring);
    forall t | t in ring && !fits(t) ensures t.seqNo in SeqsOf(Oversize(fits, ring)) {
      assert t in Oversize(fits, ring);
    }
  }

  method OldestOversizeSeq(fits: Fits, ring: seq<Payload>) returns (r: Option<nat>)
    ensures IsOldest(r, SeqsOf(Oversize(fits, ring)))
  {
    r := None;
    var i := 0;
    OversizeIsExact(fits, ring);
    while i < |ring|
      invariant 0 <= i <= |ring|
      invariant r.None? <==> forall k | 0 <= k < i :: fits(ring[k])
      invariant r.Some? ==> exists k | 0 <= k < i :: !fits(ring[k]) && ring[k].seqNo == r.value
      invariant r.Some? ==> forall k | 0 <= k < i && !fits(ring[k]) :: r.value <= ring[k].seqNo
    {
      if !fits(ring[i]) {
        r := Some(if r.None? then ring[i].seqNo else Min(r.value, ring[i].seqNo));
      }
      i := i + 1;
    }
    if r.Some? {
      ghost var k :| 0 <= k < |ring| && !fits(ring[k]) && ring[k].seqNo == r.value;
      assert ring[k].seqNo in SeqsOf(Oversize(fits, ring));
    }
  }

  /** `oldest` is the least of `seqs`, none exactly when there is none. */
  ghost predicate IsOldest(oldest: Option<nat>, seqs: set<nat>) {
    (oldest.None? <==> seqs == {}) && (oldest.Some? ==> IsLeast(oldest.value, seqs))
  }

  /** The cursors presented on a same-relay resume: those of the peers, and always
      one for the own slot, at the least seq that either way of sending again will
      carry, or at the next one to be stamped if neither will carry any. */
  method SameRelayResumeCursors(peers: seq<(SlotId, nat)>, oldestReplayable: Option<nat>, oldestOversize: Option<nat>,
                                ownSlot: SlotId, nextSeq: nat, ghost window: set<nat>, ghost restaged: set<nat>)
      returns (cursors: seq<(SlotId, nat)>)
    requires IsOldest(oldestReplayable, window) && IsOldest(oldestOversize, restaged)
    ensures |cursors| == |peers| + 1 && peers < cursors && cursors[|peers|].0 == ownSlot
    ensures window + restaged == {} ==> cursors[|peers|].1 == nextSeq
    ensures window + restaged != {} ==> IsLeast(cursors[|peers|].1, window + restaged)
  {
    var anchor;
    match (oldestReplayable, oldestOversize) {
      case (Some(datagram), Some(oversize)) => anchor := Min(datagram, oversize);
      case (Some(only), None) => anchor := only;
      case (None, Some(only)) => anchor := only;
      case (None, None) => anchor := nextSeq;
    }
    cursors := peers + [(ownSlot, anchor)];
  }

  /** `a` is the least seq from which the unacked window runs without a hole up to
      `front`. */
  ghost predicate IsContiguousAnchor(unacked: set<nat>, front: nat, a: nat) {
    && a <= front
    && (forall q | a <= q < front :: q in unacked)
    && (a > 0 ==> a - 1 !in unacked)
  }

  lemma ContiguousAnchorIsLeast(unacked: set<nat>, front: nat, a: nat, b: nat)
    requires IsContiguousAnchor(unacked, front, a)
    requires b <= front && forall q | b <= q < front :: q in unacked
    ensures a <= b
  {
    assert b < a ==> a - 1 in unacked;
  }

  method ContiguousReplayableAnchor(unacked: set<nat>, front: nat) returns (anchor: nat)
    ensures IsContiguousAnchor(unacked, front, anchor)
  {
    anchor := front;
    while anchor > 0 && anchor - 1 in unacked
      invariant anchor <= front && forall q | anchor <= q < front :: q in unacked
    {
      anchor := anchor - 1;
    }
  }

  // Staging.

  function Stage(pending: seq<Payload>, turn: Payload): seq<Payload> {
    if exists staged | staged in pending :: staged.slot == turn.slot && staged.seqNo == turn.seqNo
    then pending else pending + [turn]
  }

  function StageAll(pending: seq<Payload>, turns: seq<Payload>): seq<Payload>
    decreases |turns|
  {
    if turns == [] then pending else StageAll(Stage(pending, turns[0]), turns[1..])
  }

  ghost predicate NoDuplicates(turns: seq<Payload>) {
    forall i, j | 0 <= i < j < |turns| :: turns[i].slot != turns[j].slot || turns[i].seqNo != turns[j].seqNo
  }

  /** Turns whose (slot, seq) tells which turn they are. */
  ghost predicate Identified(turns: set<Payload>) {
    forall a, b | a in turns && b in turns && a.slot == b.slot && a.seqNo == b.seqNo :: a == b
  }

  /** Staging adds what is missing, repeats nothing and drops nothing. */
  lemma {:induction false} StageAllIsUnion(pending: seq<Payload>, turns: seq<Payload>, known: set<Payload>)
    requires NoDuplicates(pending) && Identified(known)
    requires (forall t | t in pending :: t in known) && (forall t | t in turns :: t in known)
    ensures NoDuplicates(StageAll(pending, turns))
    ensures forall t :: t in StageAll(pending, turns) <==> t in pending || t in turns
    ensures pending <= StageAll(pending, turns)
    decreases |turns|
  {
    hide NoDuplicates, Identified, Stage;
    if turns != [] {
      StageAdds(pending, turns[0], known);
      StageAllIsUnion(Stage(pending, turns[0]), turns[1..], known);
      assert turns == [turns[0]] + turns[1..];
    }
  }

  /** What is not staged yet is staged behind what is, in the order given. */
  lemma {:induction false} StageAllAppends(pending: seq<Payload>, turns: seq<Payload>)
    requires NoDuplicates(pending + turns)
    ensures StageAll(pending, turns) == pending + turns
    decreases |turns|
  {
    if turns == [] {
      assert pending + turns == pending;
    } else {
      assert (pending + turns)[|pending|] == turns[0];
      assert forall i | 0 <= i < |pending| :: (pending + turns)[i] == pending[i];
      assert pending + turns == pending + [turns[0]] + turns[1..];
      StageAllAppends(pending + [turns[0]], turns[1..]);
    }
  }

  lemma StageAdds(pending: seq<Payload>, turn: Payload, known: set<Payload>)
    requires NoDuplicates(pending) && Identified(known) && turn in known
    requires forall t | t in pending :: t in known
    ensures NoDuplicates(Stage(pending, turn)) && pending <= Stage(pending, turn)
    ensures forall t :: t in Stage(pending, turn) <==> t in pending || t == turn
  {
  }
}
