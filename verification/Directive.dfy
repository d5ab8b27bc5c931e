/** Which buffer-size decision a client acts on, and when, given stamps that repeat,
    overtake each other and go missing. */
module Directive {
  import opened Basics
  import opened Messages

  /** What ranks decisions: the seq, then the relay id, a missing id lowest. */
  datatype Key = Key(decisionSeq: u32, relayId: Option<u64>)

  predicate Below(a: Key, b: Key) {
    || a.decisionSeq < b.decisionSeq
    || (a.decisionSeq == b.decisionSeq && b.relayId.Some?
        && (a.relayId.None? || a.relayId.value < b.relayId.value))
  }

  function KeyOf(d: BufferDirective): Key {
    Key(d.decisionSeq, d.authorityRelayId)
  }

  const NOTHING_SEEN := Key(0, None)

  datatype Tracker = Tracker(highest: Key, pending: Option<BufferDirective>)

  const NewTracker := Tracker(NOTHING_SEEN, None)

  function Observe(t: Tracker, d: BufferDirective, nextFrame: u32): Tracker {
    if Below(t.highest, KeyOf(d))
    then Tracker(KeyOf(d), if d.applyAtFrame >= nextFrame then Some(d) else None)
    else t
  }

  function Due(t: Tracker, nextFrame: u32): Option<BufferDirective> {
    if t.pending.Some? && t.pending.value.applyAtFrame <= nextFrame then t.pending else None
  }

  function AfterPoll(t: Tracker, nextFrame: u32): Tracker {
    if Due(t, nextFrame).Some? then t.(pending := None) else t
  }

  class DirectiveTracker {
    var highestSeq: u32
    var highestSeqTiebreak: Option<u64>
    var pending: Option<BufferDirective>

    ghost function View(): Tracker
      reads this
    {
      Tracker(Key(highestSeq, highestSeqTiebreak), pending)
    }

    constructor ()
      ensures View() == NewTracker
    {
      highestSeq, highestSeqTiebreak, pending := 0, None, None;
    }

    method ObserveStamp(directive: BufferDirective, nextFrame: u32)
      modifies this
      ensures View() == Observe(old(View()), directive, nextFrame)
    {
      if directive.decisionSeq < highestSeq {
        return;
      }
      if directive.decisionSeq == highestSeq {
        if directive.authorityRelayId.None? {
          return;
        }
        if highestSeqTiebreak.Some? && directive.authorityRelayId.value <= highestSeqTiebreak.value {
          return;
        }
      }
      highestSeq := directive.decisionSeq;
      highestSeqTiebreak := directive.authorityRelayId;
      pending := if directive.applyAtFrame >= nextFrame then Some(directive) else None;
    }

    method TakeDue(nextFrame: u32) returns (due: Option<BufferDirective>)
      modifies this`pending
      ensures due == Due(old(View()), nextFrame)
      ensures View() == AfterPoll(old(View()), nextFrame)
    {
      due := None;
      if pending.Some? && pending.value.applyAtFrame <= nextFrame {
        due := pending;
        pending := None;
      }
    }
  }

  // The decision in force after a list of stamps.

  function KeyOrFloor(d: Option<BufferDirective>): Key {
    if d.Some? then KeyOf(d.value) else NOTHING_SEEN
  }

  /** The earliest stamp of the highest rank, if any ranks above nothing. */
  ghost predicate IsWinner(stamps: seq<BufferDirective>, w: Option<BufferDirective>) {
    && (forall i | 0 <= i < |stamps| :: !Below(KeyOrFloor(w), KeyOf(stamps[i])))
    && (w.Some? ==>
          && Below(NOTHING_SEEN, KeyOf(w.value))
          && exists k | 0 <= k < |stamps| ::
               && stamps[k] == w.value
               && forall i | 0 <= i < k :: KeyOf(stamps[i]) != KeyOf(w.value))
  }

  /** In plain terms: no stamp has a higher seq; of those with the same seq, none has
      a higher relay id, and none has one if the winner has none; and it is the first
      with its seq and id. There is no winner exactly when every stamp has seq 0 and
      no id. */
  lemma WinnerInPlainTerms(stamps: seq<BufferDirective>, w: Option<BufferDirective>)
    ensures IsWinner(stamps, w) <==>
            match w
            case None =>
              forall i | 0 <= i < |stamps| :: stamps[i].decisionSeq == 0 && stamps[i].authorityRelayId == None
            case Some(v) =>
              && (v.decisionSeq > 0 || v.authorityRelayId != None)
              && (forall i | 0 <= i < |stamps| ::
                    var d := stamps[i];
                    && d.decisionSeq <= v.decisionSeq
                    && (d.decisionSeq == v.decisionSeq && d.authorityRelayId.Some? ==>
                          v.authorityRelayId.Some? && d.authorityRelayId.value <= v.authorityRelayId.value))
              && exists k | 0 <= k < |stamps| ::
                   && stamps[k] == v
                   && forall i | 0 <= i < k ::
                        stamps[i].decisionSeq != v.decisionSeq || stamps[i].authorityRelayId != v.authorityRelayId
  {
    if w.Some? {
      var v := w.value;
      forall i | 0 <= i < |stamps|
        ensures !Below(KeyOf(v), KeyOf(stamps[i])) <==>
                && stamps[i].decisionSeq <= v.decisionSeq
                && (stamps[i].decisionSeq == v.decisionSeq && stamps[i].authorityRelayId.Some? ==>
                      v.authorityRelayId.Some? && stamps[i].authorityRelayId.value <= v.authorityRelayId.value)
      {
      }
    }
  }

  lemma WinnerIsUnique(stamps: seq<BufferDirective>, v: Option<BufferDirective>, w: Option<BufferDirective>)
    requires IsWinner(stamps, v) && IsWinner(stamps, w)
    ensures v == w
  {
    if v.Some? {
      assert v.value in stamps;
    }
    if w.Some? {
      assert w.value in stamps;
    }
  }

  lemma WinnerExtends(stamps: seq<BufferDirective>, w: Option<BufferDirective>, d: BufferDirective)
    requires IsWinner(stamps, w)
    ensures IsWinner(stamps + [d], if Below(KeyOrFloor(w), KeyOf(d)) then Some(d) else w)
  {
    if Below(KeyOrFloor(w), KeyOf(d)) {
      assert (stamps + [d])[|stamps|] == d;
    } else if w.Some? {
      var k :| 0 <= k < |stamps| && stamps[k] == w.value
               && forall i | 0 <= i < k :: KeyOf(stamps[i]) != KeyOf(w.value);
      assert (stamps + [d])[k] == w.value;
    }
  }

  ghost predicate SameStamps(a: seq<BufferDirective>, b: seq<BufferDirective>) {
    forall d :: d in a <==> d in b
  }

  ghost predicate CopiesAgree(a: seq<BufferDirective>) {
    forall i, j | 0 <= i < |a| && 0 <= j < |a| && KeyOf(a[i]) == KeyOf(a[j]) :: a[i] == a[j]
  }

  /** When equal ranks carry equal directives, the winner depends only on which
      stamps were seen: not on their order, nor on how often each came. */
  lemma WinnerIgnoresArrivalOrder(a: seq<BufferDirective>, b: seq<BufferDirective>,
                                  v: Option<BufferDirective>, w: Option<BufferDirective>)
    requires IsWinner(a, v) && IsWinner(b, w)
    requires SameStamps(a, b) && CopiesAgree(a)
    ensures v == w
  {
    if v.Some? {
      assert v.value in a && v.value in b;
    }
    if w.Some? {
      assert w.value in b && w.value in a;
    }
  }

  // One client's game loop: each frame observes its batch of stamps, then polls.

  function ObserveAll(t: Tracker, stamps: seq<BufferDirective>, frame: u32): Tracker {
    if stamps == [] then t
    else Observe(ObserveAll(t, stamps[..|stamps| - 1], frame), stamps[|stamps| - 1], frame)
  }

  /** The tracker after playing every batch, the first at frame `start`. */
  function Play(start: nat, batches: seq<seq<BufferDirective>>): Tracker
    requires start + |batches| <= U32_MAX
  {
    if batches == [] then NewTracker
    else
      var n := |batches| - 1;
      AfterPoll(ObserveAll(Play(start, batches[..n]), batches[n], start + n), start + n)
  }

  /** What frame `start + i` surfaces. */
  function SurfacedAt(start: nat, batches: seq<seq<BufferDirective>>, i: nat): Option<BufferDirective>
    requires i < |batches| && start + |batches| <= U32_MAX
  {
    Due(ObserveAll(Play(start, batches[..i]), batches[i], start + i), start + i)
  }

  ghost function Seen(batches: seq<seq<BufferDirective>>): seq<BufferDirective> {
    if batches == [] then [] else Seen(batches[..|batches| - 1]) + batches[|batches| - 1]
  }

  /** The tracker's memory: its rank is the winner's, and what it still holds is
      the winner, exactly while the winner's frame is not yet past `frame`. */
  ghost predicate Remembers(t: Tracker, stamps: seq<BufferDirective>, w: Option<BufferDirective>, frame: nat) {
    && IsWinner(stamps, w)
    && t.highest == KeyOrFloor(w)
    && t.pending == if w.Some? && w.value.applyAtFrame >= frame then w else None
  }

  lemma {:induction false} ObserveAllRemembers(
      t: Tracker, before: seq<BufferDirective>, w: Option<BufferDirective>,
      stamps: seq<BufferDirective>, frame: u32) returns (w': Option<BufferDirective>)
    requires Remembers(t, before, w, frame)
    ensures Remembers(ObserveAll(t, stamps, frame), before + stamps, w', frame)
  {
    if stamps == [] {
      assert before + stamps == before;
      w' := w;
    } else {
      var front, d := stamps[..|stamps| - 1], stamps[|stamps| - 1];
      var mid := ObserveAllRemembers(t, before, w, front, frame);
      WinnerExtends(before + front, mid, d);
      assert before + front + [d] == before + stamps;
      w' := if Below(KeyOrFloor(mid), KeyOf(d)) then Some(d) else mid;
    }
  }

  lemma {:induction false} PlayRemembers(start: nat, batches: seq<seq<BufferDirective>>)
      returns (w: Option<BufferDirective>)
    requires start + |batches| <= U32_MAX
    ensures Remembers(Play(start, batches), Seen(batches), w, start + |batches|)
  {
    if batches == [] {
      w := None;
    } else {
      var n := |batches| - 1;
      var before := PlayRemembers(start, batches[..n]);
      w := ObserveAllRemembers(Play(start, batches[..n]), Seen(batches[..n]), before, batches[n], start + n);
    }
  }

  /** A frame surfaces the winner of everything observed through it when the
      winner names that very frame, and nothing otherwise. */
  lemma SurfacesExactlyTheWinner(start: nat, batches: seq<seq<BufferDirective>>, i: nat, w: Option<BufferDirective>)
    requires i < |batches| && start + |batches| <= U32_MAX
    requires IsWinner(Seen(batches[..i + 1]), w)
    ensures SurfacedAt(start, batches, i)
            == if w.Some? && w.value.applyAtFrame == start + i then w else None
  {
    var before := PlayRemembers(start, batches[..i]);
    var w' := ObserveAllRemembers(Play(start, batches[..i]), Seen(batches[..i]), before, batches[i], start + i);
    assert batches[..i + 1][..i] == batches[..i];
    assert Seen(batches[..i + 1]) == Seen(batches[..i]) + batches[i];
    WinnerIsUnique(Seen(batches[..i + 1]), w, w');
  }

  /** Two clients whose highest-ranked stamps agree by a frame make the same change
      at it, whatever else each saw or missed, and whatever frame each began at. */
  lemma ClientsAgree(startA: nat, a: seq<seq<BufferDirective>>, i: nat,
                     startB: nat, b: seq<seq<BufferDirective>>, j: nat, w: Option<BufferDirective>)
    requires i < |a| && startA + |a| <= U32_MAX && j < |b| && startB + |b| <= U32_MAX
    requires startA + i == startB + j
    requires IsWinner(Seen(a[..i + 1]), w) && IsWinner(Seen(b[..j + 1]), w)
    ensures SurfacedAt(startA, a, i) == SurfacedAt(startB, b, j)
  {
    SurfacesExactlyTheWinner(startA, a, i, w);
    SurfacesExactlyTheWinner(startB, b, j, w);
  }

  /** In particular two clients that saw the same stamps, in whatever order and
      however often. */
  lemma SameStampsAgree(startA: nat, a: seq<seq<BufferDirective>>, i: nat,
                        startB: nat, b: seq<seq<BufferDirective>>, j: nat)
    requires i < |a| && startA + |a| <= U32_MAX && j < |b| && startB + |b| <= U32_MAX
    requires startA + i == startB + j
    requires SameStamps(Seen(a[..i + 1]), Seen(b[..j + 1])) && CopiesAgree(Seen(a[..i + 1]))
    ensures SurfacedAt(startA, a, i) == SurfacedAt(startB, b, j)
  {
    var v := PlayRemembers(startA, a[..i + 1]);
    var w := PlayRemembers(startB, b[..j + 1]);
    WinnerIgnoresArrivalOrder(Seen(a[..i + 1]), Seen(b[..j + 1]), v, w);
    ClientsAgree(startA, a, i, startB, b, j, v);
  }

  // Arbitrary calls, in any order and with any frames.

  datatype Call = Stamp(directive: BufferDirective, frame: u32) | Poll(frame: u32)

  function Surfaced(t: Tracker, calls: seq<Call>): seq<BufferDirective>
    decreases |calls|
  {
    if calls == [] then []
    else match calls[0]
      case Stamp(d, frame) => Surfaced(Observe(t, d, frame), calls[1..])
      case Poll(frame) =>
        (if Due(t, frame).Some? then [Due(t, frame).value] else [])
        + Surfaced(AfterPoll(t, frame), calls[1..])
  }

  /** Each decision of `out` ranks above the one before it, and all of them
      above everything `t` has seen, except the one it still holds. */
  ghost predicate RisesFrom(t: Tracker, out: seq<BufferDirective>) {
    && (forall i, j | 0 <= i < j < |out| :: Below(KeyOf(out[i]), KeyOf(out[j])))
    && (forall i | 0 <= i < |out| :: Below(t.highest, KeyOf(out[i])) || t.pending == Some(out[i]))
  }

  /** However it is called, the tracker surfaces strictly rising decisions, so
      none of them twice. */
  lemma {:induction false} SurfacedDecisionsRise(t: Tracker, calls: seq<Call>)
    requires t.pending.Some? ==> KeyOf(t.pending.value) == t.highest
    ensures RisesFrom(t, Surfaced(t, calls))
    decreases |calls|
  {
    if calls != [] {
      match calls[0] {
        case Stamp(d, frame) =>
          SurfacedDecisionsRise(Observe(t, d, frame), calls[1..]);
          assert Surfaced(t, calls) == Surfaced(Observe(t, d, frame), calls[1..]);
        case Poll(frame) =>
          var rest := Surfaced(AfterPoll(t, frame), calls[1..]);
          SurfacedDecisionsRise(AfterPoll(t, frame), calls[1..]);
          assert Surfaced(t, calls)
              == if Due(t, frame).Some? then [Due(t, frame).value] + rest else rest;
      }
    }
  }
}
