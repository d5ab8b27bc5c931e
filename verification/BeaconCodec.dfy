/** The ack-beacon frame and the push-on-advance writer that emits it. */
module BeaconCodec {
  import opened Basics
  import opened Arithmetic
  import opened Messages

  const SLOT_LEN: nat := 4
  const CURSOR_LEN: nat := 8
  const BEACON_FRAME_LEN: nat := SLOT_LEN + CURSOR_LEN

  /** A slot's delivered-through cursor. */
  type Cursor = (SlotId, u64)

  datatype DecodeFrameError = BadLength(length: nat) | BadSlot(raw: nat)

  function Pow256(n: nat): (p: nat)
    ensures p > 0
  {
    if n == 0 then 1 else 256 * Pow256(n - 1)
  }

  function ToLe(n: nat, width: nat): (b: seq<byte>)
    ensures |b| == width
  {
    if width == 0 then [] else [n % 256] + ToLe(n / 256, width - 1)
  }

  function FromLe(b: seq<byte>): nat {
    if b == [] then 0 else b[0] + 256 * FromLe(b[1..])
  }

  lemma {:induction false} LeDecodesEncoded(n: nat, width: nat)
    requires n < Pow256(width)
    ensures FromLe(ToLe(n, width)) == n
  {
    if width > 0 {
      LeDecodesEncoded(n / 256, width - 1);
      assert ToLe(n, width)[1..] == ToLe(n / 256, width - 1);
    }
  }

  lemma {:induction false} LeEncodesDecoded(b: seq<byte>)
    ensures FromLe(b) < Pow256(|b|) && ToLe(FromLe(b), |b|) == b
  {
    if b != [] {
      LeEncodesDecoded(b[1..]);
      DivModUnique(FromLe(b), 256, FromLe(b[1..]), b[0]);
    }
  }

  function EncodeFrame(c: Cursor): (frame: seq<byte>)
    ensures |frame| == BEACON_FRAME_LEN
  {
    ToLe(c.0, SLOT_LEN) + ToLe(c.1, CURSOR_LEN)
  }

  function DecodeFrame(bytes: seq<byte>): Result<Cursor, DecodeFrameError> {
    if |bytes| != BEACON_FRAME_LEN then Err(BadLength(|bytes|))
    else
      var slot, cursor := FromLe(bytes[..SLOT_LEN]), FromLe(bytes[SLOT_LEN..]);
      if slot > 0xFF then Err(BadSlot(slot))
      else
        LeEncodesDecoded(bytes[SLOT_LEN..]);
        CursorFits();
        Ok((slot, cursor))
  }

  /** The frame byte by byte: the slot in the first of four bytes, and the cursor in
      the other eight, its lowest byte first. */
  lemma FrameLayout(c: Cursor)
    ensures var frame := EncodeFrame(c);
            && |frame| == 12 && frame[0] == c.0 && frame[1] == 0 && frame[2] == 0 && frame[3] == 0
            && forall i | 0 <= i < 8 :: frame[4 + i] == c.1 / Pow256(i) % 256
  {
    assert ToLe(c.0 / 256, 3) == [0, 0, 0] by {
      LeByte(0, 3, 0);
      LeByte(0, 3, 1);
      LeByte(0, 3, 2);
    }
    forall i | 0 <= i < 8 ensures ToLe(c.1, 8)[i] == c.1 / Pow256(i) % 256 {
      LeByte(c.1, 8, i);
    }
  }

  lemma {:induction false} LeByte(n: nat, width: nat, i: nat)
    requires i < width
    ensures ToLe(n, width)[i] == n / Pow256(i) % 256
  {
    if i > 0 {
      LeByte(n / 256, width - 1, i - 1);
      NestedDivision(n, 256, Pow256(i - 1));
    }
  }

  lemma CursorFits()
    ensures Pow256(SLOT_LEN) == U32_MAX + 1 && Pow256(CURSOR_LEN) == U64_MAX + 1
  {
    assert Pow256(4) == 256 * (256 * (256 * (256 * Pow256(0))));
    assert Pow256(8) == 256 * (256 * (256 * (256 * Pow256(4))));
  }

  lemma FrameRoundTrips(c: Cursor)
    ensures DecodeFrame(EncodeFrame(c)) == Ok(c)
  {
    CursorFits();
    LeDecodesEncoded(c.0, SLOT_LEN);
    LeDecodesEncoded(c.1, CURSOR_LEN);
    assert EncodeFrame(c)[..SLOT_LEN] == ToLe(c.0, SLOT_LEN);
    assert EncodeFrame(c)[SLOT_LEN..] == ToLe(c.1, CURSOR_LEN);
  }

  /** A frame decodes exactly when it is some cursor's encoding. */
  lemma OnlyFramesDecode(bytes: seq<byte>)
    ensures DecodeFrame(bytes).Ok? <==> exists c :: EncodeFrame(c) == bytes
    ensures DecodeFrame(bytes).Ok? ==> EncodeFrame(DecodeFrame(bytes).value) == bytes
  {
    if DecodeFrame(bytes).Ok? {
      LeEncodesDecoded(bytes[..SLOT_LEN]);
      LeEncodesDecoded(bytes[SLOT_LEN..]);
      assert bytes[..SLOT_LEN] + bytes[SLOT_LEN..] == bytes;
    }
    forall c: Cursor ensures DecodeFrame(EncodeFrame(c)) == Ok(c) {
      FrameRoundTrips(c);
    }
  }

  function EncodeAll(cursors: seq<Cursor>): (bytes: seq<byte>)
    ensures |bytes| == |cursors| * BEACON_FRAME_LEN
  {
    if cursors == [] then [] else EncodeAll(cursors[..|cursors| - 1]) + EncodeFrame(cursors[|cursors| - 1])
  }

  lemma {:induction false} FrameOfBatch(cursors: seq<Cursor>, k: nat)
    requires k < |cursors|
    ensures EncodeAll(cursors)[k * BEACON_FRAME_LEN..(k + 1) * BEACON_FRAME_LEN] == EncodeFrame(cursors[k])
  {
    hide EncodeFrame;
    var front, last := cursors[..|cursors| - 1], cursors[|cursors| - 1];
    var lo, hi := k * BEACON_FRAME_LEN, (k + 1) * BEACON_FRAME_LEN;
    assert EncodeAll(cursors) == EncodeAll(front) + EncodeFrame(last);
    if k < |front| {
      FrameOfBatch(front, k);
      assert EncodeAll(cursors)[lo..hi] == EncodeAll(front)[lo..hi];
    } else {
      assert EncodeAll(cursors)[lo..hi] == EncodeFrame(last);
    }
  }

  // The writer.

  /** The cursors of a slot climb. */
  ghost predicate Climbs(cursors: seq<Cursor>) {
    forall i, j | 0 <= i < j < |cursors| && cursors[i].0 == cursors[j].0 :: cursors[i].1 < cursors[j].1
  }

  ghost predicate OnePerSlot(cursors: seq<Cursor>) {
    forall i, j | 0 <= i < j < |cursors| :: cursors[i].0 != cursors[j].0
  }

  predicate Advances(last: map<SlotId, u64>, c: Cursor) {
    c.0 in last ==> last[c.0] < c.1
  }

  /** The cursors that moved past what was last sent for their slot. */
  function Advancing(last: map<SlotId, u64>, cursors: seq<Cursor>): seq<Cursor> {
    if cursors == [] then []
    else
      var front, c := Advancing(last, cursors[..|cursors| - 1]), cursors[|cursors| - 1];
      if Advances(last, c) then front + [c] else front
  }

  function Remember(last: map<SlotId, u64>, cursors: seq<Cursor>): map<SlotId, u64> {
    if cursors == [] then last
    else
      var c := cursors[|cursors| - 1];
      Remember(last, cursors[..|cursors| - 1])[c.0 := c.1]
  }

  /** `last` is the newest cursor written for each slot. */
  ghost predicate Summarizes(last: map<SlotId, u64>, written: seq<Cursor>) {
    && (forall i | 0 <= i < |written| :: written[i].0 in last && written[i].1 <= last[written[i].0])
    && (forall slot | slot in last :: (slot, last[slot]) in written)
  }

  class BeaconWriter {
    var lastSent: map<SlotId, u64>
    var writeBuf: seq<byte>
    ghost var written: seq<Cursor>

    ghost predicate Valid()
      reads this
    {
      Climbs(written) && Summarizes(lastSent, written)
    }

    constructor ()
      ensures Valid() && written == []
    {
      lastSent, writeBuf, written := map[], [], [];
    }

    /** One batch: exactly the cursors that advanced, in one write; a failed write
        leaves the record of what was sent alone. */
    method Flush(deliveredThrough: seq<Cursor>, writeOk: bool)
      requires Valid() && OnePerSlot(deliveredThrough)
      modifies this
      ensures Valid()
      ensures writeBuf == EncodeAll(Advancing(old(lastSent), deliveredThrough))
      ensures written == if writeOk then old(written) + Advancing(old(lastSent), deliveredThrough) else old(written)
      ensures !writeOk ==> lastSent == old(lastSent)
      ensures writeOk ==> forall c | c in deliveredThrough ::
                && c.0 in lastSent && lastSent[c.0] >= c.1
                && (c in written || (c.0 in old(lastSent) && old(lastSent)[c.0] >= c.1))
      ensures forall c | c in written && c !in old(written) ::
                c in deliveredThrough && (c.0 in old(lastSent) ==> old(lastSent)[c.0] < c.1)
    {
      hide Climbs, Summarizes, OnePerSlot, Advancing, Remember, EncodeAll;
      EncodeAdvancing(deliveredThrough);
      ghost var batch := Advancing(lastSent, deliveredThrough);
      FlushCovers(written, lastSent, deliveredThrough);
      if |writeBuf| == 0 || !writeOk {
        assert |batch| == 0 ==> written + batch == written;
        return;
      }
      BatchClimbs(written, lastSent, deliveredThrough);
      RecordBatch(batch);
      written := written + batch;
    }

    method EncodeAdvancing(deliveredThrough: seq<Cursor>)
      modifies this`writeBuf
      ensures writeBuf == EncodeAll(Advancing(lastSent, deliveredThrough))
    {
      hide EncodeFrame;
      writeBuf := [];
      var i := 0;
      while i < |deliveredThrough|
        invariant 0 <= i <= |deliveredThrough|
        invariant writeBuf == EncodeAll(Advancing(lastSent, deliveredThrough[..i]))
      {
        var c := deliveredThrough[i];
        assert deliveredThrough[..i + 1][..i] == deliveredThrough[..i];
        ghost var batch := Advancing(lastSent, deliveredThrough[..i]);
        assert (batch + [c])[..|batch|] == batch;
        if !(c.0 in lastSent && lastSent[c.0] >= c.1) {
          writeBuf := writeBuf + EncodeFrame(c);
        }
        i := i + 1;
      }
      assert deliveredThrough[..i] == deliveredThrough;
    }

    /** Reads the cursors back out of the buffer that was just written. */
    method RecordBatch(ghost batch: seq<Cursor>)
      requires writeBuf == EncodeAll(batch)
      modifies this`lastSent
      ensures lastSent == Remember(old(lastSent), batch)
    {
      hide EncodeFrame, DecodeFrame, EncodeAll;
      var k := 0;
      while (k + 1) * BEACON_FRAME_LEN <= |writeBuf|
        invariant 0 <= k <= |batch|
        invariant lastSent == Remember(old(lastSent), batch[..k])
      {
        FrameOfBatch(batch, k);
        FrameRoundTrips(batch[k]);
        var frame := DecodeFrame(writeBuf[k * BEACON_FRAME_LEN..(k + 1) * BEACON_FRAME_LEN]);
        assert batch[..k + 1][..k] == batch[..k];
        lastSent := lastSent[frame.value.0 := frame.value.1];
        k := k + 1;
      }
      assert batch[..k] == batch;
    }
  }

  lemma {:induction false} AdvancingComesFrom(last: map<SlotId, u64>, cursors: seq<Cursor>)
    requires OnePerSlot(cursors)
    ensures OnePerSlot(Advancing(last, cursors))
    ensures forall c | c in Advancing(last, cursors) :: c in cursors && Advances(last, c)
  {
    if cursors != [] {
      var front, c := cursors[..|cursors| - 1], cursors[|cursors| - 1];
      AdvancingComesFrom(last, front);
      var kept := Advancing(last, front);
      forall i | 0 <= i < |kept| ensures kept[i].0 != c.0 {
        assert kept[i] in front;
        var k :| 0 <= k < |front| && front[k] == kept[i];
        assert cursors[k].0 != cursors[|front|].0;
      }
    }
  }

  /** Every cursor given is sent, or was already covered by what was last sent. */
  lemma {:induction false} AdvancingIsComplete(last: map<SlotId, u64>, cursors: seq<Cursor>, c: Cursor)
    requires c in cursors
    ensures c in Advancing(last, cursors) || (c.0 in last && last[c.0] >= c.1)
  {
    var front := cursors[..|cursors| - 1];
    if c in front {
      AdvancingIsComplete(last, front, c);
    }
  }

  /** What one flush promises its caller. */
  lemma FlushCovers(written: seq<Cursor>, last: map<SlotId, u64>, cursors: seq<Cursor>)
    requires Climbs(written) && Summarizes(last, written) && OnePerSlot(cursors)
    ensures var batch := Advancing(last, cursors);
            var last' := Remember(last, batch);
            && (forall c | c in cursors ::
                  && c.0 in last' && last'[c.0] >= c.1
                  && (c in written + batch || (c.0 in last && last[c.0] >= c.1)))
            && (forall c | c in batch :: c in cursors && (c.0 in last ==> last[c.0] < c.1))
            && (batch == [] ==> last' == last)
  {
    AdvancingComesFrom(last, cursors);
    BatchClimbs(written, last, cursors);
    hide Climbs, OnePerSlot, Advancing;
    var batch := Advancing(last, cursors);
    var last' := Remember(last, batch);
    forall c | c in cursors
      ensures c.0 in last' && last'[c.0] >= c.1 && (c in written + batch || (c.0 in last && last[c.0] >= c.1))
    {
      AdvancingIsComplete(last, cursors, c);
      var newest := if c in batch then c else (c.0, last[c.0]);
      SummaryCovers(last', written + batch, newest);
    }
  }

  lemma SummaryCovers(last: map<SlotId, u64>, written: seq<Cursor>, c: Cursor)
    requires Summarizes(last, written) && c in written
    ensures c.0 in last && last[c.0] >= c.1
  {
  }

  lemma SummarizesAppend(last: map<SlotId, u64>, written: seq<Cursor>, c: Cursor)
    requires Climbs(written) && Summarizes(last, written) && Advances(last, c)
    ensures Climbs(written + [c]) && Summarizes(last[c.0 := c.1], written + [c])
  {
    var written', last' := written + [c], last[c.0 := c.1];
    assert written'[|written|] == c;
    forall slot | slot in last' ensures (slot, last'[slot]) in written' {
      if slot != c.0 {
        assert (slot, last[slot]) in written;
      }
    }
  }

  lemma {:induction false} RememberLeavesOthers(last: map<SlotId, u64>, batch: seq<Cursor>, slot: SlotId)
    requires forall i | 0 <= i < |batch| :: batch[i].0 != slot
    ensures slot in Remember(last, batch) <==> slot in last
    ensures slot in last ==> Remember(last, batch)[slot] == last[slot]
  {
    if batch != [] {
      RememberLeavesOthers(last, batch[..|batch| - 1], slot);
    }
  }

  lemma {:induction false} RememberSummarizes(last: map<SlotId, u64>, written: seq<Cursor>, batch: seq<Cursor>)
    requires Climbs(written) && Summarizes(last, written)
    requires OnePerSlot(batch) && forall i | 0 <= i < |batch| :: Advances(last, batch[i])
    ensures Climbs(written + batch) && Summarizes(Remember(last, batch), written + batch)
  {
    if batch == [] {
      assert written + batch == written;
    } else {
      var front, c := batch[..|batch| - 1], batch[|batch| - 1];
      RememberSummarizes(last, written, front);
      RememberLeavesOthers(last, front, c.0);
      SummarizesAppend(Remember(last, front), written + front, c);
      assert written + batch == written + front + [c];
    }
  }

  lemma BatchClimbs(written: seq<Cursor>, last: map<SlotId, u64>, cursors: seq<Cursor>)
    requires Climbs(written) && Summarizes(last, written) && OnePerSlot(cursors)
    ensures var batch := Advancing(last, cursors);
            Climbs(written + batch) && Summarizes(Remember(last, batch), written + batch)
  {
    AdvancingComesFrom(last, cursors);
    RememberSummarizes(last, written, Advancing(last, cursors));
  }
}
