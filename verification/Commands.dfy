/** The turn-command length table and the split of a byte stream into commands. */
module Commands {
  import opened Basics

  datatype CommandLength = Fixed(n: nat) | Variable(stride: nat)

  /** Total length per opcode; 0 marks an opcode without a fixed length. */
  function FixedLength(op: byte): byte {
    match op
    case 0x05 | 0x08 | 0x10 | 0x11 | 0x18 | 0x19 | 0x1b | 0x1c | 0x1d | 0x27 |
         0x2a | 0x2e | 0x31 | 0x33 | 0x34 | 0x36 | 0x5a => 1
    case 0x0f | 0x1a | 0x1e | 0x21 | 0x22 | 0x25 | 0x26 | 0x28 | 0x2b | 0x2c |
         0x2d | 0x30 | 0x32 | 0x55 | 0x57 | 0x5f => 2
    case 0x0d | 0x13 | 0x1f | 0x20 | 0x23 | 0x29 | 0x35 => 3
    case 0x66 => 4
    case 0x0e | 0x12 | 0x2f | 0x58 | 0x5d | 0x62 => 5
    case 0x37 => 7
    case 0x0c => 8
    case 0x14 | 0x56 => 10
    case 0x15 => 11
    case 0x60 => 12
    case 0x61 => 13
    case 0x5c => 82
    case _ => 0
  }

  function Classify(op: byte): Option<CommandLength> {
    if 0x09 <= op <= 0x0B then Some(Variable(2))
    else if 0x63 <= op <= 0x65 then Some(Variable(4))
    else if FixedLength(op) != 0 then Some(Fixed(FixedLength(op)))
    else None
  }

  /** The length the command at the start of `buf` declares, which may exceed
      `buf`; `None` when `buf` does not even determine a length. */
  function DeclaredLength(buf: seq<byte>): (r: Option<nat>)
    ensures r.Some? ==> buf != [] && r.value > 0
  {
    if buf == [] then None
    else match Classify(buf[0])
      case None => None
      case Some(Fixed(n)) => Some(n)
      case Some(Variable(stride)) =>
        if |buf| < 2 then None else Some(2 + stride * buf[1])
  }

  /** Lengths of well-known commands, and opcodes no turn may hold, in plain numbers. */
  lemma KnownLengths(buf: seq<byte>)
    requires buf != []
    ensures buf[0] == 0x0C ==> DeclaredLength(buf) == Some(8)
    ensures buf[0] in {0x0D, 0x13} ==> DeclaredLength(buf) == Some(3)
    ensures buf[0] == 0x0E ==> DeclaredLength(buf) == Some(5)
    ensures buf[0] == 0x14 ==> DeclaredLength(buf) == Some(10)
    ensures buf[0] == 0x15 ==> DeclaredLength(buf) == Some(11)
    ensures buf[0] == 0x37 ==> DeclaredLength(buf) == Some(7)
    ensures buf[0] == 0x60 ==> DeclaredLength(buf) == Some(12)
    ensures buf[0] == 0x61 ==> DeclaredLength(buf) == Some(13)
    ensures buf[0] == 0x5C ==> DeclaredLength(buf) == Some(82)
    ensures buf[0] == 0x66 ==> DeclaredLength(buf) == Some(4)
    ensures buf[0] in {0x09, 0x0A, 0x0B} ==>
              DeclaredLength(buf) == if |buf| < 2 then None else Some(2 + 2 * (buf[1] as int))
    ensures buf[0] in {0x63, 0x64, 0x65} ==>
              DeclaredLength(buf) == if |buf| < 2 then None else Some(2 + 4 * (buf[1] as int))
    ensures buf[0] in {0x00, 0x04, 0x06, 0x07, 0x16, 0x17, 0x24, 0x38, 0x40, 0x54, 0x59} || buf[0] > 0x66 ==>
              DeclaredLength(buf) == None
  {
  }

  /** Exactly one whole command of the table. */
  predicate IsCommand(c: seq<byte>) {
    DeclaredLength(c) == Some(|c|)
  }

  function Concat(cmds: seq<seq<byte>>): seq<byte> {
    if cmds == [] then [] else cmds[0] + Concat(cmds[1..])
  }

  /** `cmds` is a division of `bytes` into whole commands. */
  ghost predicate Splits(bytes: seq<byte>, cmds: seq<seq<byte>>) {
    && (forall i | 0 <= i < |cmds| :: IsCommand(cmds[i]))
    && bytes == Concat(cmds)
  }

  /** No whole command stands at the start of `bytes`. */
  ghost predicate Stuck(bytes: seq<byte>) {
    forall n | 0 <= n <= |bytes| :: !IsCommand(bytes[..n])
  }

  /** The command at the start of a buffer is a command of the same declared
      length whatever follows it. */
  lemma CommandIsPrefixDetermined(c: seq<byte>, rest: seq<byte>)
    requires IsCommand(c)
    ensures DeclaredLength(c + rest) == Some(|c|)
  {
    assert (c + rest)[0] == c[0];
    if Classify(c[0]).value.Variable? {
      assert (c + rest)[1] == c[1];
    }
  }

  /** The declared length decides whether a whole command stands at the start. */
  lemma DeclaredLengthDecides(bytes: seq<byte>)
    ensures DeclaredLength(bytes).Some? && DeclaredLength(bytes).value <= |bytes|
            ==> IsCommand(bytes[..DeclaredLength(bytes).value])
    ensures DeclaredLength(bytes).None? || DeclaredLength(bytes).value > |bytes| ==> Stuck(bytes)
  {
    forall n | 0 <= n <= |bytes| && IsCommand(bytes[..n])
      ensures DeclaredLength(bytes) == Some(n)
    {
      CommandIsPrefixDetermined(bytes[..n], bytes[n..]);
      assert bytes[..n] + bytes[n..] == bytes;
    }
  }

  lemma {:induction false} ConcatAppend(a: seq<seq<byte>>, b: seq<seq<byte>>)
    ensures Concat(a + b) == Concat(a) + Concat(b)
  {
    if a == [] {
      assert a + b == b;
    } else {
      assert (a + b)[1..] == a[1..] + b;
      ConcatAppend(a[1..], b);
    }
  }

  /** A division of a stream that starts with a command starts with it too. */
  lemma SplitStartsWith(bytes: seq<byte>, c: seq<byte>, rest: seq<byte>, cmds: seq<seq<byte>>)
    requires IsCommand(c) && bytes == c + rest && Splits(bytes, cmds)
    ensures cmds != [] && cmds[0] == c && Splits(bytes[|c|..], cmds[1..])
  {
    CommandIsPrefixDetermined(c, rest);
    CommandIsPrefixDetermined(cmds[0], Concat(cmds[1..]));
    assert cmds[0] == bytes[..|c|];
    assert bytes[|c|..] == Concat(cmds[1..]);
  }

  /** Commands form a prefix code: a division of a prefix is a prefix of every
      division of the whole. */
  lemma {:induction false} SplitsShareTheirPrefix(bytes: seq<byte>, k: nat, done: seq<seq<byte>>, cmds: seq<seq<byte>>)
    requires k <= |bytes|
    requires Splits(bytes[..k], done) && Splits(bytes, cmds)
    ensures |done| <= |cmds| && done == cmds[..|done|]
    ensures Splits(bytes[k..], cmds[|done|..])
    decreases |done|
  {
    hide FixedLength;
    if done == [] {
      assert bytes[k..] == bytes;
    } else {
      var c := done[0];
      assert bytes == c + (Concat(done[1..]) + bytes[k..]);
      SplitStartsWith(bytes, c, Concat(done[1..]) + bytes[k..], cmds);
      var rest := bytes[|c|..];
      assert rest[..k - |c|] == Concat(done[1..]);
      SplitsShareTheirPrefix(rest, k - |c|, done[1..], cmds[1..]);
      assert rest[k - |c|..] == bytes[k..];
      assert cmds[1..][|done| - 1..] == cmds[|done|..];
      assert cmds[..|done|] == [cmds[0]] + cmds[1..][..|done| - 1];
    }
  }

  /** A byte stream divides into commands in at most one way. */
  lemma SplitIsUnique(bytes: seq<byte>, a: seq<seq<byte>>, b: seq<seq<byte>>)
    requires Splits(bytes, a) && Splits(bytes, b)
    ensures a == b
  {
    assert bytes[..|bytes|] == bytes;
    SplitsShareTheirPrefix(bytes, |bytes|, a, b);
    SplitsShareTheirPrefix(bytes, |bytes|, b, a);
  }

  lemma DivisibleIsNotStuck(bytes: seq<byte>, cmds: seq<seq<byte>>)
    requires bytes != [] && Splits(bytes, cmds)
    ensures !Stuck(bytes)
  {
    assert bytes[..|cmds[0]|] == cmds[0];
  }

  /** A stream that gets stuck after a divided prefix has no division. */
  lemma StuckHasNoSplit(bytes: seq<byte>, k: nat, done: seq<seq<byte>>)
    requires k < |bytes|
    requires Splits(bytes[..k], done) && Stuck(bytes[k..])
    ensures forall cmds :: !Splits(bytes, cmds)
  {
    forall cmds ensures !Splits(bytes, cmds) {
      if Splits(bytes, cmds) {
        SplitsShareTheirPrefix(bytes, k, done, cmds);
        DivisibleIsNotStuck(bytes[k..], cmds[|done|..]);
      }
    }
  }

  /** Appending one command extends a division by one. */
  lemma SplitExtends(bytes: seq<byte>, k: nat, n: nat, done: seq<seq<byte>>)
    requires k + n <= |bytes|
    requires Splits(bytes[..k], done) && IsCommand(bytes[k..k + n])
    ensures Splits(bytes[..k + n], done + [bytes[k..k + n]])
  {
    var c := bytes[k..k + n];
    ConcatAppend(done, [c]);
    assert Concat([c]) == c;
    assert bytes[..k + n] == bytes[..k] + c;
  }
}
