/** The relay's turn validator: a lazy-copy walk that must equal parsing the turn
    into commands, dropping the ones a live turn may not carry, and printing the
    rest. */
module Validation {
  import opened Basics
  import opened Commands
  import opened Messages

  const RELAY_OWNED_PACING: set<byte> := {0x55, 0x5f, 0x66}
  const REPLAY_ONLY: set<byte> := {0x56, 0x5d, 0x57}
  const HOTKEY: byte := 0x13
  const SELECTION_GROUPS: byte := 18

  datatype ValidatedTurn = ValidatedTurn(payload: Payload, strippedControl: nat)

  datatype ValidationError =
    | UnknownOpcode(offset: nat, opcode: byte)
    | Truncated(offset: nat, opcode: byte)

  predicate IsStripped(command: seq<byte>) {
    if |command| >= 3 && command[0] == HOTKEY then command[2] >= SELECTION_GROUPS
    else command != [] && (command[0] in RELAY_OWNED_PACING || command[0] in REPLAY_ONLY)
  }

  /** The commands of a turn that may be forwarded, in order. */
  function Kept(cmds: seq<seq<byte>>): (kept: seq<seq<byte>>)
    ensures |kept| <= |cmds|
  {
    if cmds == [] then []
    else if IsStripped(cmds[0]) then Kept(cmds[1..])
    else [cmds[0]] + Kept(cmds[1..])
  }

  /** Parse, filter, print: what validation must forward for a turn that divides
      into `cmds`. */
  ghost function Sanitized(payload: Payload, slot: byte, cmds: seq<seq<byte>>): ValidatedTurn {
    ValidatedTurn(
      payload.(slot := slot, bufferDirective := None, commands := Concat(Kept(cmds))),
      |cmds| - |Kept(cmds)|)
  }

  /** A rejection names the first command that cannot be read: the bytes before
      it divide into whole commands, and none stands at it. */
  ghost predicate BlamesFirstBadCommand(bytes: seq<byte>, error: ValidationError) {
    && error.offset < |bytes|
    && error.opcode == bytes[error.offset]
    && (exists done :: Splits(bytes[..error.offset], done))
    && Stuck(bytes[error.offset..])
    && (error.UnknownOpcode? <==> Classify(error.opcode).None?)
  }

  /** In literal bytes: what a live turn may not carry. */
  predicate Barred(c: seq<byte>) {
    && c != []
    && (c[0] in {0x55, 0x5f, 0x66} || c[0] in {0x56, 0x5d, 0x57} || (c[0] == 0x13 && |c| >= 3 && c[2] >= 18))
  }

  /** `out` is `cmds` without its barred commands, `at` telling where each comes from. */
  ghost predicate Forwards(cmds: seq<seq<byte>>, out: seq<seq<byte>>, at: seq<nat>) {
    && |at| == |out|
    && (forall k | 0 <= k < |at| :: at[k] < |cmds| && out[k] == cmds[at[k]] && !Barred(out[k]))
    && (forall k, l | 0 <= k < l < |at| :: at[k] < at[l])
    && (forall i | 0 <= i < |cmds| :: i in at || Barred(cmds[i]))
  }

  method ValidateTurn(slot: byte, payload: Payload) returns (r: Result<ValidatedTurn, ValidationError>)
    ensures r.Ok? <==> exists cmds :: Splits(payload.commands, cmds)
    ensures forall cmds :: Splits(payload.commands, cmds) ==> r == Ok(Sanitized(payload, slot, cmds))
    ensures r.Err? ==> BlamesFirstBadCommand(payload.commands, r.error)
    ensures forall cmds | Splits(payload.commands, cmds) :: r.Ok? && exists out, at ::
              && Splits(r.value.payload.commands, out) && Forwards(cmds, out, at)
              && r.value.strippedControl == |cmds| - |out|
    ensures r.Ok? ==>
              && r.value.payload.slot == slot && r.value.payload.bufferDirective == None
              && r.value.payload.seqNo == payload.seqNo && r.value.payload.gameFrameCount == payload.gameFrameCount
              && r.value.payload.syncGeneration == payload.syncGeneration
              && r.value.payload.stateHash == payload.stateHash
  {
    hide FixedLength, IsStripped, Kept, Stuck, IsCommand;
    NothingKept();
    var commands := payload.commands;
    var forwarded: Option<seq<byte>> := None;
    var strippedControl := 0;
    var offset := 0;
    ghost var done: seq<seq<byte>> := [];
    while offset < |commands|
      invariant 0 <= offset <= |commands|
      invariant Splits(commands[..offset], done)
      invariant forwarded.None? ==> Kept(done) == done
      invariant forwarded.Some? ==> forwarded.value == Concat(Kept(done))
      invariant strippedControl == |done| - |Kept(done)|
    {
      var rest := commands[offset..];
      var opcode := rest[0];
      DeclaredLengthDecides(rest);
      var length;
      match Classify(opcode) {
        case None =>
          StuckHasNoSplit(commands, offset, done);
          return Err(UnknownOpcode(offset, opcode));
        case Some(Fixed(n)) =>
          length := n;
        case Some(Variable(stride)) =>
          if |rest| < 2 {
            StuckHasNoSplit(commands, offset, done);
            return Err(Truncated(offset, opcode));
          }
          length := 2 + stride * rest[1];
      }
      if length > |rest| {
        StuckHasNoSplit(commands, offset, done);
        return Err(Truncated(offset, opcode));
      }
      var command := rest[..length];
      SliceOfRest(commands, offset, length);
      SplitExtends(commands, offset, length, done);
      KeptAppend(done, command);
      if IsStripped(command) {
        strippedControl := strippedControl + 1;
        if forwarded.None? {
          forwarded := Some(commands[..offset]);
        }
      } else if forwarded.Some? {
        ConcatAppend(Kept(done), [command]);
        assert Concat([command]) == command;
        forwarded := Some(forwarded.value + command);
      }
      done := done + [command];
      offset := offset + length;
    }
    assert commands[..offset] == commands;
    forall cmds | Splits(commands, cmds) ensures cmds == done {
      SplitIsUnique(commands, cmds, done);
    }
    SanitizingForwards(payload, slot, done);
    var sanitized := payload.(slot := slot, bufferDirective := None);
    if forwarded.Some? {
      sanitized := sanitized.(commands := forwarded.value);
    }
    return Ok(ValidatedTurn(sanitized, strippedControl));
  }

  /** Filtering drops exactly the barred commands and keeps the rest in order. */
  lemma {:induction false} KeptForwards(cmds: seq<seq<byte>>) returns (at: seq<nat>)
    ensures Forwards(cmds, Kept(cmds), at)
  {
    hide IsStripped, Barred, Kept;
    if cmds == [] {
      NothingKept();
      at := [];
    } else {
      hide Forwards;
      var front, c := cmds[..|cmds| - 1], cmds[|cmds| - 1];
      var before := KeptForwards(front);
      KeptAppend(front, c);
      StrippedIsBarred(c);
      assert cmds == front + [c];
      at := if IsStripped(c) then before else before + [|front|];
      ForwardsOneMore(front, Kept(front), before, c);
    }
  }

  lemma StrippedIsBarred(c: seq<byte>)
    ensures IsStripped(c) <==> Barred(c)
  {
  }

  lemma ForwardsOneMore(cmds: seq<seq<byte>>, out: seq<seq<byte>>, at: seq<nat>, c: seq<byte>)
    requires Forwards(cmds, out, at)
    ensures if Barred(c) then Forwards(cmds + [c], out, at) else Forwards(cmds + [c], out + [c], at + [|cmds|])
  {
    hide Barred;
    var cmds', at' := cmds + [c], at + [|cmds|];
    assert cmds'[|cmds|] == c && at'[|at|] == |cmds|;
    assert forall i | 0 <= i < |cmds| :: cmds'[i] == cmds[i];
    assert forall k | 0 <= k < |at| :: at'[k] == at[k];
  }

  lemma SanitizingForwards(payload: Payload, slot: byte, cmds: seq<seq<byte>>)
    requires forall i | 0 <= i < |cmds| :: IsCommand(cmds[i])
    ensures var turn := Sanitized(payload, slot, cmds);
            exists out, at ::
              && Splits(turn.payload.commands, out) && Forwards(cmds, out, at)
              && turn.strippedControl == |cmds| - |out|
  {
    var at := KeptForwards(cmds);
    KeptIsFixpoint(cmds);
    hide Kept, Forwards;
    assert Splits(Sanitized(payload, slot, cmds).payload.commands, Kept(cmds));
  }

  lemma SliceOfRest(bytes: seq<byte>, i: nat, n: nat)
    requires i + n <= |bytes|
    ensures bytes[i..][..n] == bytes[i..i + n]
  {
  }

  lemma NothingKept()
    ensures Kept([]) == []
  {
  }

  lemma {:induction false} KeptAppend(cmds: seq<seq<byte>>, c: seq<byte>)
    ensures Kept(cmds + [c]) == if IsStripped(c) then Kept(cmds) else Kept(cmds) + [c]
  {
    hide IsStripped;
    if cmds != [] {
      assert (cmds + [c])[1..] == cmds[1..] + [c];
      KeptAppend(cmds[1..], c);
    } else {
      assert cmds + [c] == [c];
    }
  }

  /** Filtering keeps a division a division, leaves nothing further to strip and
      never lengthens the turn. */
  lemma {:induction false} KeptIsFixpoint(cmds: seq<seq<byte>>)
    requires forall i | 0 <= i < |cmds| :: IsCommand(cmds[i])
    ensures Splits(Concat(Kept(cmds)), Kept(cmds))
    ensures Kept(Kept(cmds)) == Kept(cmds)
    ensures |Concat(Kept(cmds))| <= |Concat(cmds)|
    ensures |Kept(cmds)| == |cmds| ==> Kept(cmds) == cmds
  {
    if cmds != [] {
      KeptIsFixpoint(cmds[1..]);
      if !IsStripped(cmds[0]) {
        assert Kept(cmds)[1..] == Kept(cmds[1..]);
        assert forall i | 0 < i < |Kept(cmds)| :: Kept(cmds)[i] == Kept(cmds[1..])[i - 1];
      }
    }
  }

  /** Validating a forwarded turn again accepts it, strips nothing and returns
      the same bytes; a turn from which nothing was stripped is forwarded byte
      for byte; no turn grows. */
  lemma SanitizingIsIdempotent(payload: Payload, slot: byte, again: byte, cmds: seq<seq<byte>>)
    requires Splits(payload.commands, cmds)
    ensures var once := Sanitized(payload, slot, cmds);
            && Splits(once.payload.commands, Kept(cmds))
            && Sanitized(once.payload, again, Kept(cmds)) == ValidatedTurn(once.payload.(slot := again), 0)
            && |once.payload.commands| <= |payload.commands|
            && (once.strippedControl == 0 ==> once.payload.commands == payload.commands)
  {
    KeptIsFixpoint(cmds);
  }
}
