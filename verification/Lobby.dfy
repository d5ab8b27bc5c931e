/** Setup commands and the streams that come and go under them: a numbered history,
    of which each stream carries a growing prefix through one pacer, and at the far
    end the receipts that let each command through once. */
module Lobby {
  import opened Basics
  import opened Messages
  import opened Pacing

  const LOG_MAX_COMMANDS: nat := 1024
  const LOG_MAX_BYTES: nat := 256 * 1024

  const PACE := Rate(PACE_BURST, PACE_REFILL)

  datatype LobbyCommand = LobbyCommand(slot: u32, payload: seq<byte>, seqNo: Option<nat>)

  class LobbyPacer {
    var tokens: nat
    var lastRefill: nat
    ghost const start: nat
    ghost var attempts: seq<nat>

    ghost function View(): Bucket
      reads this
    {
      Bucket(tokens, lastRefill)
    }

    /** The pacer is where a full one gets by the attempts so far. */
    ghost predicate Valid()
      reads this
    {
      Nondecreasing([start] + attempts) && View() == PacerAfter(PACE, Full(PACE, start), attempts)
    }

    ghost function Now(): nat
      reads this
    {
      ([start] + attempts)[|attempts|]
    }

    constructor (now: nat)
      ensures Valid() && attempts == [] && start == now
    {
      tokens, lastRefill, start, attempts := PACE_BURST, now, now, [];
    }

    method Refill(now: nat)
      modifies this`tokens, this`lastRefill
      ensures View() == PacerRefill(PACE, old(View()), now)
      ensures old(tokens) <= 16 && old(lastRefill) <= now ==>
                tokens == Min(old(tokens) + (now - old(lastRefill)) / 400_000_000, 16)
    {
      var whole := Min(SaturatingSub(now, lastRefill) / PACE_REFILL, U32_MAX);
      tokens := Min(Min(tokens + whole, U32_MAX), PACE_BURST);
      if tokens == PACE_BURST {
        lastRefill := now;
      } else {
        lastRefill := lastRefill + PACE_REFILL * whole;
      }
    }

    method TryTake(now: nat) returns (ok: bool)
      requires Valid() && Now() <= now
      modifies this
      ensures Valid() && attempts == old(attempts) + [now] && Now() == now
      ensures ok == PacerTakes(PACE, old(View()), now) && View() == AfterPacer(PACE, old(View()), now)
      ensures ok <==> old(tokens) > 0 || now - old(lastRefill) >= 400_000_000
      ensures tokens == SaturatingSub(Min(old(tokens) + SaturatingSub(now, old(lastRefill)) / 400_000_000, 16), 1)
    {
      hide PacerRefill, PacerTakes, AfterPacer, PacerAfter, Nondecreasing;
      GrantsWhenDue(now);
      AttemptAppended(start, attempts, now);
      LaterAttempt([start] + attempts, now);
      assert [start] + (attempts + [now]) == [start] + attempts + [now];
      ok := Take(now);
      attempts := attempts + [now];
    }

    method Take(now: nat) returns (ok: bool)
      modifies this`tokens, this`lastRefill
      ensures ok == PacerTakes(PACE, old(View()), now) && View() == AfterPacer(PACE, old(View()), now)
    {
      hide PacerRefill;
      Refill(now);
      ok := tokens > 0;
      if ok {
        tokens := tokens - 1;
      }
    }

    lemma GrantsWhenDue(now: nat)
      requires Valid() && Now() <= now
      ensures PacerTakes(PACE, View(), now) <==> tokens > 0 || now - lastRefill >= 400_000_000
      ensures AfterPacer(PACE, View(), now).tokens
           == SaturatingSub(Min(tokens + SaturatingSub(now, lastRefill) / 400_000_000, 16), 1)
    {
      hide PacerRefill, PacerAfter, Nondecreasing;
      StaysInBounds();
      TokenExactlyWhenDue(PACE, View(), now);
      EarnedInNumbers(View(), now);
    }

    /** A pacer is never over its burst nor refilled past its last attempt. */
    lemma StaysInBounds()
      requires Valid()
      ensures tokens <= PACE_BURST && lastRefill <= Now()
    {
      WritesArePaid(PACE, start, attempts);
    }

    method NextToken() returns (at: nat)
      ensures at == NextTokenAt(PACE, View())
    {
      at := if tokens > 0 then lastRefill else lastRefill + PACE_REFILL;
    }
  }

  function TotalBytes(commands: seq<LobbyCommand>): nat {
    if commands == [] then 0
    else TotalBytes(commands[..|commands| - 1]) + |commands[|commands| - 1].payload|
  }

  /** One successful write: which of the pacer's tokens it used, and what it carried. */
  datatype Sent = Sent(token: nat, command: LobbyCommand)

  datatype SendOutcome = Wrote | Paced | Broken

  class LobbyOutbox {
    var commands: seq<LobbyCommand>
    var bytes: nat
    const pacer: LobbyPacer
    /** How many commands the current stream has carried. */
    var sent: nat
    ghost var streams: seq<seq<LobbyCommand>>
    ghost var carried: seq<LobbyCommand>
    ghost var writes: seq<Sent>

    ghost predicate Valid()
      reads this, pacer
    {
      && pacer.Valid()
      && |commands| <= LOG_MAX_COMMANDS && bytes == TotalBytes(commands) <= LOG_MAX_BYTES
      && (forall i | 0 <= i < |commands| :: commands[i].seqNo == Some(i) && commands[i].slot == 0)
      && sent <= |commands| && carried == commands[..sent]
      && (forall i | 0 <= i < |streams| :: streams[i] <= commands)
      && PaidFor()
    }

    /** Every write ever made used a token of its own, in order. */
    ghost predicate PaidFor()
      reads this, pacer
    {
      var tokens := Writes(PACE, Full(PACE, pacer.start), pacer.attempts);
      && (forall i | 0 <= i < |writes| :: writes[i].token < |tokens|)
      && (forall i, j | 0 <= i < j < |writes| :: writes[i].token < writes[j].token)
    }

    constructor (now: nat)
      ensures Valid() && commands == [] && streams == [] && fresh(pacer)
    {
      commands, bytes, sent := [], 0, 0;
      pacer := new LobbyPacer(now);
      streams, carried, writes := [], [], [];
    }

    /** Numbers and keeps a command, unless no relay could log it. */
    method Author(payload: seq<byte>) returns (kept: bool)
      requires Valid()
      modifies this`commands, this`bytes
      ensures Valid()
      ensures kept == (|old(commands)| < 1_024 && old(bytes) + |payload| <= 262_144)
      ensures commands == if kept then old(commands) + [LobbyCommand(0, payload, Some(|old(commands)|))] else old(commands)
    {
      if |commands| >= LOG_MAX_COMMANDS || bytes + |payload| > LOG_MAX_BYTES {
        return false;
      }
      var command := LobbyCommand(0, payload, Some(|commands|));
      assert (commands + [command])[..|commands|] == commands;
      assert (commands + [command])[..sent] == commands[..sent];
      bytes := bytes + |payload|;
      commands := commands + [command];
      return true;
    }

    /** A new stream starts over from the first command. */
    method OpenStream()
      requires Valid()
      modifies this`sent, this`streams, this`carried
      ensures Valid() && sent == 0 && streams == old(streams) + [old(carried)]
    {
      streams := streams + [carried];
      sent, carried := 0, [];
    }

    method NextDue() returns (due: Option<nat>)
      requires Valid()
      ensures due == if sent < |commands| then Some(NextTokenAt(PACE, pacer.View())) else None
    {
      if sent < |commands| {
        var at := pacer.NextToken();
        due := Some(at);
      } else {
        due := None;
      }
    }

    lemma StreamIsInStep()
      requires Valid()
      ensures sent <= |commands| && carried == commands[..sent]
    {
    }

    /** Writes what the current stream still lacks, oldest first, until the pacer
        or the stream refuses; `writeOk` answers the k-th write of this call. When
        no write fails, that is as many commands as there are tokens. */
    method SendDue(now: nat, writeOk: nat -> bool) returns (ok: bool)
      requires Valid() && pacer.Now() <= now
      modifies this`sent, this`carried, this`writes, pacer
      ensures Valid() && (old(sent) < |commands| ==> pacer.Now() == now)
      ensures old(sent) <= sent && old(carried) <= carried == commands[..sent] && old(writes) <= writes
      ensures |writes| - |old(writes)| == sent - old(sent)
      ensures forall i | old(sent) <= i < sent :: writes[|old(writes)| + i - old(sent)].command == commands[i]
      ensures ok && sent < |commands| ==> pacer.tokens == 0 && now < NextTokenAt(PACE, pacer.View())
      ensures old(sent) < |commands| && (forall k :: writeOk(k)) ==>
                var filled := PacerRefill(PACE, old(pacer.View()), now);
                var n := Min(filled.tokens, |commands| - old(sent));
                ok && sent == old(sent) + n && pacer.View() == filled.(tokens := filled.tokens - n)
      ensures old(pacer.lastRefill) <= now
      ensures old(sent) < |commands| && (forall k :: writeOk(k)) ==>
                var earned := old(pacer.tokens) + (now - old(pacer.lastRefill)) / 400_000_000;
                sent == old(sent) + Min(Min(earned, 16), |commands| - old(sent))
    {
      hide Valid, PacerTakes, PacerRefill, AfterPacer;
      StreamIsInStep();
      BucketIsBounded();
      EarnedInNumbers(pacer.View(), now);
      ghost var before, filled := sent, PacerRefill(PACE, pacer.View(), now);
      var n := 0;
      while sent < |commands|
        invariant Valid() && pacer.Now() <= now && (n > 0 ==> pacer.Now() == now)
        invariant before == old(sent) <= sent <= |commands| && n == sent - before
        invariant old(carried) <= carried == commands[..sent] && old(writes) <= writes
        invariant |writes| - |old(writes)| == n
        invariant forall i | before <= i < sent :: writes[|old(writes)| + i - before].command == commands[i]
        invariant Spent(filled, n, now) && (n > 0 ==> pacer.View() == filled.(tokens := filled.tokens - n))
        decreases |commands| - sent
      {
        BucketIsBounded();
        TakesFromFilled(PACE, pacer.View(), filled, n, now);
        var outcome := SendNext(now, writeOk(n));
        if outcome.Paced? {
          BucketIsBounded();
          RefusalIsEarly(pacer.View(), now);
          break;
        }
        if outcome.Broken? {
          return false;
        }
        n := n + 1;
      }
      return true;
    }

    /** All but `n` of the tokens there were at `now` are left. */
    ghost predicate Spent(filled: Bucket, n: nat, now: nat)
      reads pacer
    {
      n <= filled.tokens && PacerRefill(PACE, pacer.View(), now) == filled.(tokens := filled.tokens - n)
    }

    lemma BucketIsBounded()
      requires Valid()
      ensures pacer.tokens <= PACE_BURST && pacer.lastRefill <= pacer.Now()
    {
      pacer.StaysInBounds();
    }

    /** The serve loop's due arm, fired `wakes` times: each wake writes one command,
        a refill interval after the last. */
    method WakeWhenDue(wakes: nat)
      requires Valid() && sent + wakes <= |commands|
      requires pacer.tokens == 0 && pacer.Now() <= NextTokenAt(PACE, pacer.View())
      modifies this`sent, this`carried, this`writes, pacer
      ensures Valid() && sent == old(sent) + wakes
      ensures pacer.View() == Bucket(0, old(pacer.lastRefill) + PACE_REFILL * wakes)
    {
      hide Valid, PacerRefill;
      var i := 0;
      while i < wakes
        invariant i <= wakes && Valid() && sent == old(sent) + i
        invariant pacer.View() == Bucket(0, old(pacer.lastRefill) + PACE_REFILL * i)
        invariant pacer.Now() <= NextTokenAt(PACE, pacer.View())
      {
        ghost var view := pacer.View();
        var due := NextDue();
        RefilledWhenDue(view, due.value);
        var _ := SendDue(due.value, _ => true);
        i := i + 1;
      }
    }

    /** One turn of that loop: a token, then the write it pays for. */
    method SendNext(now: nat, writeOk: bool) returns (outcome: SendOutcome)
      requires Valid() && pacer.Now() <= now && sent < |commands|
      modifies this`sent, this`carried, this`writes, pacer
      ensures Valid() && pacer.Now() == now && sent <= |commands| && carried == commands[..sent]
      ensures outcome.Wrote? ==>
                && sent == old(sent) + 1 && carried == old(carried) + [commands[old(sent)]]
                && |writes| == |old(writes)| + 1 && old(writes) <= writes
                && writes[|old(writes)|].command == commands[old(sent)]
      ensures !outcome.Wrote? ==> sent == old(sent) && carried == old(carried) && writes == old(writes)
      ensures outcome.Paced? <==> !PacerTakes(PACE, old(pacer.View()), now)
      ensures outcome.Broken? ==> !writeOk
      ensures pacer.View() == AfterPacer(PACE, old(pacer.View()), now)
    {
      hide PacerRefill, PacerTakes, AfterPacer, PacerAfter, Writes, Nondecreasing, TotalBytes;
      ghost var tokens := Writes(PACE, Full(PACE, pacer.start), pacer.attempts);
      AttemptAppended(pacer.start, pacer.attempts, now);
      var taken := pacer.TryTake(now);
      if !taken {
        return Paced;
      }
      if !writeOk {
        return Broken;
      }
      writes := writes + [Sent(|tokens|, commands[sent])];
      carried := carried + [commands[sent]];
      sent := sent + 1;
      return Wrote;
    }
  }

  lemma LaterAttempt(times: seq<nat>, now: nat)
    requires Nondecreasing(times) && times != [] && times[|times| - 1] <= now
    ensures Nondecreasing(times + [now])
  {
  }

  lemma AttemptAppended(start: nat, attempts: seq<nat>, now: nat)
    ensures var p := PacerAfter(PACE, Full(PACE, start), attempts);
            && PacerAfter(PACE, Full(PACE, start), attempts + [now]) == AfterPacer(PACE, p, now)
            && Writes(PACE, Full(PACE, start), attempts + [now])
               == if PacerTakes(PACE, p, now) then Writes(PACE, Full(PACE, start), attempts) + [now]
                  else Writes(PACE, Full(PACE, start), attempts)
  {
    AskOnce(PACE, Full(PACE, start), attempts, now);
  }

  lemma EarnedInNumbers(view: Bucket, now: nat)
    requires view.tokens <= 16 && view.lastRefill <= now
    ensures PacerRefill(PACE, view, now).tokens == Min(view.tokens + (now - view.lastRefill) / 400_000_000, 16)
  {
    RefillInNumbers(PACE, view, now);
    hide PacerRefill;
  }

  /** What a refused attempt leaves is empty, and its next token is yet to come. */
  lemma RefusalIsEarly(view: Bucket, now: nat)
    requires view.tokens == 0 && view.lastRefill <= now && PacerRefill(PACE, view, now) == view
    ensures now < NextTokenAt(PACE, view)
  {
    TokenExactlyWhenDue(PACE, view, now);
  }

  lemma RefilledWhenDue(view: Bucket, due: nat)
    requires view.tokens == 0 && due == NextTokenAt(PACE, view)
    ensures PacerRefill(PACE, view, due) == Bucket(1, due)
  {
    TokenExactlyWhenDue(PACE, view, due);
  }

  /** Every lobby write of a whole session, over whatever streams, is admitted by
      the relay it reaches, as long as all that reach it take between `base` and
      6.6 s more; no order is assumed between streams or within one. */
  lemma SessionWritesAreAdmitted(start: nat, attempts: seq<nat>, path: seq<Arrival>, base: int, jitter: nat,
                                 bucketOpened: nat, k: nat)
    requires Nondecreasing([start] + attempts) && jitter <= 6_600 * NANOS_PER_MILLI
    requires Delivers(Writes(PACE, Full(PACE, start), attempts), path, base, jitter)
    requires k < |path| && bucketOpened <= path[0].at
    ensures AdmitsAt(Rate(RATE_BURST, RATE_REFILL), Full(Rate(RATE_BURST, RATE_REFILL), bucketOpened), Times(path), k)
  {
    ShippedTolerance(jitter);
    EveryArrivalIsAdmitted(PACE, Rate(RATE_BURST, RATE_REFILL), start, attempts, path, base, jitter, bucketOpened, k);
  }

  // The receiving side.

  /** A command offered to the game: its author and origin seq. */
  type Origin = (SlotId, Option<nat>)

  class LobbyReceipts {
    var delivered: map<SlotId, set<nat>>
    ghost var admitted: seq<Origin>

    /** Each numbered command has been let through at most once, and exactly the
        recorded ones have been. */
    ghost predicate Valid()
      reads this
    {
      && (forall i, j | 0 <= i < j < |admitted| && admitted[i] == admitted[j] :: admitted[i].1.None?)
      && (forall author: SlotId, q: nat :: (author, Some(q)) in admitted <==> author in delivered && q in delivered[author])
    }

    constructor ()
      ensures Valid() && admitted == []
    {
      delivered, admitted := map[], [];
    }

    method Admit(author: SlotId, seqNo: Option<nat>) returns (isNew: bool)
      requires Valid()
      modifies this
      ensures Valid()
      ensures isNew == (seqNo.None? || (author, seqNo) !in old(admitted))
      ensures admitted == if isNew then old(admitted) + [(author, seqNo)] else old(admitted)
    {
      if seqNo.None? {
        admitted := admitted + [(author, seqNo)];
        return true;
      }
      var seen := if author in delivered then delivered[author] else {};
      isNew := seqNo.value !in seen;
      delivered := delivered[author := seen + {seqNo.value}];
      if isNew {
        admitted := admitted + [(author, seqNo)];
      }
    }
  }
}
