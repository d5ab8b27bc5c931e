/** The client's lobby pacer feeding the relay's token bucket across a path whose
    delay varies: two different integer bucket algorithms, and exactly how much
    jitter between them loses nothing. Instants are nanoseconds. */
module Pacing {
  import opened Basics
  import opened Arithmetic

  const NANOS_PER_MILLI: nat := 1_000_000

  const RATE_BURST: nat := 32
  const RATE_REFILL: nat := 200 * NANOS_PER_MILLI
  const PACE_BURST: nat := RATE_BURST / 2
  const PACE_REFILL: nat := RATE_REFILL * 2

  /** A burst and a refill interval. */
  datatype Rate = Rate(burst: nat, refill: nat)

  /** Tokens, and the instant they were refilled up to. */
  datatype Bucket = Bucket(tokens: nat, lastRefill: nat)

  predicate Usable(r: Rate) {
    1 <= r.burst <= U32_MAX && r.refill > 0
  }

  function Full(r: Rate, now: nat): Bucket {
    Bucket(r.burst, now)
  }

  // The client's pacer.

  function WholeIntervals(r: Rate, elapsed: nat): nat
    requires Usable(r)
  {
    Min(elapsed / r.refill, U32_MAX)
  }

  function PacerRefill(r: Rate, p: Bucket, now: nat): Bucket
    requires Usable(r)
  {
    var whole := WholeIntervals(r, SaturatingSub(now, p.lastRefill));
    var tokens := Min(Min(p.tokens + whole, U32_MAX), r.burst);
    Bucket(tokens, if tokens == r.burst then now else p.lastRefill + r.refill * whole)
  }

  predicate PacerTakes(r: Rate, p: Bucket, now: nat)
    requires Usable(r)
  {
    PacerRefill(r, p, now).tokens > 0
  }

  function AfterPacer(r: Rate, p: Bucket, now: nat): Bucket
    requires Usable(r)
  {
    var q := PacerRefill(r, p, now);
    if q.tokens == 0 then q else q.(tokens := q.tokens - 1)
  }

  function NextTokenAt(r: Rate, p: Bucket): nat {
    if p.tokens > 0 then p.lastRefill else p.lastRefill + r.refill
  }

  /** The pacer after a list of attempts. */
  function PacerAfter(r: Rate, p: Bucket, attempts: seq<nat>): Bucket
    requires Usable(r)
  {
    if attempts == [] then p
    else AfterPacer(r, PacerAfter(r, p, attempts[..|attempts| - 1]), attempts[|attempts| - 1])
  }

  /** The instants of the attempts that got a token. */
  function Writes(r: Rate, p: Bucket, attempts: seq<nat>): seq<nat>
    requires Usable(r)
  {
    if attempts == [] then []
    else
      var front, now := attempts[..|attempts| - 1], attempts[|attempts| - 1];
      if PacerTakes(r, PacerAfter(r, p, front), now) then Writes(r, p, front) + [now] else Writes(r, p, front)
  }

  // The relay's bucket.

  /** Elapsed refill intervals, counted in whole milliseconds. */
  function Intervals(r: Rate, elapsed: nat): nat {
    elapsed / NANOS_PER_MILLI / Max(r.refill / NANOS_PER_MILLI, 1)
  }

  function RelayRefill(r: Rate, q: Bucket, now: nat): Bucket {
    Gain(r, q, Intervals(r, SaturatingSub(now, q.lastRefill)))
  }

  /** A count of intervals past 32 bits adds no more than a full burst. */
  function Gain(r: Rate, q: Bucket, intervals: nat): Bucket {
    if intervals == 0 then q
    else
      var gained := if intervals <= U32_MAX then intervals else r.burst;
      Bucket(Min(Min(q.tokens + gained, U32_MAX), r.burst), q.lastRefill + r.refill * gained)
  }

  predicate RelayAdmits(r: Rate, q: Bucket, now: nat) {
    RelayRefill(r, q, now).tokens > 0
  }

  function AfterRelay(r: Rate, q: Bucket, now: nat): Bucket {
    var q' := RelayRefill(r, q, now);
    if q'.tokens == 0 then q' else q'.(tokens := q'.tokens - 1)
  }

  /** The relay's bucket, in place. */
  class TokenBucket {
    var tokens: nat
    var lastRefill: nat
    const burst: nat
    const refillInterval: nat

    ghost function View(): Bucket
      reads this
    {
      Bucket(tokens, lastRefill)
    }

    ghost function Limits(): Rate {
      Rate(burst, refillInterval)
    }

    constructor (burst: nat, refillInterval: nat, now: nat)
      ensures Limits() == Rate(burst, refillInterval) && View() == Full(Limits(), now)
    {
      this.burst, this.refillInterval := burst, refillInterval;
      tokens, lastRefill := burst, now;
    }

    method TryTakeAt(now: nat) returns (ok: bool)
      modifies this
      ensures ok == RelayAdmits(Limits(), old(View()), now)
      ensures View() == AfterRelay(Limits(), old(View()), now)
    {
      var elapsed := SaturatingSub(now, lastRefill);
      var intervalMs := Max(refillInterval / NANOS_PER_MILLI, 1);
      var intervals := elapsed / NANOS_PER_MILLI / intervalMs;
      assert intervals == Intervals(Limits(), elapsed);
      hide Intervals;
      if intervals > 0 {
        var gained := if intervals <= U32_MAX then intervals else burst;
        tokens := Min(Min(tokens + gained, U32_MAX), burst);
        lastRefill := lastRefill + refillInterval * gained;
      }
      if tokens == 0 {
        return false;
      }
      tokens := tokens - 1;
      return true;
    }
  }

  function RelayAfter(r: Rate, q: Bucket, arrivals: seq<nat>): Bucket {
    if arrivals == [] then q
    else AfterRelay(r, RelayAfter(r, q, arrivals[..|arrivals| - 1]), arrivals[|arrivals| - 1])
  }

  /** Whether the relay admits the k-th arrival of a run. */
  predicate AdmitsAt(r: Rate, q: Bucket, arrivals: seq<nat>, k: nat)
    requires k < |arrivals|
  {
    RelayAdmits(r, RelayAfter(r, q, arrivals[..k]), arrivals[k])
  }

  /** The relay's arithmetic counts whole milliseconds. */
  predicate WholeMillis(r: Rate) {
    Usable(r) && r.refill % NANOS_PER_MILLI == 0
  }

  ghost predicate Nondecreasing(times: seq<nat>) {
    forall i, j | 0 <= i < j < |times| :: times[i] <= times[j]
  }

  // What a pacer's writes have in common.

  /** A bucket's worth in time: its tokens, plus the time since the last refill. */
  function Worth(r: Rate, p: Bucket, now: int): int {
    p.tokens * r.refill + (now - p.lastRefill)
  }

  lemma PacerRefillWorth(r: Rate, p: Bucket, now: nat)
    requires Usable(r) && p.lastRefill <= now && p.tokens <= r.burst
    ensures var q := PacerRefill(r, p, now);
            && q.tokens <= r.burst && q.lastRefill <= now
            && 0 <= Worth(r, q, now) <= Worth(r, p, now)
            && Worth(r, q, now) <= r.burst * r.refill
            && (Worth(r, q, now) == Worth(r, p, now) || q.tokens == r.burst)
  {
    hide WholeIntervals;
    WholeIntervalsRemain(r, now - p.lastRefill);
    var whole := WholeIntervals(r, now - p.lastRefill);
    RefillingWorth(r, p, now, whole, r.refill * whole);
  }

  lemma RefillingWorth(r: Rate, p: Bucket, now: nat, whole: nat, spent: nat)
    requires Usable(r) && p.tokens <= r.burst && spent == r.refill * whole && p.lastRefill + spent <= now
    requires whole < U32_MAX ==> now - p.lastRefill < spent + r.refill
    ensures var tokens := Min(Min(p.tokens + whole, U32_MAX), r.burst);
            var q := Bucket(tokens, if tokens == r.burst then now else p.lastRefill + spent);
            && q.lastRefill <= now && 0 <= Worth(r, q, now) <= Worth(r, p, now)
            && Worth(r, q, now) <= r.burst * r.refill
            && (Worth(r, q, now) == Worth(r, p, now) || q.tokens == r.burst)
  {
    if p.tokens + whole >= r.burst {
      FillingUpCosts(r, p.tokens, whole);
    } else {
      StayingShortCosts(r, p.tokens, whole);
    }
  }

  lemma FillingUpCosts(r: Rate, tokens: nat, whole: nat)
    requires tokens <= r.burst <= tokens + whole
    ensures 0 <= r.burst * r.refill <= tokens * r.refill + r.refill * whole
  {
    MulMonotone(r.refill, 0, r.burst);
    MulMonotone(r.refill, r.burst, tokens + whole);
    assert r.refill * (tokens + whole) == tokens * r.refill + r.refill * whole;
  }

  lemma StayingShortCosts(r: Rate, tokens: nat, whole: nat)
    requires tokens + whole < r.burst
    ensures 0 <= (tokens + whole) * r.refill == tokens * r.refill + r.refill * whole
    ensures (tokens + whole) * r.refill + r.refill <= r.burst * r.refill
  {
    MulMonotone(r.refill, 0, tokens + whole);
    MulMonotone(r.refill, tokens + whole + 1, r.burst);
  }

  lemma FullWorth(r: Rate, start: nat)
    ensures Worth(r, Full(r, start), start) == r.burst * r.refill >= 0
  {
    MulMonotone(r.refill, 0, r.burst);
  }

  /** A run's writes so far, each against the bucket's worth now: from any write
      on, no more have gone out than the burst and the time since allow. */
  ghost predicate Paid(r: Rate, writes: seq<nat>, p: Bucket, now: nat) {
    PaidWith(r, writes, Worth(r, p, now), now)
  }

  ghost predicate PaidWith(r: Rate, writes: seq<nat>, worth: int, now: nat) {
    forall i | 0 <= i < |writes| ::
      writes[i] <= now && worth + (|writes| - i) * r.refill <= r.burst * r.refill + (now - writes[i])
  }

  lemma PaidWaits(r: Rate, writes: seq<nat>, worth: int, before: nat, worth': int, now: nat)
    requires PaidWith(r, writes, worth, before) && before <= now && worth' <= worth + (now - before)
    ensures PaidWith(r, writes, worth', now)
  {
  }

  lemma PaidSpends(r: Rate, writes: seq<nat>, worth: int, now: nat)
    requires PaidWith(r, writes, worth, now) && worth <= r.burst * r.refill
    ensures PaidWith(r, writes + [now], worth - r.refill, now)
  {
    var writes' := writes + [now];
    forall i | 0 <= i < |writes'|
      ensures writes'[i] <= now
      ensures worth - r.refill + (|writes'| - i) * r.refill <= r.burst * r.refill + (now - writes'[i])
    {
      assert (|writes'| - i) * r.refill == (|writes| - i) * r.refill + r.refill;
    }
  }

  lemma {:induction false} WritesArePaid(r: Rate, start: nat, attempts: seq<nat>)
    requires Usable(r) && Nondecreasing([start] + attempts)
    ensures var p, now := PacerAfter(r, Full(r, start), attempts), ([start] + attempts)[|attempts|];
            && p.tokens <= r.burst && p.lastRefill <= now && Worth(r, p, now) >= 0
            && Paid(r, Writes(r, Full(r, start), attempts), p, now)
  {
    FullWorth(r, start);
    assert Paid(r, [], Full(r, start), start);
    hide PacerRefill, AfterPacer, PacerTakes, Worth, Paid;
    var full := Full(r, start);
    if attempts != [] {
      var front, now := attempts[..|attempts| - 1], attempts[|attempts| - 1];
      assert [start] + front == ([start] + attempts)[..|attempts|];
      assert ([start] + front)[|front|] == ([start] + attempts)[|front|] <= ([start] + attempts)[|attempts|] == now;
      WritesArePaid(r, start, front);
      PaidAdvances(r, Writes(r, full, front), PacerAfter(r, full, front), ([start] + front)[|front|], now);
    }
  }

  lemma PaidAdvances(r: Rate, writes: seq<nat>, p: Bucket, before: nat, now: nat)
    requires Usable(r) && p.tokens <= r.burst && p.lastRefill <= before <= now
    ensures var p' := AfterPacer(r, p, now);
            p'.tokens <= r.burst && p'.lastRefill <= now && Worth(r, p', now) >= 0
    ensures Paid(r, writes, p, before) ==>
              var p' := AfterPacer(r, p, now);
              Paid(r, if PacerTakes(r, p, now) then writes + [now] else writes, p', now)
  {
    hide PaidWith, PacerRefill;
    PacerRefillWorth(r, p, now);
    var q, p' := PacerRefill(r, p, now), AfterPacer(r, p, now);
    if PacerTakes(r, p, now) {
      assert p'.tokens * r.refill == q.tokens * r.refill - r.refill;
      MulMonotone(r.refill, 0, p'.tokens);
    }
    if Paid(r, writes, p, before) {
      PaidWaits(r, writes, Worth(r, p, before), before, Worth(r, q, now), now);
      if PacerTakes(r, p, now) {
        PaidSpends(r, writes, Worth(r, q, now), now);
      }
    }
  }

  /** The attempts up to and including the one that made write `j`. */
  lemma {:induction false} AttemptOfWrite(r: Rate, p: Bucket, attempts: seq<nat>, j: nat) returns (n: nat)
    requires Usable(r) && j < |Writes(r, p, attempts)|
    ensures n < |attempts| && attempts[n] == Writes(r, p, attempts)[j]
    ensures Writes(r, p, attempts[..n + 1]) == Writes(r, p, attempts)[..j + 1]
  {
    hide PacerRefill, AfterPacer, PacerTakes;
    var last := |attempts| - 1;
    var front := attempts[..last];
    if j < |Writes(r, p, front)| {
      n := AttemptOfWrite(r, p, front, j);
      assert attempts[..n + 1] == front[..n + 1];
    } else {
      n := last;
      assert attempts[..n + 1] == attempts;
    }
  }

  /** Between any two writes the pacer lets out at most its burst plus one per
      refill interval, whatever attempts it was asked. */
  lemma WritesAreSpaced(r: Rate, start: nat, attempts: seq<nat>, i: nat, j: nat)
    requires Usable(r) && Nondecreasing([start] + attempts)
    requires i <= j < |Writes(r, Full(r, start), attempts)|
    ensures var writes := Writes(r, Full(r, start), attempts);
            && writes[i] <= writes[j]
            && (j - i + 1) * r.refill <= r.burst * r.refill + (writes[j] - writes[i])
  {
    hide PacerRefill, AfterPacer, PacerTakes;
    var writes := Writes(r, Full(r, start), attempts);
    var n := AttemptOfWrite(r, Full(r, start), attempts, j);
    var prefix := attempts[..n + 1];
    assert [start] + prefix == ([start] + attempts)[..n + 2];
    WritesArePaid(r, start, prefix);
    assert ([start] + prefix)[n + 1] == writes[j];
    assert writes[..j + 1][i] == writes[i];
  }

  // What is enough for the relay.

  /** Arrivals spaced as the relay's own rate allows. */
  ghost predicate Conforms(r: Rate, arrivals: seq<nat>) {
    forall m, k | 0 <= m <= k < |arrivals| ::
      (k - m + 1) * r.refill + arrivals[m] <= r.burst * r.refill + arrivals[k]
  }

  /** Rounding to milliseconds first changes nothing when the interval is a whole
      number of them. */
  lemma IntervalsAreExact(r: Rate, elapsed: nat)
    requires WholeMillis(r)
    ensures var n := Intervals(r, elapsed);
            r.refill * n <= elapsed < r.refill * n + r.refill
  {
    var interval := r.refill / NANOS_PER_MILLI;
    NestedDivision(elapsed, NANOS_PER_MILLI, interval);
    assert r.refill == NANOS_PER_MILLI * interval;
    assert elapsed == r.refill * (elapsed / r.refill) + elapsed % r.refill;
  }

  lemma RelayRefillWorth(r: Rate, q: Bucket, now: nat)
    requires WholeMillis(r) && q.lastRefill <= now && q.tokens <= r.burst
    ensures var q' := RelayRefill(r, q, now);
            && q'.tokens <= r.burst && q'.lastRefill <= now
            && Worth(r, q', now) <= Worth(r, q, now)
            && (Worth(r, q', now) == Worth(r, q, now) || Worth(r, q', now) >= r.burst * r.refill)
            && (q'.tokens == r.burst || now - q'.lastRefill < r.refill)
  {
    hide Intervals, Gain;
    var n := Intervals(r, now - q.lastRefill);
    IntervalsAreExact(r, now - q.lastRefill);
    GainWorth(r, q, n, now);
  }

  lemma GainWorth(r: Rate, q: Bucket, n: nat, now: nat)
    requires Usable(r) && q.tokens <= r.burst
    requires q.lastRefill + r.refill * n <= now < q.lastRefill + r.refill * n + r.refill
    ensures var q' := Gain(r, q, n);
            && q'.tokens <= r.burst && q'.lastRefill <= now
            && Worth(r, q', now) <= Worth(r, q, now)
            && (Worth(r, q', now) == Worth(r, q, now) || Worth(r, q', now) >= r.burst * r.refill)
            && (q'.tokens == r.burst || now - q'.lastRefill < r.refill)
  {
    if n > 0 {
      var gained := if n <= U32_MAX then n else r.burst;
      MulMonotone(r.refill, gained, n);
      GainedWorth(r, q, gained, r.refill * gained, now);
    }
  }

  lemma GainedWorth(r: Rate, q: Bucket, gained: nat, spent: nat, now: nat)
    requires Usable(r) && q.tokens <= r.burst && spent == r.refill * gained && q.lastRefill + spent <= now
    ensures var q' := Bucket(Min(Min(q.tokens + gained, U32_MAX), r.burst), q.lastRefill + spent);
            && Worth(r, q', now) <= Worth(r, q, now)
            && (Worth(r, q', now) == Worth(r, q, now) || Worth(r, q', now) >= r.burst * r.refill)
  {
    assert (q.tokens + gained) * r.refill == q.tokens * r.refill + spent;
    MulMonotone(r.refill, Min(q.tokens + gained, r.burst), q.tokens + gained);
  }

  /** The bucket is worth at least what it held at some arrival that found it
      full, less what has been taken since. */
  ghost predicate Funded(r: Rate, arrivals: seq<nat>, q: Bucket, now: nat, taken: nat, m: nat) {
    && m <= taken && m < |arrivals| && arrivals[m] <= now
    && Worth(r, q, now) >= r.burst * r.refill + (now - arrivals[m]) - (taken - m) * r.refill
  }

  lemma FundedAdmits(r: Rate, arrivals: seq<nat>, q: Bucket, k: nat, m: nat)
    requires WholeMillis(r) && Conforms(r, arrivals) && k < |arrivals|
    requires q.tokens <= r.burst && q.lastRefill <= arrivals[k]
    requires Funded(r, arrivals, q, arrivals[k], k, m)
    ensures RelayAdmits(r, q, arrivals[k])
  {
    hide RelayRefill;
    var now := arrivals[k];
    RelayRefillWorth(r, q, now);
    assert (k - m + 1) * r.refill == (k - m) * r.refill + r.refill;
    assert Worth(r, q, now) >= r.refill;
    MulMonotone(r.refill, 1, r.burst);
    var q' := RelayRefill(r, q, now);
    if q'.tokens < r.burst {
      MulCancel(r.refill, 0, q'.tokens);
    }
  }

  lemma {:induction false} FundedAt(r: Rate, start: nat, arrivals: seq<nat>, k: nat) returns (m: nat)
    requires WholeMillis(r) && Conforms(r, arrivals) && Nondecreasing([start] + arrivals) && k < |arrivals|
    ensures var q := RelayAfter(r, Full(r, start), arrivals[..k]);
            q.tokens <= r.burst && q.lastRefill <= arrivals[k] && Funded(r, arrivals, q, arrivals[k], k, m)
  {
    hide Conforms, AfterRelay, Funded;
    var times := [start] + arrivals;
    if k == 0 {
      assert times[0] <= times[1];
      m := 0;
      FullIsFunded(r, start, arrivals);
    } else {
      assert times[k] <= times[k + 1];
      var before := FundedAt(r, start, arrivals, k - 1);
      assert arrivals[..k][..k - 1] == arrivals[..k - 1];
      m := FundedNext(r, arrivals, RelayAfter(r, Full(r, start), arrivals[..k - 1]), k - 1, before);
    }
  }

  lemma FullIsFunded(r: Rate, start: nat, arrivals: seq<nat>)
    requires arrivals != [] && start <= arrivals[0]
    ensures Funded(r, arrivals, Full(r, start), arrivals[0], 0, 0)
  {
    assert 0 * r.refill == 0;
  }

  /** One admission later the bucket is still funded: from this arrival on if it
      found the bucket full, from the one before it otherwise. */
  lemma FundedNext(r: Rate, arrivals: seq<nat>, q: Bucket, k: nat, before: nat) returns (m: nat)
    requires WholeMillis(r) && Conforms(r, arrivals) && k + 1 < |arrivals| && arrivals[k] <= arrivals[k + 1]
    requires q.tokens <= r.burst && q.lastRefill <= arrivals[k] && Funded(r, arrivals, q, arrivals[k], k, before)
    ensures var q' := AfterRelay(r, q, arrivals[k]);
            && q'.tokens <= r.burst && q'.lastRefill <= arrivals[k + 1]
            && Funded(r, arrivals, q', arrivals[k + 1], k + 1, m)
  {
    hide RelayRefill, Conforms;
    FundedAdmits(r, arrivals, q, k, before);
    RelayRefillWorth(r, q, arrivals[k]);
    var filled := RelayRefill(r, q, arrivals[k]);
    assert (filled.tokens - 1) * r.refill == filled.tokens * r.refill - r.refill;
    m := if Worth(r, filled, arrivals[k]) >= r.burst * r.refill then k else before;
    assert (k + 1 - m) * r.refill == (k - m) * r.refill + r.refill;
    MulMonotone(r.refill, 0, k - m);
  }

  /** A bucket that starts full admits every arrival of a conforming run. */
  lemma ConformingIsAdmitted(r: Rate, start: nat, arrivals: seq<nat>, k: nat)
    requires WholeMillis(r) && Conforms(r, arrivals) && Nondecreasing([start] + arrivals) && k < |arrivals|
    ensures AdmitsAt(r, Full(r, start), arrivals, k)
  {
    hide RelayAdmits;
    var m := FundedAt(r, start, arrivals, k);
    FundedAdmits(r, arrivals, RelayAfter(r, Full(r, start), arrivals[..k]), k, m);
  }

  // The two together.

  /** A write that reached the relay, and when. */
  datatype Arrival = Arrival(write: nat, at: nat)

  function Times(path: seq<Arrival>): seq<nat> {
    seq(|path|, k requires 0 <= k < |path| => path[k].at)
  }

  /** What reaches the relay, in order of arrival: each write at most once, perhaps
      not at all, perhaps overtaken, delayed by `base` plus at most `jitter`. */
  ghost predicate Delivers(writes: seq<nat>, path: seq<Arrival>, base: int, jitter: nat) {
    && (forall k | 0 <= k < |path| ::
          path[k].write < |writes| && base <= path[k].at - writes[path[k].write] <= base + jitter)
    && (forall k, l | 0 <= k < l < |path| :: path[k].write != path[l].write && path[k].at <= path[l].at)
  }

  ghost predicate KeepsOrder(path: seq<Arrival>) {
    forall k, l | 0 <= k < l < |path| :: path[k].write < path[l].write
  }

  /** The tokens to spare, in time, when a burst and `n` more writes arrive as
      close together as the jitter lets them. */
  function Spare(pace: Rate, relay: Rate, jitter: nat, n: nat): int {
    relay.burst * relay.refill + Max(0, n * pace.refill - jitter) - (pace.burst + n) * relay.refill
  }

  ghost predicate Tolerates(pace: Rate, relay: Rate, jitter: nat) {
    forall n: nat :: Spare(pace, relay, jitter, n) >= 0
  }

  /** Tolerance is decided by the two sizes of run around the jitter: up to there the
      arrivals can all come at once, from there on the refill rates decide. */
  lemma ToleranceIsDecidable(pace: Rate, relay: Rate, jitter: nat)
    requires Usable(pace)
    ensures var n := jitter / pace.refill;
            Tolerates(pace, relay, jitter) <==>
              && pace.refill >= relay.refill
              && Spare(pace, relay, jitter, n) >= 0 && Spare(pace, relay, jitter, n + 1) >= 0
  {
    var n := jitter / pace.refill;
    var next := Spare(pace, relay, jitter, n + 1);
    if pace.refill < relay.refill {
      var m := Max(next, 0) + 1;
      SpareBeyondJitter(pace, relay, jitter, m);
      MulMonotone(m, pace.refill - relay.refill, -1);
      assert Spare(pace, relay, jitter, n + 1 + m) < 0;
    } else if Spare(pace, relay, jitter, n) >= 0 && next >= 0 {
      forall k: nat ensures Spare(pace, relay, jitter, k) >= 0 {
        if k <= n {
          SpareWithinJitter(pace, relay, jitter, k);
        } else {
          SpareBeyondJitter(pace, relay, jitter, k - n - 1);
          MulMonotone(k - n - 1, 0, pace.refill - relay.refill);
        }
      }
    }
  }

  lemma SpareWithinJitter(pace: Rate, relay: Rate, jitter: nat, k: nat)
    requires Usable(pace) && k <= jitter / pace.refill
    ensures Spare(pace, relay, jitter, k) >= Spare(pace, relay, jitter, jitter / pace.refill)
  {
    var n := jitter / pace.refill;
    DivAtLeast(jitter, pace.refill, n);
    MulMonotone(pace.refill, k, n);
    MulMonotone(relay.refill, pace.burst + k, pace.burst + n);
  }

  lemma SpareBeyondJitter(pace: Rate, relay: Rate, jitter: nat, m: nat)
    requires Usable(pace)
    ensures var n := jitter / pace.refill + 1;
            Spare(pace, relay, jitter, n + m)
            == Spare(pace, relay, jitter, n) + m * (pace.refill - relay.refill)
  {
    var n := jitter / pace.refill + 1;
    DivAtLeast(jitter, pace.refill, n);
    MulMonotone(pace.refill, n, n + m);
    assert (n + m) * pace.refill == n * pace.refill + m * pace.refill;
    assert (pace.burst + n + m) * relay.refill == (pace.burst + n) * relay.refill + m * relay.refill;
    assert m * (pace.refill - relay.refill) == m * pace.refill - m * relay.refill;
  }

  lemma DeliveredWritesConform(pace: Rate, relay: Rate, start: nat, attempts: seq<nat>,
                               path: seq<Arrival>, base: int, jitter: nat, m: nat, k: nat)
    requires Usable(pace) && Usable(relay) && Tolerates(pace, relay, jitter)
    requires Nondecreasing([start] + attempts)
    requires Delivers(Writes(pace, Full(pace, start), attempts), path, base, jitter)
    requires m <= k < |path|
    ensures (k - m + 1) * relay.refill + path[m].at <= relay.burst * relay.refill + path[k].at
  {
    hide PacerRefill, AfterPacer, PacerTakes;
    var writes := Writes(pace, Full(pace, start), attempts);
    var p, q := ArrivalsSpread(writes, path, base, jitter, m, k);
    var i, j := path[p].write, path[q].write;
    WritesAreSpaced(pace, start, attempts, i, j);
    SpacingTransfers(pace, relay, jitter, j - i + 1, k - m + 1, writes[j] - writes[i], path[k].at - path[m].at);
  }

  /** `written` writes spread over `spread` have room for `arrived` arrivals spread
      over `gap`. */
  lemma SpacingTransfers(pace: Rate, relay: Rate, jitter: nat, written: nat, arrived: nat, spread: nat, gap: nat)
    requires Usable(pace) && Tolerates(pace, relay, jitter)
    requires arrived <= written && written * pace.refill <= pace.burst * pace.refill + spread
    requires gap >= spread - jitter
    ensures arrived * relay.refill <= relay.burst * relay.refill + gap
  {
    var n := spread / pace.refill;
    assert (written - pace.burst) * pace.refill == written * pace.refill - pace.burst * pace.refill;
    DivAtLeast(spread, pace.refill, written - pace.burst);
    DivAtLeast(spread, pace.refill, n);
    DivAtLeast(spread, pace.refill, 0);
    assert Spare(pace, relay, jitter, n) >= 0;
    MulMonotone(relay.refill, arrived, pace.burst + n);
  }

  lemma {:induction false} GreatestOf(values: seq<nat>) returns (i: nat)
    requires values != []
    ensures i < |values| && forall k | 0 <= k < |values| :: values[k] <= values[i]
  {
    var last := |values| - 1;
    i := last;
    if last > 0 {
      var front := GreatestOf(values[..last]);
      i := if values[front] > values[last] then front else last;
    }
  }

  /** Distinct numbers span at least as many as they are. */
  lemma {:induction false} DistinctNumbersSpread(values: seq<nat>) returns (least: nat, most: nat)
    requires values != [] && forall k, l | 0 <= k < l < |values| :: values[k] != values[l]
    ensures least in values && most in values && (forall v | v in values :: v <= most)
    ensures most - least >= |values| - 1
    decreases |values|
  {
    var i := GreatestOf(values);
    least, most := values[i], values[i];
    if |values| > 1 {
      var rest := values[..i] + values[i + 1..];
      assert forall v | v in rest :: v in values && v != most;
      var under;
      least, under := DistinctNumbersSpread(rest);
    }
  }

  /** Of the writes behind arrivals `m` to `k`, two are that far apart. */
  lemma ArrivalsSpread(writes: seq<nat>, path: seq<Arrival>, base: int, jitter: nat, m: nat, k: nat)
      returns (p: nat, q: nat)
    requires Delivers(writes, path, base, jitter) && m <= k < |path|
    ensures m <= p <= k && m <= q <= k && path[q].write - path[p].write >= k - m
    ensures path[m].at <= path[p].at && path[q].at <= path[k].at
  {
    p, q := WritesSpread(path, m, k);
    assert m < p ==> path[m].at <= path[p].at;
    assert q < k ==> path[q].at <= path[k].at;
  }

  function Indices(path: seq<Arrival>): seq<nat> {
    seq(|path|, k requires 0 <= k < |path| => path[k].write)
  }

  lemma WritesSpread(path: seq<Arrival>, m: nat, k: nat) returns (p: nat, q: nat)
    requires m <= k < |path| && forall i, j | 0 <= i < j < |path| :: path[i].write != path[j].write
    ensures m <= p <= k && m <= q <= k && path[q].write - path[p].write >= k - m
  {
    var values := Indices(path[m..k + 1]);
    forall i, j | 0 <= i < j < |values| ensures values[i] != values[j] {
      assert path[m + i].write != path[m + j].write;
    }
    var least, most := DistinctNumbersSpread(values);
    var i :| 0 <= i < |values| && values[i] == least;
    var j :| 0 <= j < |values| && values[j] == most;
    p, q := m + i, m + j;
  }

  /** Every write that passes the pacer and reaches the relay is admitted, however
      often the pacer was asked, whatever the path loses or reorders, and whenever
      the relay's bucket was opened, as long as the jitter is tolerable. */
  lemma EveryArrivalIsAdmitted(pace: Rate, relay: Rate, start: nat, attempts: seq<nat>,
                               path: seq<Arrival>, base: int, jitter: nat, openedAt: nat, k: nat)
    requires Usable(pace) && WholeMillis(relay) && Tolerates(pace, relay, jitter)
    requires Nondecreasing([start] + attempts)
    requires Delivers(Writes(pace, Full(pace, start), attempts), path, base, jitter)
    requires k < |path| && openedAt <= path[0].at
    ensures AdmitsAt(relay, Full(relay, openedAt), Times(path), k)
  {
    hide PacerRefill, AfterPacer, PacerTakes, AdmitsAt;
    var arrivals := Times(path);
    forall m, k | 0 <= m <= k < |arrivals|
      ensures (k - m + 1) * relay.refill + arrivals[m] <= relay.burst * relay.refill + arrivals[k]
    {
      DeliveredWritesConform(pace, relay, start, attempts, path, base, jitter, m, k);
    }
    forall i, j | 0 <= i < j < |[openedAt] + arrivals|
      ensures ([openedAt] + arrivals)[i] <= ([openedAt] + arrivals)[j]
    {
      assert path[0].at <= path[j - 1].at;
    }
    ConformingIsAdmitted(relay, openedAt, arrivals, k);
  }

  /** The documented condition is enough: a slower refill, and a burst that leaves
      room for the jitter. */
  lemma DocumentedConditionSuffices(pace: Rate, relay: Rate, jitter: nat)
    requires pace.refill >= relay.refill
    requires pace.burst * pace.refill + jitter <= relay.burst * pace.refill
    ensures Tolerates(pace, relay, jitter)
  {
    forall n: nat ensures Spare(pace, relay, jitter, n) >= 0 {
      var room := relay.burst - pace.burst;
      assert room * pace.refill == relay.burst * pace.refill - pace.burst * pace.refill;
      assert (pace.burst + n) * relay.refill == relay.burst * relay.refill + (n - room) * relay.refill;
      if n <= room {
        MulMonotone(relay.refill, n - room, 0);
      } else {
        MulMonotone(n - room, relay.refill, pace.refill);
        assert (n - room) * pace.refill == n * pace.refill - room * pace.refill;
      }
    }
  }

  // Beyond tolerable jitter some run loses a command.

  /** A whole burst at once, then one attempt per refill interval. */
  function Flat(pace: Rate, n: nat): seq<nat> {
    seq(pace.burst + n, i requires 0 <= i => FlatAt(pace, i))
  }

  function FlatAt(pace: Rate, i: nat): nat {
    if i < pace.burst then 0 else (i - pace.burst + 1) * pace.refill
  }

  /** The path holds everything back until `jitter`. */
  function HeldBack(writes: seq<nat>, jitter: nat): seq<Arrival> {
    seq(|writes|, i requires 0 <= i < |writes| => Arrival(i, Max(jitter, writes[i])))
  }

  lemma WholeIntervalsAt(r: Rate, elapsed: nat)
    requires Usable(r)
    ensures WholeIntervals(r, elapsed) > 0 <==> elapsed >= r.refill
    ensures elapsed == r.refill ==> WholeIntervals(r, elapsed) == 1
  {
    DivAtLeast(elapsed, r.refill, 1);
    if elapsed == r.refill {
      DivModUnique(r.refill, r.refill, 1, 0);
    }
  }

  /** An empty pacer gives one token at each refill instant, and none before. */
  lemma TokenExactlyWhenDue(r: Rate, p: Bucket, now: nat)
    requires Usable(r) && p.lastRefill <= now && p.tokens <= r.burst
    ensures PacerTakes(r, p, now) <==> now >= NextTokenAt(r, p)
    ensures p.tokens == 0 && now == NextTokenAt(r, p) ==> AfterPacer(r, p, now) == Bucket(0, now)
  {
    hide WholeIntervals;
    WholeIntervalsAt(r, now - p.lastRefill);
  }

  lemma TakeAtOnce(r: Rate, p: Bucket)
    requires Usable(r) && 0 < p.tokens <= r.burst
    ensures PacerTakes(r, p, p.lastRefill)
    ensures AfterPacer(r, p, p.lastRefill) == p.(tokens := p.tokens - 1)
  {
    hide WholeIntervals;
    WholeIntervalsAt(r, 0);
    assert r.refill * 0 == 0;
  }

  /** What `k` of those attempts leave. */
  function FlatBucket(pace: Rate, k: nat): Bucket {
    if k <= pace.burst then Bucket(pace.burst - k, 0) else Bucket(0, FlatAt(pace, k - 1))
  }

  lemma FlatAttempt(pace: Rate, k: nat)
    requires Usable(pace)
    ensures PacerTakes(pace, FlatBucket(pace, k), FlatAt(pace, k))
    ensures AfterPacer(pace, FlatBucket(pace, k), FlatAt(pace, k)) == FlatBucket(pace, k + 1)
  {
    hide AfterPacer, PacerTakes;
    if k < pace.burst {
      TakeAtOnce(pace, FlatBucket(pace, k));
    } else {
      assert (k + 1 - pace.burst) * pace.refill == (k - pace.burst) * pace.refill + pace.refill;
      TokenExactlyWhenDue(pace, FlatBucket(pace, k), FlatAt(pace, k));
    }
  }

  lemma {:induction false} FlatAllWrite(pace: Rate, n: nat, k: nat)
    requires Usable(pace) && k <= pace.burst + n
    ensures Writes(pace, Full(pace, 0), Flat(pace, n)[..k]) == Flat(pace, n)[..k]
    ensures PacerAfter(pace, Full(pace, 0), Flat(pace, n)[..k]) == FlatBucket(pace, k)
  {
    hide AfterPacer, PacerTakes, PacerAfter, Writes, FlatAt;
    if k == 0 {
      NothingAsked(pace, Full(pace, 0));
      assert Flat(pace, n)[..0] == [];
    } else {
      FlatAllWrite(pace, n, k - 1);
      var front, now := Flat(pace, n)[..k - 1], FlatAt(pace, k - 1);
      assert Flat(pace, n)[..k] == front + [now];
      AskOnce(pace, Full(pace, 0), front, now);
      FlatAttempt(pace, k - 1);
    }
  }

  /** Admitting costs one interval's worth. */
  lemma AdmittingCosts(r: Rate, q: Bucket, before: nat, now: nat)
    requires WholeMillis(r) && q.tokens <= r.burst && q.lastRefill <= before <= now && RelayAdmits(r, q, now)
    ensures var q' := AfterRelay(r, q, now);
            && q'.tokens <= r.burst && q'.lastRefill <= now
            && Worth(r, q', now) + r.refill <= Worth(r, q, before) + (now - before)
  {
    hide RelayRefill;
    RelayRefillWorth(r, q, now);
    var q' := RelayRefill(r, q, now);
    assert (q'.tokens - 1) * r.refill == q'.tokens * r.refill - r.refill;
  }

  lemma {:induction false} AdmittedIsBounded(r: Rate, start: nat, arrivals: seq<nat>)
    requires WholeMillis(r) && Nondecreasing([start] + arrivals)
    requires forall k | 0 <= k < |arrivals| :: AdmitsAt(r, Full(r, start), arrivals, k)
    ensures var q, now := RelayAfter(r, Full(r, start), arrivals), ([start] + arrivals)[|arrivals|];
            && q.tokens <= r.burst && q.lastRefill <= now
            && Worth(r, q, now) + |arrivals| * r.refill <= r.burst * r.refill + (now - start)
  {
    FullWorth(r, start);
    hide RelayAdmits, AfterRelay, Worth;
    if arrivals != [] {
      var n := |arrivals| - 1;
      var front, times := arrivals[..n], [start] + arrivals;
      assert [start] + front == times[..n + 1];
      assert times[n] <= times[n + 1];
      forall k | 0 <= k < n ensures AdmitsAt(r, Full(r, start), front, k) {
        assert AdmitsAt(r, Full(r, start), arrivals, k);
        assert front[..k] == arrivals[..k];
      }
      AdmittedIsBounded(r, start, front);
      assert AdmitsAt(r, Full(r, start), arrivals, n);
      AdmittingCosts(r, RelayAfter(r, Full(r, start), front), times[n], arrivals[n]);
      assert |arrivals| * r.refill == n * r.refill + r.refill;
    }
  }

  /** For any intolerable jitter there is a run of the pacer, and an ordered path
      within that jitter, of which a freshly opened bucket refuses an arrival. */
  lemma IntolerableJitterLoses(pace: Rate, relay: Rate, jitter: nat, n: nat)
    requires Usable(pace) && WholeMillis(relay) && Spare(pace, relay, jitter, n) < 0
    ensures var attempts := Flat(pace, n);
            var path := HeldBack(attempts, jitter);
            && Nondecreasing([0] + attempts)
            && Writes(pace, Full(pace, 0), attempts) == attempts
            && Delivers(attempts, path, 0, jitter) && KeepsOrder(path)
            && exists k | 0 <= k < |path| :: !AdmitsAt(relay, Full(relay, jitter), Times(path), k)
  {
    hide AfterPacer, PacerTakes, PacerRefill, RelayRefill, AdmitsAt, Flat;
    var attempts := Flat(pace, n);
    FlatAllWrite(pace, n, pace.burst + n);
    FlatIsOrdered(pace, n);
    assert attempts[..pace.burst + n] == attempts;
    HeldBackDelivers(attempts, jitter);
    HeldBackOverloads(pace, relay, jitter, n);
  }

  lemma HeldBackOverloads(pace: Rate, relay: Rate, jitter: nat, n: nat)
    requires Usable(pace) && WholeMillis(relay) && Spare(pace, relay, jitter, n) < 0
    ensures var arrivals := Times(HeldBack(Flat(pace, n), jitter));
            exists k | 0 <= k < |arrivals| :: !AdmitsAt(relay, Full(relay, jitter), arrivals, k)
  {
    hide RelayRefill, AdmitsAt;
    var arrivals := Times(HeldBack(Flat(pace, n), jitter));
    FlatIsOrdered(pace, n);
    if forall k | 0 <= k < |arrivals| :: AdmitsAt(relay, Full(relay, jitter), arrivals, k) {
      HeldBackDelivers(Flat(pace, n), jitter);
      AdmittedIsBounded(relay, jitter, arrivals);
      MulMonotone(relay.refill, 0, RelayAfter(relay, Full(relay, jitter), arrivals).tokens);
    }
  }

  lemma FlatIsOrdered(pace: Rate, n: nat)
    requires Usable(pace)
    ensures var flat := Flat(pace, n);
            && |flat| == pace.burst + n && flat[|flat| - 1] == n * pace.refill
            && Nondecreasing([0] + flat) && Nondecreasing(flat)
  {
    var flat := Flat(pace, n);
    forall i, j | 0 <= i < j < |flat| ensures flat[i] <= flat[j] {
      MulMonotone(pace.refill, i - pace.burst + 1, j - pace.burst + 1);
    }
  }

  lemma HeldBackDelivers(writes: seq<nat>, jitter: nat)
    requires Nondecreasing(writes)
    ensures Delivers(writes, HeldBack(writes, jitter), 0, jitter) && KeepsOrder(HeldBack(writes, jitter))
    ensures Nondecreasing([jitter] + Times(HeldBack(writes, jitter)))
  {
  }

  /** With the shipped constants every jitter up to 6.6 s is tolerable, more than
      the documented 6.4 s, and nothing above it is. */
  lemma ShippedTolerance(jitter: nat)
    ensures Tolerates(Rate(PACE_BURST, PACE_REFILL), Rate(RATE_BURST, RATE_REFILL), jitter)
            <==> jitter <= 6_600 * NANOS_PER_MILLI
  {
    var pace, relay := Rate(PACE_BURST, PACE_REFILL), Rate(RATE_BURST, RATE_REFILL);
    assert Tolerates(pace, relay, jitter) ==> Spare(pace, relay, jitter, 17) >= 0;
  }

  // A stream woken when due.

  /** Refilling again at the same instant adds nothing to what was taken from. */
  lemma RefillSettles(r: Rate, p: Bucket, now: nat, left: nat)
    requires Usable(r) && p.tokens <= r.burst && left <= PacerRefill(r, p, now).tokens
    ensures var q := PacerRefill(r, p, now).(tokens := left);
            PacerRefill(r, q, now) == q
  {
    hide WholeIntervals;
    var elapsed := SaturatingSub(now, p.lastRefill);
    var whole, q := WholeIntervals(r, elapsed), PacerRefill(r, p, now);
    if q.tokens < r.burst {
      WholeIntervalsRemain(r, elapsed);
      WholeIntervalsAt(r, SaturatingSub(now, q.lastRefill));
    } else {
      WholeIntervalsAt(r, 0);
    }
  }

  /** The pacer in plain numbers: a token for each whole interval elapsed, up to its
      burst, and the rest of the time kept unless it is full. */
  lemma RefillInNumbers(r: Rate, p: Bucket, now: nat)
    requires Usable(r) && p.lastRefill <= now && p.tokens <= r.burst
    ensures var whole, q := (now - p.lastRefill) / r.refill, PacerRefill(r, p, now);
            && q.tokens == Min(p.tokens + whole, r.burst)
            && q.lastRefill == if p.tokens + whole >= r.burst then now else p.lastRefill + r.refill * whole
  {
    DivAtLeast(now - p.lastRefill, r.refill, 0);
  }

  /** The same of the relay's bucket. */
  lemma RelayInNumbers(r: Rate, q: Bucket, now: nat)
    requires WholeMillis(r) && q.lastRefill <= now && q.tokens <= r.burst
    ensures var whole := (now - q.lastRefill) / r.refill;
            && RelayRefill(r, q, now).tokens == Min(q.tokens + whole, r.burst)
            && (whole <= U32_MAX ==> RelayRefill(r, q, now).lastRefill == q.lastRefill + r.refill * whole)
            && (RelayAdmits(r, q, now) <==> q.tokens > 0 || now - q.lastRefill >= r.refill)
  {
    var elapsed := now - q.lastRefill;
    IntervalsAreExact(r, elapsed);
    DivModUnique(elapsed, r.refill, Intervals(r, elapsed), elapsed - r.refill * Intervals(r, elapsed));
    hide Intervals;
    DivAtLeast(elapsed, r.refill, 1);
  }

  function Repeated(now: nat, n: nat): seq<nat> {
    seq(n, _ => now)
  }

  /** An attempt at the instant of the refill takes one of the tokens there were, or
      finds them gone. */
  lemma TakesFromFilled(r: Rate, view: Bucket, filled: Bucket, n: nat, now: nat)
    requires Usable(r) && view.tokens <= r.burst && n <= filled.tokens
    requires PacerRefill(r, view, now) == filled.(tokens := filled.tokens - n)
    ensures PacerTakes(r, view, now) <==> n < filled.tokens
    ensures var view' := AfterPacer(r, view, now);
            && PacerRefill(r, view', now) == view'
            && view' == filled.(tokens := filled.tokens - if n < filled.tokens then n + 1 else n)
  {
    hide PacerRefill;
    RefillSettles(r, view, now, AfterPacer(r, view, now).tokens);
  }

  /** However long it has been, a pacer asked often enough at one instant grants
      exactly its tokens and one for each whole interval since, up to its burst. */
  lemma GrantsWhatElapsed(r: Rate, p: Bucket, now: nat, n: nat)
    requires Usable(r) && p.lastRefill <= now && p.tokens <= r.burst
    ensures var granted := Min(n, Min(p.tokens + (now - p.lastRefill) / r.refill, r.burst));
            && granted >= 0 && Writes(r, p, Repeated(now, n)) == Repeated(now, granted)
            && PacerRefill(r, PacerAfter(r, p, Repeated(now, n)), now)
               == PacerRefill(r, p, now).(tokens := PacerRefill(r, p, now).tokens - granted)
            && PacerAfter(r, p, Repeated(now, n)).tokens <= r.burst
  {
    RefillInNumbers(r, p, now);
    hide PacerRefill, PacerAfter, Writes, Repeated;
    GrantsWhatFilled(r, p, now, n);
  }

  lemma FilledIsBounded(r: Rate, p: Bucket, now: nat)
    requires Usable(r)
    ensures PacerRefill(r, p, now).tokens <= r.burst
  {
  }

  lemma {:induction false} GrantsWhatFilled(r: Rate, p: Bucket, now: nat, n: nat)
    requires Usable(r) && p.tokens <= r.burst
    ensures var filled := PacerRefill(r, p, now);
            var granted := Min(n, filled.tokens);
            && granted >= 0 && Writes(r, p, Repeated(now, n)) == Repeated(now, granted)
            && PacerRefill(r, PacerAfter(r, p, Repeated(now, n)), now) == filled.(tokens := filled.tokens - granted)
            && PacerAfter(r, p, Repeated(now, n)).tokens <= r.burst
  {
    hide PacerRefill, PacerAfter, Writes, AfterPacer, PacerTakes;
    FilledIsBounded(r, p, now);
    if n == 0 {
      NothingAsked(r, p);
      assert Repeated(now, 0) == [];
    } else {
      GrantsWhatFilled(r, p, now, n - 1);
      var before, filled := Repeated(now, n - 1), PacerRefill(r, p, now);
      assert Repeated(now, n) == before + [now];
      AskOnce(r, p, before, now);
      var taken := Min(n - 1, filled.tokens);
      TakesFromFilled(r, PacerAfter(r, p, before), filled, taken, now);
      assert taken < filled.tokens ==> Repeated(now, taken) + [now] == Repeated(now, taken + 1);
    }
  }

  lemma WholeIntervalsRemain(r: Rate, elapsed: nat)
    requires Usable(r)
    ensures r.refill * WholeIntervals(r, elapsed) <= elapsed
    ensures WholeIntervals(r, elapsed) < U32_MAX ==> elapsed < r.refill * WholeIntervals(r, elapsed) + r.refill
  {
    assert elapsed == r.refill * (elapsed / r.refill) + elapsed % r.refill;
    MulMonotone(r.refill, WholeIntervals(r, elapsed), elapsed / r.refill);
  }

  /** `m` instants, each a refill interval after the one before. */
  function DueTimes(r: Rate, p: Bucket, m: nat): (times: seq<nat>)
    ensures |times| == m
  {
    if m == 0 then [] else DueTimes(r, p, m - 1) + [p.lastRefill + r.refill * m]
  }

  /** A stream asks until it is refused, so twice at each of them. */
  function AskedTwice(times: seq<nat>): seq<nat> {
    if times == [] then []
    else AskedTwice(times[..|times| - 1]) + [times[|times| - 1], times[|times| - 1]]
  }

  /** A stream woken at each due instant writes one command per refill interval
      from the moment its tokens run out. */
  lemma {:induction false} WakingWhenDueDrains(r: Rate, p: Bucket, m: nat)
    requires Usable(r) && p.tokens == 0
    ensures var asks := AskedTwice(DueTimes(r, p, m));
            && Writes(r, p, asks) == DueTimes(r, p, m)
            && PacerAfter(r, p, asks) == Bucket(0, p.lastRefill + r.refill * m)
  {
    hide PacerAfter, Writes;
    if m == 0 {
      NothingAsked(r, p);
      assert r.refill * 0 == 0;
    } else {
      WakingWhenDueDrains(r, p, m - 1);
      var times := DueTimes(r, p, m);
      assert times[..m - 1] == DueTimes(r, p, m - 1);
      assert r.refill * m == r.refill * (m - 1) + r.refill;
      WakeGrantsOne(r, p, AskedTwice(times[..m - 1]), p.lastRefill + r.refill * (m - 1));
    }
  }

  lemma NothingAsked(r: Rate, p: Bucket)
    requires Usable(r)
    ensures Writes(r, p, []) == [] && PacerAfter(r, p, []) == p
  {
  }

  /** Asked twice when its next token is due, an empty pacer grants one. */
  lemma WakeGrantsOne(r: Rate, p: Bucket, asks: seq<nat>, last: nat)
    requires Usable(r) && PacerAfter(r, p, asks) == Bucket(0, last)
    ensures var due := last + r.refill;
            && Writes(r, p, asks + [due, due]) == Writes(r, p, asks) + [due]
            && PacerAfter(r, p, asks + [due, due]) == Bucket(0, due)
  {
    hide AfterPacer, PacerTakes, PacerRefill, PacerAfter, Writes;
    var due := last + r.refill;
    TokenExactlyWhenDue(r, Bucket(0, last), due);
    RefusedAgain(r, due);
    AskOnce(r, p, asks, due);
    AskOnce(r, p, asks + [due], due);
    assert asks + [due] + [due] == asks + [due, due];
  }

  lemma AskOnce(r: Rate, p: Bucket, asks: seq<nat>, now: nat)
    requires Usable(r)
    ensures var q := PacerAfter(r, p, asks);
            && PacerAfter(r, p, asks + [now]) == AfterPacer(r, q, now)
            && Writes(r, p, asks + [now]) == if PacerTakes(r, q, now) then Writes(r, p, asks) + [now] else Writes(r, p, asks)
  {
    hide AfterPacer, PacerTakes;
    assert (asks + [now])[..|asks|] == asks;
  }

  lemma RefusedAgain(r: Rate, now: nat)
    requires Usable(r)
    ensures !PacerTakes(r, Bucket(0, now), now) && AfterPacer(r, Bucket(0, now), now) == Bucket(0, now)
  {
    hide WholeIntervals;
    WholeIntervalsAt(r, 0);
  }
}
