/** The send-phase delay: walked toward a commanded target at a bounded rate, by
    whatever schedule of polls the game's turns happen to give. Instants are
    nanoseconds, delays microseconds. */
module Phase {
  import opened Basics
  import opened Arithmetic

  const DEFAULT_SLEW_US_PER_S: nat := 2_000
  const MIN_SLEW_US_PER_S: nat := 100
  const MAX_SLEW_US_PER_S: nat := 10_000
  const MAX_DELAY_US: nat := 100_000

  const NANOS_PER_MICRO: nat := 1_000
  const MICROS_PER_SEC: nat := 1_000_000
  const NANOS_PER_SEC: nat := 1_000_000_000

  datatype Slew = Slew(applied: nat, target: nat, rate: nat, lastAdvance: nat)

  /** The ranges every directive is clamped into. */
  predicate Sane(s: Slew) {
    && s.applied <= MAX_DELAY_US && s.target <= MAX_DELAY_US
    && MIN_SLEW_US_PER_S <= s.rate <= MAX_SLEW_US_PER_S
  }

  function NewSlew(now: nat): (s: Slew)
    ensures Sane(s)
  {
    Slew(0, 0, DEFAULT_SLEW_US_PER_S, now)
  }

  function Step(s: Slew, now: nat): nat {
    var elapsed := Min(SaturatingSub(now, s.lastAdvance) / NANOS_PER_MICRO, U64_MAX);
    Min(elapsed * s.rate, U64_MAX) / MICROS_PER_SEC
  }

  function Toward(from: nat, to: nat, step: nat): nat {
    if from < to then Min(from + step, to) else Max(SaturatingSub(from, step), to)
  }

  function Advance(s: Slew, now: nat): (s': Slew)
    ensures Sane(s) ==> Sane(s')
  {
    if Step(s, now) == 0 then s
    else s.(lastAdvance := now, applied := Toward(s.applied, s.target, Step(s, now)))
  }

  function ClampedRate(slew: u32): nat {
    if slew == 0 then DEFAULT_SLEW_US_PER_S else Max(MIN_SLEW_US_PER_S, Min(slew, MAX_SLEW_US_PER_S))
  }

  /** Whatever a directive says, the delay and the rate stay in range. */
  function Retarget(s: Slew, delay: u32, slew: u32, now: nat): (s': Slew)
    requires Sane(s)
    ensures Sane(s')
  {
    Advance(s, now).(target := Min(delay, MAX_DELAY_US), rate := ClampedRate(slew))
  }

  class PhaseSlew {
    var appliedUs: nat
    var targetUs: nat
    var rateUsPerS: nat
    var lastAdvance: nat

    ghost function View(): Slew
      reads this
    {
      Slew(appliedUs, targetUs, rateUsPerS, lastAdvance)
    }

    constructor (now: nat)
      ensures View() == NewSlew(now)
      ensures appliedUs == 0 && targetUs == 0 && rateUsPerS == 2_000 && lastAdvance == now
    {
      appliedUs, targetUs, rateUsPerS, lastAdvance := 0, 0, DEFAULT_SLEW_US_PER_S, now;
    }

    method AdvanceTo(now: nat) returns (delay: nat)
      modifies this
      ensures View() == Advance(old(View()), now) && delay == appliedUs
    {
      var elapsed := Min(SaturatingSub(now, lastAdvance) / NANOS_PER_MICRO, U64_MAX);
      var step := Min(elapsed * rateUsPerS, U64_MAX) / MICROS_PER_SEC;
      if step > 0 {
        lastAdvance := now;
        if appliedUs < targetUs {
          appliedUs := Min(appliedUs + step, targetUs);
        } else {
          appliedUs := Max(SaturatingSub(appliedUs, step), targetUs);
        }
      }
      delay := appliedUs;
    }

    method RetargetTo(delay: u32, slew: u32, now: nat)
      requires Sane(View())
      modifies this
      ensures View() == Retarget(old(View()), delay, slew, now)
      ensures targetUs == Min(delay, 100_000)
      ensures rateUsPerS == if slew == 0 then 2_000 else Max(100, Min(slew, 10_000))
      ensures Between(old(appliedUs), appliedUs, old(targetUs))
      ensures old(lastAdvance) <= now ==>
                Distance(old(appliedUs), appliedUs) * 1_000_000_000 <= old(rateUsPerS) * (now - old(lastAdvance))
    {
      if lastAdvance <= now {
        StepBounds(View(), now, NANOS_PER_MICRO * rateUsPerS);
      }
      var _ := AdvanceTo(now);
      targetUs := Min(delay, MAX_DELAY_US);
      rateUsPerS := if slew == 0 then DEFAULT_SLEW_US_PER_S
                    else Max(MIN_SLEW_US_PER_S, Min(slew, MAX_SLEW_US_PER_S));
    }
  }

  // Any schedule of polls at one rate.

  function PollAll(s: Slew, polls: seq<nat>): Slew {
    if polls == [] then s else Advance(PollAll(s, polls[..|polls| - 1]), polls[|polls| - 1])
  }

  /** Instants that do not run backwards from the last advance. */
  ghost predicate Schedule(s: Slew, polls: seq<nat>) {
    && (forall i | 0 <= i < |polls| :: s.lastAdvance <= polls[i])
    && (forall i, j | 0 <= i < j < |polls| :: polls[i] <= polls[j])
  }

  function Distance(a: nat, b: nat): nat {
    if a <= b then b - a else a - b
  }

  /** `to` lies between `from` and the target. */
  predicate Between(from: nat, to: nat, target: nat) {
    (from <= to <= target) || (target <= to <= from)
  }

  /** The longest time that buys at most `k` whole microseconds. */
  function Longest(rate: nat, k: nat): nat
    requires rate > 0
  {
    NANOS_PER_MICRO * (((k + 1) * MICROS_PER_SEC - 1) / rate) + NANOS_PER_MICRO - 1
  }

  /** Rates at which the microseconds the code drops never cost half: the longest
      wait that moves nothing is worth less than a microsecond, and the longest
      that moves one no more than two. */
  predicate HalfSafe(rate: nat)
    requires rate > 0
  {
    rate * Longest(rate, 0) < NANOS_PER_SEC && rate * Longest(rate, 1) <= 2 * NANOS_PER_SEC
  }

  /** What the clock's grain costs per step: nothing at a safe rate or when every
      instant is a whole microsecond, otherwise up to the distance one microsecond
      buys. */
  ghost predicate GrainCost(s: Slew, polls: seq<nat>, grain: nat) {
    || grain == NANOS_PER_MICRO * s.rate
    || (grain == 0 && s.rate > 0 && HalfSafe(s.rate))
    || (grain == 0 && s.lastAdvance % NANOS_PER_MICRO == 0
        && forall i | 0 <= i < |polls| :: polls[i] % NANOS_PER_MICRO == 0)
  }

  /** The time consumed so far against the distance moved with it. */
  ghost predicate Accounts(s: Slew, s': Slew, grain: nat) {
    && s'.target == s.target && s'.rate == s.rate && s.lastAdvance <= s'.lastAdvance
    && Between(s.applied, s'.applied, s.target)
    && Distance(s.applied, s'.applied) * NANOS_PER_SEC <= s.rate * (s'.lastAdvance - s.lastAdvance)
    && (s'.applied != s.target ==>
          s.rate * (s'.lastAdvance - s.lastAdvance) <= Distance(s.applied, s'.applied) * (2 * NANOS_PER_SEC + grain))
  }

  lemma StepBounds(s: Slew, now: nat, grain: nat)
    requires Sane(s) && s.lastAdvance <= now
    requires || grain == NANOS_PER_MICRO * s.rate
             || (grain == 0 && s.lastAdvance % NANOS_PER_MICRO == 0 && now % NANOS_PER_MICRO == 0)
    ensures Step(s, now) * NANOS_PER_SEC <= s.rate * (now - s.lastAdvance)
    ensures Step(s, now) < MAX_DELAY_US ==>
              s.rate * (now - s.lastAdvance) < Step(s, now) * NANOS_PER_SEC + NANOS_PER_SEC + grain
  {
    hide Step;
    var ns := now - s.lastAdvance;
    StepOfMicros(s, now);
    WorthOfMicros(s.rate, ns);
    if grain == 0 {
      WholeMicros(s.lastAdvance, now);
    }
    DueBounds(Step(s, now), s.rate * (ns / NANOS_PER_MICRO), s.rate * ns, grain);
  }

  lemma WholeMicros(a: nat, b: nat)
    requires a <= b && a % NANOS_PER_MICRO == 0 && b % NANOS_PER_MICRO == 0
    ensures (b - a) % NANOS_PER_MICRO == 0
  {
  }

  /** From microseconds due to nanoseconds' worth. */
  lemma DueBounds(step: nat, due: nat, worth: nat, grain: nat)
    requires step * MICROS_PER_SEC <= due && NANOS_PER_MICRO * due <= worth
    ensures step * NANOS_PER_SEC <= worth
    ensures due < step * MICROS_PER_SEC + MICROS_PER_SEC
            && (worth == NANOS_PER_MICRO * due || worth < NANOS_PER_MICRO * due + grain) ==>
              worth < step * NANOS_PER_SEC + NANOS_PER_SEC + grain
  {
  }

  /** Time is worth what its whole microseconds are, and less than one more. */
  lemma WorthOfMicros(rate: nat, ns: nat)
    requires rate > 0
    ensures var worth := NANOS_PER_MICRO * (rate * (ns / NANOS_PER_MICRO));
            && worth <= rate * ns < worth + NANOS_PER_MICRO * rate
            && (ns % NANOS_PER_MICRO == 0 ==> rate * ns == worth)
  {
    var us, rest := ns / NANOS_PER_MICRO, ns % NANOS_PER_MICRO;
    assert rate * ns == NANOS_PER_MICRO * (rate * us) + rate * rest;
    MulMonotone(rate, 0, rest);
    MulMonotone(rate, rest, NANOS_PER_MICRO - 1);
  }

  /** The step is the whole microseconds due for the whole microseconds elapsed. */
  lemma StepOfMicros(s: Slew, now: nat)
    requires Sane(s) && s.lastAdvance <= now
    ensures var us := (now - s.lastAdvance) / NANOS_PER_MICRO;
            && Step(s, now) * MICROS_PER_SEC <= s.rate * us
            && (Step(s, now) < MAX_DELAY_US ==> s.rate * us < Step(s, now) * MICROS_PER_SEC + MICROS_PER_SEC)
  {
    var us := (now - s.lastAdvance) / NANOS_PER_MICRO;
    MulMonotone(s.rate, Min(us, U64_MAX), us);
    if us > U64_MAX {
      MulMonotone(U64_MAX, 1, s.rate);
    }
  }

  /** A wait that buys `k` microseconds is no longer than the longest that does. */
  lemma WaitIsAtMostLongest(s: Slew, now: nat)
    requires Sane(s) && s.lastAdvance <= now && Step(s, now) < MAX_DELAY_US
    ensures s.rate * (now - s.lastAdvance) <= s.rate * Longest(s.rate, Step(s, now))
  {
    var us, k := (now - s.lastAdvance) / NANOS_PER_MICRO, Step(s, now);
    if us > U64_MAX {
      MulMonotone(U64_MAX, 1, s.rate);
    }
    DivAtLeast((k + 1) * MICROS_PER_SEC - 1, s.rate, us);
    MulMonotone(s.rate, now - s.lastAdvance, Longest(s.rate, k));
  }

  /** What the time behind one step, or behind none, can be worth. */
  lemma StepCost(s: Slew, now: nat, grain: nat)
    requires Sane(s) && s.lastAdvance <= now && GrainCost(s, [now], grain)
    ensures var step, worth := Step(s, now), s.rate * (now - s.lastAdvance);
            && step * NANOS_PER_SEC <= worth
            && (step == 0 ==> worth < NANOS_PER_SEC + grain)
            && (0 < step < MAX_DELAY_US ==> worth <= step * (2 * NANOS_PER_SEC + grain))
  {
    var step := Step(s, now);
    if grain == 0 && HalfSafe(s.rate) {
      StepBounds(s, now, NANOS_PER_MICRO * s.rate);
      if step < 2 {
        WaitIsAtMostLongest(s, now);
      }
    } else {
      assert [now][0] == now;
      StepBounds(s, now, grain);
      if step > 0 {
        MulMonotone(NANOS_PER_SEC + grain, 1, step);
      }
    }
  }

  lemma PollAccounts(s: Slew, now: nat, grain: nat)
    requires Sane(s) && s.lastAdvance <= now && GrainCost(s, [now], grain)
    ensures Sane(Advance(s, now)) && Accounts(s, Advance(s, now), grain)
    ensures s.lastAdvance <= Advance(s, now).lastAdvance <= now
    ensures Advance(s, now).applied != s.target ==>
              s.rate * (now - Advance(s, now).lastAdvance) < NANOS_PER_SEC + grain
  {
    StepCost(s, now, grain);
    var step, s' := Step(s, now), Advance(s, now);
    assert step > 0 && s'.applied != s.target ==> Distance(s.applied, s'.applied) == step < MAX_DELAY_US;
  }

  lemma AccountsCompose(a: Slew, b: Slew, c: Slew, grain: nat)
    requires Accounts(a, b, grain) && Accounts(b, c, grain)
    ensures Accounts(a, c, grain)
  {
    var ab, bc, ac := Distance(a.applied, b.applied), Distance(b.applied, c.applied), Distance(a.applied, c.applied);
    assert ac == ab + bc;
    assert a.rate * (c.lastAdvance - a.lastAdvance)
        == a.rate * (b.lastAdvance - a.lastAdvance) + a.rate * (c.lastAdvance - b.lastAdvance);
    var worst := 2 * NANOS_PER_SEC + grain;
    assert ac * worst == ab * worst + bc * worst;
  }

  lemma {:induction false} ScheduleAccounts(s: Slew, polls: seq<nat>, grain: nat)
    requires Sane(s) && Schedule(s, polls) && polls != [] && GrainCost(s, polls, grain)
    ensures var s', now := PollAll(s, polls), polls[|polls| - 1];
            && Sane(s') && Accounts(s, s', grain) && s'.lastAdvance <= now
            && GrainCost(s', polls, grain)
            && (s'.applied != s.target ==> s.rate * (now - s'.lastAdvance) < NANOS_PER_SEC + grain)
  {
    var front, now := polls[..|polls| - 1], polls[|polls| - 1];
    if front == [] {
      assert PollAll(s, front) == s;
      PollAccounts(s, now, grain);
    } else {
      ScheduleAccounts(s, front, grain);
      var mid := PollAll(s, front);
      PollAccounts(mid, now, grain);
      AccountsCompose(s, mid, Advance(mid, now), grain);
    }
  }

  /** For every schedule of polls: the delay never overshoots, it moves at most
      at the commanded rate, and while it is short of the target
      rate x elapsed < moved x (2 us + grain) + 1 us + grain. At a safe rate, or on
      a clock of whole microseconds, that is moved > (rate x elapsed - 1 us) / 2. */
  lemma SlewBounds(s: Slew, polls: seq<nat>, grain: nat)
    requires Sane(s) && Schedule(s, polls) && polls != [] && GrainCost(s, polls, grain)
    ensures var s', elapsed := PollAll(s, polls), polls[|polls| - 1] - s.lastAdvance;
            var moved := Distance(s.applied, s'.applied);
            && Between(s.applied, s'.applied, s.target)
            && moved * NANOS_PER_SEC <= s.rate * elapsed
            && (s'.applied != s.target ==>
                  s.rate * elapsed < moved * (2 * NANOS_PER_SEC + grain) + NANOS_PER_SEC + grain)
  {
    ScheduleAccounts(s, polls, grain);
    var s', now := PollAll(s, polls), polls[|polls| - 1];
    assert s.rate * (now - s.lastAdvance)
        == s.rate * (s'.lastAdvance - s.lastAdvance) + s.rate * (now - s'.lastAdvance);
    MulMonotone(s.rate, 0, now - s'.lastAdvance);
  }

  // Half the commanded rate, exactly.

  /** Short of the target, moved > (rate x elapsed - 1 us) / 2. */
  ghost predicate AtLeastHalf(s: Slew, polls: seq<nat>)
    requires polls != []
  {
    var s', elapsed := PollAll(s, polls), polls[|polls| - 1] - s.lastAdvance;
    s'.applied != s.target ==> s.rate * elapsed < Distance(s.applied, s'.applied) * (2 * NANOS_PER_SEC) + NANOS_PER_SEC
  }

  ghost predicate AlwaysAtLeastHalf(rate: nat) {
    forall s, polls | Sane(s) && s.rate == rate && polls != [] && Schedule(s, polls) :: AtLeastHalf(s, polls)
  }

  /** The instant of the n-th poll when polls are as far apart as moving one
      microsecond each allows. */
  function SlowPoll(rate: nat, n: nat): nat
    requires rate > 0
  {
    Longest(rate, 1) * n
  }

  function SlowPolls(rate: nat, n: nat): seq<nat>
    requires rate > 0
  {
    seq(n, i requires 0 <= i => SlowPoll(rate, i + 1))
  }

  predicate SaneRate(rate: nat) {
    MIN_SLEW_US_PER_S <= rate <= MAX_SLEW_US_PER_S
  }

  lemma LongestBuys(s: Slew, k: nat, now: nat)
    requires Sane(s) && k < 2 && now == s.lastAdvance + Longest(s.rate, k)
    ensures Step(s, now) == k
  {
    var us := ((k + 1) * MICROS_PER_SEC - 1) / s.rate;
    assert (now - s.lastAdvance) / NANOS_PER_MICRO == us;
    assert s.rate * us <= (k + 1) * MICROS_PER_SEC - 1 < s.rate * us + s.rate;
    MulMonotone(us, 1, s.rate);
  }

  lemma SlowPollsAreSpaced(rate: nat, n: nat)
    requires rate > 0
    ensures SlowPoll(rate, 0) == 0 && SlowPoll(rate, n + 1) == SlowPoll(rate, n) + Longest(rate, 1)
  {
    hide Longest;
  }

  lemma {:induction false} SlowPollsMoveOneEach(rate: nat, n: nat)
    requires SaneRate(rate) && n <= MAX_DELAY_US
    ensures PollAll(Slew(0, MAX_DELAY_US, rate, 0), SlowPolls(rate, n)) == Slew(n, MAX_DELAY_US, rate, SlowPoll(rate, n))
  {
    hide Step, Longest, SlowPoll;
    if n == 0 {
      assert SlowPoll(rate, 0) == 0 by { SlowPollsAreSpaced(rate, 0); }
    } else {
      assert SlowPolls(rate, n)[..n - 1] == SlowPolls(rate, n - 1);
      SlowPollsAreSpaced(rate, n - 1);
      SlowPollsMoveOneEach(rate, n - 1);
      LongestBuys(Slew(n - 1, MAX_DELAY_US, rate, SlowPoll(rate, n - 1)), 1, SlowPoll(rate, n));
    }
  }

  lemma SlowPollsAreOrdered(rate: nat, n: nat, wait: nat)
    requires rate > 0
    ensures Schedule(Slew(0, MAX_DELAY_US, rate, 0), SlowPolls(rate, n))
    ensures Schedule(Slew(0, MAX_DELAY_US, rate, 0), SlowPolls(rate, n) + [SlowPoll(rate, n) + wait])
  {
    hide Longest;
    forall i: nat, j: nat | i <= j ensures SlowPoll(rate, i) <= SlowPoll(rate, j) {
      MulMonotone(Longest(rate, 1), i, j);
    }
  }

  /** The worst case: `n` such polls, then the longest wait that moves nothing. */
  lemma SlowPollsCost(rate: nat, n: nat) returns (s: Slew, polls: seq<nat>)
    requires SaneRate(rate) && n < MAX_DELAY_US
    ensures Sane(s) && s.rate == rate && polls != [] && Schedule(s, polls)
    ensures AtLeastHalf(s, polls) <==>
            n * (rate * Longest(rate, 1) - 2 * NANOS_PER_SEC) + rate * Longest(rate, 0) < NANOS_PER_SEC
  {
    hide Step, Longest, Schedule, SlowPolls;
    var last := SlowPoll(rate, n) + Longest(rate, 0);
    s, polls := Slew(0, MAX_DELAY_US, rate, 0), SlowPolls(rate, n) + [last];
    assert polls[..|polls| - 1] == SlowPolls(rate, n);
    SlowPollsMoveOneEach(rate, n);
    LongestBuys(PollAll(s, SlowPolls(rate, n)), 0, last);
    SlowPollsAreOrdered(rate, n, Longest(rate, 0));
    assert PollAll(s, polls) == PollAll(s, SlowPolls(rate, n));
    assert rate * last == n * (rate * Longest(rate, 1)) + rate * Longest(rate, 0);
  }

  /** The half-rate bound holds for every schedule, on every clock, exactly at the
      safe rates. */
  lemma HalfRateExactly(rate: nat)
    requires SaneRate(rate)
    ensures AlwaysAtLeastHalf(rate) <==> HalfSafe(rate)
  {
    if HalfSafe(rate) {
      forall s, polls | Sane(s) && s.rate == rate && polls != [] && Schedule(s, polls)
        ensures AtLeastHalf(s, polls)
      {
        SlewBounds(s, polls, 0);
      }
    } else {
      var excess := rate * Longest(rate, 1) - 2 * NANOS_PER_SEC;
      var spare := NANOS_PER_SEC - rate * Longest(rate, 0);
      var us := (MICROS_PER_SEC - 1) / rate;
      assert spare <= rate by {
        assert MICROS_PER_SEC - 1 < rate * us + rate;
        assert rate * Longest(rate, 0) == NANOS_PER_MICRO * (rate * us) + (NANOS_PER_MICRO - 1) * rate;
      }
      var n := if spare <= 0 then 0 else spare;
      var s, polls := SlowPollsCost(rate, n);
      if n > 0 {
        MulMonotone(n, 1, excess);
      }
      assert !AtLeastHalf(s, polls);
    }
  }

  /** Among them is every rate that divides a second's microseconds, so the
      default and both bounds. */
  lemma DivisorsAreSafe(rate: nat)
    requires rate > 0 && MICROS_PER_SEC % rate == 0
    ensures HalfSafe(rate)
  {
    var q := MICROS_PER_SEC / rate;
    assert rate * q == MICROS_PER_SEC;
    DivModUnique(MICROS_PER_SEC - 1, rate, q - 1, rate - 1);
    DivModUnique(2 * MICROS_PER_SEC - 1, rate, 2 * q - 1, rate - 1);
  }

  /** At 9,999 us/s polls 200.999 us apart move 110 us in a time that buys over
      221: less than half. */
  lemma HalfRateFailsOnFineClock()
    ensures var s, polls := Slew(0, MAX_DELAY_US, 9_999, 0), SlowPolls(9_999, 110);
            && Sane(s) && Schedule(s, polls) && polls[0] == 200_999
            && PollAll(s, polls).applied == 110 < s.target && !AtLeastHalf(s, polls)
  {
    assert Longest(9_999, 1) == 200_999;
    hide PollAll, Schedule, Longest;
    SlowPollsMoveOneEach(9_999, 110);
    SlowPollsAreOrdered(9_999, 110, 0);
  }

  /** The default rate and both bounds are safe; not every rate between them is. */
  lemma ShippedRatesAreSafe()
    ensures AlwaysAtLeastHalf(DEFAULT_SLEW_US_PER_S)
    ensures AlwaysAtLeastHalf(MIN_SLEW_US_PER_S) && AlwaysAtLeastHalf(MAX_SLEW_US_PER_S)
    ensures !AlwaysAtLeastHalf(9_999)
  {
    assert !HalfSafe(9_999);
    hide AlwaysAtLeastHalf, HalfSafe;
    HalfRateExactly(9_999);
    forall rate | rate in {DEFAULT_SLEW_US_PER_S, MIN_SLEW_US_PER_S, MAX_SLEW_US_PER_S}
      ensures AlwaysAtLeastHalf(rate)
    {
      DivisorsAreSafe(rate);
      HalfRateExactly(rate);
    }
  }

  // A rate change and the time already elapsed.

  /** Some later poll moves further than the rate allows for the time since `now`. */
  ghost predicate ReachesBack(s: Slew, now: nat) {
    exists later: nat ::
      later >= now && Distance(s.applied, Advance(s, later).applied) * NANOS_PER_SEC > s.rate * (later - now)
  }

  /** The shortest time that buys `k` microseconds. */
  function Shortest(rate: nat, k: nat): nat
    requires rate > 0
  {
    NANOS_PER_MICRO * ((k * MICROS_PER_SEC + rate - 1) / rate)
  }

  /** Time left on the books at `now` pays for part of the shortest wait that buys
      `k` microseconds. */
  predicate LeftoverBuys(s: Slew, now: nat, k: nat)
    requires s.rate > 0 && s.lastAdvance <= now
  {
    s.rate * Shortest(s.rate, k) < k * NANOS_PER_SEC + s.rate * (now - s.lastAdvance)
  }

  lemma ShortestBuys(s: Slew, k: nat, wait: nat)
    requires Sane(s) && k <= MAX_DELAY_US && wait >= Shortest(s.rate, k)
    ensures Step(s, s.lastAdvance + wait) >= k
  {
    var least, us := (k * MICROS_PER_SEC + s.rate - 1) / s.rate, Min(wait / NANOS_PER_MICRO, U64_MAX);
    assert k * MICROS_PER_SEC + s.rate - 1 == s.rate * least + (k * MICROS_PER_SEC + s.rate - 1) % s.rate;
    DivAtLeast(wait, NANOS_PER_MICRO, least);
    MulMonotone(least, 1, s.rate);
    MulMonotone(s.rate, least, us);
    DivAtLeast(Min(us * s.rate, U64_MAX), MICROS_PER_SEC, k);
  }

  lemma BuyingTakesShortest(s: Slew, k: nat, now: nat)
    requires Sane(s) && s.lastAdvance <= now && k <= Step(s, now)
    ensures now - s.lastAdvance >= Shortest(s.rate, k)
  {
    var us := (now - s.lastAdvance) / NANOS_PER_MICRO;
    var counted := Min(us, U64_MAX);
    DivAtLeast(Min(counted * s.rate, U64_MAX), MICROS_PER_SEC, k);
    MulMonotone(s.rate, counted, us);
    var least := (k * MICROS_PER_SEC + s.rate - 1) / s.rate;
    assert k * MICROS_PER_SEC + s.rate - 1 == s.rate * least + (k * MICROS_PER_SEC + s.rate - 1) % s.rate;
    assert s.rate * (us - least) == s.rate * us - s.rate * least;
    if us < least {
      MulMonotone(s.rate, us - least, -1);
    }
  }

  lemma BuyingReachesBack(s: Slew, now: nat, k: nat)
    requires Sane(s) && s.lastAdvance <= now && 1 <= k <= Distance(s.applied, s.target)
    ensures LeftoverBuys(s, now, k) ==> ReachesBack(s, now)
  {
    hide Step, Shortest;
    var left := now - s.lastAdvance;
    var wait := Max(left, Shortest(s.rate, k));
    ShortestBuys(s, k, wait);
    var later := s.lastAdvance + wait;
    assert Distance(s.applied, Advance(s, later).applied) >= k;
    assert s.rate * (later - now) == s.rate * wait - s.rate * left;
  }

  lemma ReachingBackBuys(s: Slew, now: nat, later: nat)
    requires Sane(s) && s.lastAdvance <= now <= later
    ensures var k := Distance(s.applied, Advance(s, later).applied);
            k * NANOS_PER_SEC > s.rate * (later - now) ==>
              1 <= k <= Distance(s.applied, s.target) && LeftoverBuys(s, now, k)
  {
    hide Step, Shortest;
    var k := Distance(s.applied, Advance(s, later).applied);
    BuyingTakesShortest(s, k, later);
    MulMonotone(s.rate, Shortest(s.rate, k), later - s.lastAdvance);
    assert s.rate * (later - now) == s.rate * (later - s.lastAdvance) - s.rate * (now - s.lastAdvance);
    MulMonotone(s.rate, 0, later - now);
  }

  /** A slew with time on its books reaches back exactly when some distance still to
      go can be bought with it. */
  lemma ReachesBackExactly(s: Slew, now: nat)
    requires Sane(s) && s.lastAdvance <= now
    ensures ReachesBack(s, now) <==> exists k | 1 <= k <= Distance(s.applied, s.target) :: LeftoverBuys(s, now, k)
  {
    hide Advance, LeftoverBuys;
    if exists k | 1 <= k <= Distance(s.applied, s.target) :: LeftoverBuys(s, now, k) {
      var k :| 1 <= k <= Distance(s.applied, s.target) && LeftoverBuys(s, now, k);
      BuyingReachesBack(s, now, k);
    }
    if ReachesBack(s, now) {
      var later: nat :| later >= now
        && Distance(s.applied, Advance(s, later).applied) * NANOS_PER_SEC > s.rate * (later - now);
      ReachingBackBuys(s, now, later);
    }
  }

  /** A slew that does not reach back keeps to its rate from `now` on, whatever the
      polls. */
  lemma {:induction false} OtherwiseKeepsToItsRate(s: Slew, now: nat, polls: seq<nat>)
    requires Sane(s) && s.lastAdvance <= now && !ReachesBack(s, now)
    requires polls != [] && Schedule(s, polls) && now <= polls[0]
    ensures var s' := PollAll(s, polls);
            && Distance(s.applied, s'.applied) * NANOS_PER_SEC <= s.rate * (polls[|polls| - 1] - now)
            && (s' == s || (now <= s'.lastAdvance
                            && Distance(s.applied, s'.applied) * NANOS_PER_SEC <= s.rate * (s'.lastAdvance - now)))
  {
    var front, last := polls[..|polls| - 1], polls[|polls| - 1];
    assert polls[0] <= last;
    var mid := PollAll(s, front);
    if front == [] {
      assert mid == s;
    } else {
      assert front[0] == polls[0];
      OtherwiseKeepsToItsRate(s, now, front);
      ScheduleAccounts(s, front, NANOS_PER_MICRO * s.rate);
    }
    PollKeepsToItsRate(s, now, mid, last);
  }

  lemma PollKeepsToItsRate(s: Slew, now: nat, mid: Slew, last: nat)
    requires Sane(s) && Sane(mid) && s.lastAdvance <= now <= last && !ReachesBack(s, now)
    requires mid.rate == s.rate && mid.target == s.target && mid.lastAdvance <= last
    requires Between(s.applied, mid.applied, s.target)
    requires || mid == s
             || (now <= mid.lastAdvance
                 && Distance(s.applied, mid.applied) * NANOS_PER_SEC <= s.rate * (mid.lastAdvance - now))
    ensures var s' := Advance(mid, last);
            && Distance(s.applied, s'.applied) * NANOS_PER_SEC <= s.rate * (last - now)
            && (s' == s || (now <= s'.lastAdvance
                            && Distance(s.applied, s'.applied) * NANOS_PER_SEC <= s.rate * (s'.lastAdvance - now)))
  {
    var s' := Advance(mid, last);
    if mid == s {
      assert Distance(s.applied, Advance(s, last).applied) * NANOS_PER_SEC <= s.rate * (last - now);
    } else {
      StepBounds(mid, last, NANOS_PER_MICRO * s.rate);
      assert Distance(mid.applied, s'.applied) <= Step(mid, last);
      assert Distance(s.applied, s'.applied) == Distance(s.applied, mid.applied) + Distance(mid.applied, s'.applied);
      assert s.rate * (last - now) == s.rate * (mid.lastAdvance - now) + s.rate * (last - mid.lastAdvance);
      MulMonotone(s.rate, 0, last - mid.lastAdvance);
    }
  }

  /** What there is to buy with a leftover at the rates that divide a second's
      microseconds, and at any rate with as far to go as it covers in a second. */
  lemma AnyLeftoverBuys(s: Slew, now: nat, k: nat)
    requires Sane(s) && s.lastAdvance < now
    requires k == s.rate || (k == 1 && MICROS_PER_SEC % s.rate == 0)
    ensures LeftoverBuys(s, now, k)
  {
    MulMonotone(s.rate, 1, now - s.lastAdvance);
    if k == s.rate {
      DivModUnique(k * MICROS_PER_SEC + s.rate - 1, s.rate, MICROS_PER_SEC, s.rate - 1);
    } else {
      var q := MICROS_PER_SEC / s.rate;
      assert s.rate * q == MICROS_PER_SEC;
      DivModUnique(MICROS_PER_SEC + s.rate - 1, s.rate, q, s.rate - 1);
    }
  }

  /** A rate change reaches back to time already elapsed exactly when less than a
      whole microsecond was due for it at the old rate, and the new rate can buy
      some of the distance to the new target with it. */
  lemma RetargetReachesBackExactly(s: Slew, delay: u32, slew: u32, now: nat)
    requires Sane(s) && s.lastAdvance <= now
    ensures var s' := Retarget(s, delay, slew, now);
            ReachesBack(s', now) <==>
              && Step(s, now) == 0 && s.lastAdvance < now
              && exists k | 1 <= k <= Distance(s.applied, s'.target) :: LeftoverBuys(s', now, k)
  {
    var s' := Retarget(s, delay, slew, now);
    assert s'.lastAdvance == if Step(s, now) > 0 then now else s.lastAdvance;
    hide Step, Shortest, Advance;
    ReachesBackExactly(s', now);
    if s'.lastAdvance == now {
      forall k | 1 <= k <= Distance(s'.applied, s'.target) ensures !LeftoverBuys(s', now, k) {
        NothingLeftBuysNothing(s', now, k);
      }
    }
  }

  lemma NothingLeftBuysNothing(s: Slew, now: nat, k: nat)
    requires s.rate > 0 && s.lastAdvance == now
    ensures !LeftoverBuys(s, now, k)
  {
    var least := (k * MICROS_PER_SEC + s.rate - 1) / s.rate;
    assert k * MICROS_PER_SEC + s.rate - 1 == s.rate * least + (k * MICROS_PER_SEC + s.rate - 1) % s.rate;
    assert s.rate * Shortest(s.rate, k) == NANOS_PER_MICRO * (s.rate * least);
    assert s.rate * 0 == 0;
  }

  /** At a new rate that divides a second's microseconds, so at the default and both
      bounds, that is as soon as there is any way to go; at any other, at the latest
      once it is as far as the rate covers in a second. */
  lemma LeftoverTimeReachesBack(s: Slew, delay: u32, slew: u32, now: nat)
    requires Sane(s) && s.lastAdvance <= now
    ensures var s' := Retarget(s, delay, slew, now);
            var leftover := Step(s, now) == 0 && s.lastAdvance < now;
            && (MICROS_PER_SEC % s'.rate == 0 ==> (ReachesBack(s', now) <==> leftover && s.applied != s'.target))
            && (Distance(s.applied, s'.target) >= s'.rate ==> (ReachesBack(s', now) <==> leftover))
  {
    var s' := Retarget(s, delay, slew, now);
    RetargetReachesBackExactly(s, delay, slew, now);
    assert Step(s, now) == 0 ==> s'.applied == s.applied && s'.lastAdvance == s.lastAdvance;
    hide Step, Advance, Retarget, ReachesBack, LeftoverBuys;
    if Step(s, now) == 0 && s.lastAdvance < now {
      if MICROS_PER_SEC % s'.rate == 0 && s.applied != s'.target {
        AnyLeftoverBuys(s', now, 1);
      }
      if Distance(s.applied, s'.target) >= s'.rate {
        AnyLeftoverBuys(s', now, s'.rate);
      }
    }
  }

  /** What a retarget leaves on the books was worth about a microsecond at most at
      the old rate. */
  lemma LeftoverIsSmall(s: Slew, delay: u32, slew: u32, now: nat)
    requires Sane(s) && s.lastAdvance <= now
    ensures s.rate * (now - Retarget(s, delay, slew, now).lastAdvance) < NANOS_PER_SEC + NANOS_PER_MICRO * s.rate
  {
    StepBounds(s, now, NANOS_PER_MICRO * s.rate);
    assert s.rate * 0 == 0;
  }

  /** For example, 9 ms at 100 us/s move nothing, and the retarget to 10,000 us/s
      then charges all of them at the new rate. */
  lemma RateChangeReachesBack()
    ensures var s := Slew(0, 50_000, 100, 0);
            var s' := Retarget(s, 50_000, 10_000, 9_000_000);
            && s'.applied == 0
            && Advance(s', 9_000_000).applied == 90
            && ReachesBack(s', 9_000_000)
  {
    var s := Slew(0, 50_000, 100, 0);
    assert Step(s, 9_000_000) == 0;
    var s' := Retarget(s, 50_000, 10_000, 9_000_000);
    assert Step(s', 9_000_000) == 90;
    assert Distance(s'.applied, Advance(s', 9_000_000).applied) == 90;
  }
}
