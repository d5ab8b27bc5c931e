/** When a run of failed dials asks the coordinator for another relay: after a
    window, at once on a certificate rejection, and then on a bounded cadence. */
module Escalation {
  import opened Basics

  datatype Timing = Timing(after: nat, retry: nat)

  /** One failed dial to the home relay. `answeredAt` and `stay` are the provider's
      answer, if this failure asks it. */
  datatype Failure = Failure(at: nat, certRejection: bool, answeredAt: nat, stay: bool)

  datatype Clock = Clock(nextAt: nat, escalatedOnce: bool)

  function Window(t: Timing, f: Failure): nat {
    if f.stay then t.after else t.retry
  }

  predicate Due(c: Clock, f: Failure) {
    f.at >= if !c.escalatedOnce && f.certRejection then f.at else c.nextAt
  }

  function Next(t: Timing, c: Clock, f: Failure): Clock {
    if Due(c, f) then Clock(f.answeredAt + Window(t, f), true) else c
  }

  function After(t: Timing, start: nat, log: seq<Failure>): Clock {
    if log == [] then Clock(start + t.after, false)
    else Next(t, After(t, start, log[..|log| - 1]), log[|log| - 1])
  }

  predicate Asks(t: Timing, start: nat, log: seq<Failure>, i: nat)
    requires i < |log|
  {
    Due(After(t, start, log[..i]), log[i])
  }

  /** Failures come one after another, each after the last one's answer. */
  ghost predicate InTime(log: seq<Failure>) {
    && (forall i | 0 <= i < |log| :: log[i].at <= log[i].answeredAt)
    && (forall i, j | 0 <= i < j < |log| :: log[i].answeredAt <= log[j].at)
  }

  class EscalationClock {
    const timing: Timing
    var nextEscalateAt: nat
    var escalatedOnce: bool
    ghost const start: nat
    ghost var log: seq<Failure>

    ghost predicate Valid()
      reads this
    {
      Clock(nextEscalateAt, escalatedOnce) == After(timing, start, log)
    }

    constructor (timing: Timing, now: nat)
      ensures Valid() && log == [] && start == now && this.timing == timing
    {
      this.timing, start := timing, now;
      nextEscalateAt, escalatedOnce, log := now + timing.after, false, [];
    }

    method OnFailedDial(f: Failure) returns (asked: bool)
      requires Valid()
      modifies this
      ensures Valid() && log == old(log) + [f] && asked == Asks(timing, start, log, |old(log)|)
    {
      assert (log + [f])[..|log|] == log;
      if !escalatedOnce && f.certRejection {
        nextEscalateAt := f.at;
      }
      asked := f.at >= nextEscalateAt;
      if asked {
        escalatedOnce := true;
        nextEscalateAt := f.answeredAt + if f.stay then timing.after else timing.retry;
      }
      log := log + [f];
    }
  }

  ghost predicate NoneAsks(t: Timing, start: nat, log: seq<Failure>, lo: nat, hi: nat)
    requires hi <= |log|
  {
    forall j | lo <= j < hi :: !Asks(t, start, log, j)
  }

  /** Failures that do not ask leave the clock alone. */
  lemma {:induction false} QuietClock(t: Timing, start: nat, log: seq<Failure>, lo: nat, hi: nat)
    requires lo <= hi <= |log| && NoneAsks(t, start, log, lo, hi)
    ensures After(t, start, log[..hi]) == After(t, start, log[..lo])
    decreases hi
  {
    if lo < hi {
      QuietClock(t, start, log, lo, hi - 1);
      assert !Asks(t, start, log, hi - 1);
      assert log[..hi][..hi - 1] == log[..hi - 1];
    }
  }

  /** Before any ask, a failure asks exactly when the certificate was rejected or
      the window is over. */
  lemma FirstAsk(t: Timing, start: nat, log: seq<Failure>, i: nat)
    requires i < |log| && NoneAsks(t, start, log, 0, i)
    ensures Asks(t, start, log, i) <==> log[i].certRejection || log[i].at >= start + t.after
  {
    QuietClock(t, start, log, 0, i);
  }

  /** After an ask, the next is exactly at the first failure a window past its
      answer: the long one if it was to stay, the retry one otherwise. A
      certificate rejection no longer matters. */
  lemma LaterAsk(t: Timing, start: nat, log: seq<Failure>, l: nat, i: nat)
    requires l < i < |log| && Asks(t, start, log, l) && NoneAsks(t, start, log, l + 1, i)
    ensures Asks(t, start, log, i) <==> log[i].at >= log[l].answeredAt + if log[l].stay then t.after else t.retry
  {
    QuietClock(t, start, log, l + 1, i);
    assert log[..l + 1][..l] == log[..l];
  }

  /** So any two asks are at least the shorter window apart. */
  lemma {:induction false} AsksAreSpaced(t: Timing, start: nat, log: seq<Failure>, i: nat, j: nat)
    requires i < j < |log| && InTime(log) && Asks(t, start, log, i) && Asks(t, start, log, j)
    ensures log[j].at >= log[i].answeredAt + Min(t.after, t.retry)
    decreases j
  {
    if NoneAsks(t, start, log, i + 1, j) {
      LaterAsk(t, start, log, i, j);
    } else {
      var k :| i + 1 <= k < j && Asks(t, start, log, k);
      AsksAreSpaced(t, start, log, i, k);
    }
  }
}
