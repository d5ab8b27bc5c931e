/** Which connect and disconnect reports a client believes, by slot and epoch. */
module Connectivity {
  import opened Basics
  import opened Messages

  datatype Level = Level(epoch: u64, connected: bool)

  datatype Fence = Fence(
    current: map<SlotId, Level>,
    retired: set<(SlotId, u64)>,
    terminal: set<SlotId>)

  const OpenFence := Fence(map[], {}, {})

  datatype Event =
    | Change(slot: SlotId, connected: bool, epoch: Option<u64>)
    | Leave(slot: SlotId)

  predicate Admits(f: Fence, slot: SlotId, connected: bool, epoch: Option<u64>) {
    && slot !in f.terminal
    && (epoch.Some? ==> (slot, epoch.value) !in f.retired)
    && (slot in f.current ==>
          && epoch.Some?
          && if f.current[slot].epoch == epoch.value then f.current[slot].connected || !connected
             else connected)
  }

  function After(f: Fence, e: Event): Fence {
    match e
    case Leave(slot) => f.(terminal := f.terminal + {slot})
    case Change(slot, connected, epoch) =>
      if !Admits(f, slot, connected, epoch) || epoch.None? then f
      else f.(
        current := f.current[slot := Level(epoch.value, connected)],
        retired := if slot in f.current && f.current[slot].epoch != epoch.value
                   then f.retired + {(slot, f.current[slot].epoch)} else f.retired)
  }

  class ConnectivityFence {
    var current: map<SlotId, Level>
    var retired: set<(SlotId, u64)>
    var terminal: set<SlotId>

    ghost function View(): Fence
      reads this
    {
      Fence(current, retired, terminal)
    }

    constructor ()
      ensures View() == OpenFence
    {
      current, retired, terminal := map[], {}, {};
    }

    method MarkTerminal(slot: SlotId)
      modifies this`terminal
      ensures View() == After(old(View()), Leave(slot))
    {
      terminal := terminal + {slot};
    }

    method Admit(slot: SlotId, connected: bool, observed: Option<u64>) returns (ok: bool)
      modifies this
      ensures ok == Admits(old(View()), slot, connected, observed)
      ensures View() == After(old(View()), Change(slot, connected, observed))
    {
      if slot in terminal {
        return false;
      }
      if observed.Some? && (slot, observed.value) in retired {
        return false;
      }
      if slot in current && observed.Some? && current[slot].epoch == observed.value {
        if !current[slot].connected && connected {
          return false;
        }
        current := current[slot := Level(observed.value, connected)];
        return true;
      }
      if slot in current && observed.Some? && connected {
        retired := retired + {(slot, current[slot].epoch)};
        current := current[slot := Level(observed.value, true)];
        return true;
      }
      if slot in current {
        return false;
      }
      if observed.Some? {
        current := current[slot := Level(observed.value, connected)];
      }
      return true;
    }
  }

  // Whole runs.

  function FenceOf(log: seq<Event>): Fence {
    if log == [] then OpenFence else After(FenceOf(log[..|log| - 1]), log[|log| - 1])
  }

  /** The i-th event is a change and it passes. */
  ghost predicate Admitted(log: seq<Event>, i: int) {
    && 0 <= i < |log| && log[i].Change?
    && Admits(FenceOf(log[..i]), log[i].slot, log[i].connected, log[i].epoch)
  }

  ghost predicate AdmittedStamped(log: seq<Event>, i: int) {
    Admitted(log, i) && log[i].epoch.Some?
  }

  /** Where an admitted stamped change stands later: its epoch is retired, or it
      is the live one at a level the change can no longer raise. */
  ghost predicate Settled(f: Fence, c: Event)
    requires c.Change? && c.epoch.Some?
  {
    && c.slot in f.current
    && ((c.slot, c.epoch.value) in f.retired
        || (f.current[c.slot].epoch == c.epoch.value && (c.connected || !f.current[c.slot].connected)))
  }

  ghost predicate Inv(log: seq<Event>) {
    var f := FenceOf(log);
    && (forall slot | slot in f.current :: (slot, f.current[slot].epoch) !in f.retired)
    && (forall i | AdmittedStamped(log, i) :: Settled(f, log[i]))
    && (forall i | 0 <= i < |log| && log[i].Leave? :: log[i].slot in f.terminal)
  }

  lemma {:induction false} InvHolds(log: seq<Event>)
    ensures Inv(log)
  {
    if log != [] {
      var front, e := log[..|log| - 1], log[|log| - 1];
      InvHolds(front);
      forall i | AdmittedStamped(log, i)
        ensures Settled(FenceOf(log), log[i])
      {
        if i < |front| {
          assert front[..i] == log[..i];
          assert AdmittedStamped(front, i);
        }
      }
    }
  }

  lemma {:induction false} FenceGrows(log: seq<Event>, k: nat)
    requires k <= |log|
    ensures FenceOf(log[..k]).retired <= FenceOf(log).retired
    ensures FenceOf(log[..k]).terminal <= FenceOf(log).terminal
    ensures FenceOf(log[..k]).current.Keys <= FenceOf(log).current.Keys
  {
    if k < |log| {
      FenceGrows(log[..|log| - 1], k);
      assert log[..|log| - 1][..k] == log[..k];
    } else {
      assert log[..k] == log;
    }
  }

  /** An admitted stamped change stands settled at every later point. */
  lemma SettledLater(log: seq<Event>, i: nat, j: nat)
    requires i < j <= |log| && AdmittedStamped(log, i)
    ensures Settled(FenceOf(log[..j]), log[i])
  {
    InvHolds(log[..j]);
    assert log[..j][..i] == log[..i];
    assert AdmittedStamped(log[..j], i);
  }

  /** Within an epoch no up passes after a down. */
  lemma UpsThenDowns(log: seq<Event>, i: nat, j: nat)
    requires i < j && AdmittedStamped(log, i) && AdmittedStamped(log, j)
    requires log[i].slot == log[j].slot && log[i].epoch == log[j].epoch
    ensures log[j].connected ==> log[i].connected
  {
    SettledLater(log, i, j);
  }

  /** Once another epoch passes for a slot, the earlier one never passes again:
      the admitted epochs of a slot come in contiguous blocks. */
  lemma EpochsComeInBlocks(log: seq<Event>, i: nat, j: nat, k: nat)
    requires i < j < k && AdmittedStamped(log, i) && AdmittedStamped(log, j) && AdmittedStamped(log, k)
    requires log[i].slot == log[j].slot == log[k].slot && log[i].epoch == log[k].epoch
    ensures log[j].epoch == log[i].epoch
  {
    SettledLater(log, i, j + 1);
    SettledLater(log, j, j + 1);
    InvHolds(log[..j + 1]);
    assert log[..j + 1][..j] == log[..j];
    assert log[..k][..j + 1] == log[..j + 1];
    FenceGrows(log[..k], j + 1);
  }

  /** Every block but a slot's first opens with an up. */
  lemma LaterBlocksOpenUp(log: seq<Event>, i: nat, j: nat)
    requires i < j && AdmittedStamped(log, i) && AdmittedStamped(log, j)
    requires log[i].slot == log[j].slot && !log[j].connected
    ensures log[i].epoch == log[j].epoch
            || exists k | i < k < j :: AdmittedStamped(log, k) && log[k].slot == log[j].slot && log[k].epoch == log[j].epoch
  {
    SettledLater(log, i, j);
    var slot := log[j].slot;
    var k := LiveEpochWasAdmitted(log, j, slot);
    assert log[k].epoch == log[j].epoch;
    if k < i {
      EpochsComeInBlocks(log, k, i, j);
    }
  }

  /** The live level of a slot is the last change admitted for it. */
  lemma {:induction false} LiveEpochWasAdmitted(log: seq<Event>, j: nat, slot: SlotId) returns (k: nat)
    requires j <= |log| && slot in FenceOf(log[..j]).current
    ensures k < j && AdmittedStamped(log, k) && log[k].slot == slot
    ensures FenceOf(log[..j]).current[slot] == Level(log[k].epoch.value, log[k].connected)
    decreases j
  {
    assert log[..j][..j - 1] == log[..j - 1];
    if AdmittedStamped(log, j - 1) && log[j - 1].slot == slot {
      k := j - 1;
    } else {
      k := LiveEpochWasAdmitted(log, j - 1, slot);
    }
  }

  /** Replaying any admitted stamped change later leaves the whole fence as it is. */
  lemma ReplayMovesNothing(log: seq<Event>, i: nat)
    requires AdmittedStamped(log, i)
    ensures FenceOf(log + [log[i]]) == FenceOf(log)
  {
    assert log[..|log|] == log;
    SettledLater(log, i, |log|);
    assert (log + [log[i]])[..|log|] == log;
  }

  /** An epoch ends epoch-less compatibility for its slot. */
  lemma NoUnstampedAfterStamped(log: seq<Event>, i: nat, j: nat)
    requires i < j && AdmittedStamped(log, i) && Admitted(log, j) && log[i].slot == log[j].slot
    ensures log[j].epoch.Some?
  {
    SettledLater(log, i, j);
  }

  /** A leave is final. */
  lemma NothingAfterLeave(log: seq<Event>, i: nat, j: nat)
    requires i < j < |log| && log[i].Leave? && log[j].slot == log[i].slot
    ensures !Admitted(log, j)
  {
    InvHolds(log[..j]);
    assert log[..j][i] == log[i];
  }

  // What must pass.

  ghost predicate HasLeft(log: seq<Event>, slot: SlotId) {
    exists i | 0 <= i < |log| :: log[i] == Leave(slot)
  }

  ghost predicate Reported(log: seq<Event>, slot: SlotId, epoch: u64) {
    exists i | 0 <= i < |log| :: log[i].Change? && log[i].slot == slot && log[i].epoch == Some(epoch)
  }

  /** The fence holds nothing the log does not say. */
  lemma {:induction false} FenceComesFromLog(log: seq<Event>)
    ensures forall slot | slot in FenceOf(log).terminal :: HasLeft(log, slot)
    ensures forall p | p in FenceOf(log).retired :: Reported(log, p.0, p.1)
  {
    hide Admits, HasLeft, Reported;
    if log != [] {
      var front, e := log[..|log| - 1], log[|log| - 1];
      FenceComesFromLog(front);
      LogKeepsSaying(front, e);
      assert log == front + [e];
      if e.slot in FenceOf(front).current {
        LiveEpochWasReported(front, e.slot);
      }
    }
  }

  lemma LiveEpochWasReported(log: seq<Event>, slot: SlotId)
    requires slot in FenceOf(log).current
    ensures Reported(log, slot, FenceOf(log).current[slot].epoch)
  {
    assert log[..|log|] == log;
    var k := LiveEpochWasAdmitted(log, |log|, slot);
  }

  lemma LogKeepsSaying(log: seq<Event>, e: Event)
    ensures forall slot: SlotId | HasLeft(log, slot) :: HasLeft(log + [e], slot)
    ensures forall slot: SlotId, epoch: u64 | Reported(log, slot, epoch) :: Reported(log + [e], slot, epoch)
    ensures e.Leave? ==> HasLeft(log + [e], e.slot)
    ensures e.Change? && e.epoch.Some? ==> Reported(log + [e], e.slot, e.epoch.value)
  {
    var log' := log + [e];
    assert log'[|log|] == e;
    assert forall i | 0 <= i < |log| :: log'[i] == log[i];
  }

  /** A slot that has not left: its first stamped report passes whatever it says, and
      so does every report without an epoch before it. */
  lemma FirstReportPasses(log: seq<Event>, slot: SlotId, connected: bool, epoch: Option<u64>)
    requires !HasLeft(log, slot) && forall e: u64 :: !Reported(log, slot, e)
    ensures Admitted(log + [Change(slot, connected, epoch)], |log|)
  {
    FenceComesFromLog(log);
    if slot in FenceOf(log).current {
      LiveEpochWasReported(log, slot);
    }
    assert (log + [Change(slot, connected, epoch)])[..|log|] == log;
  }

  /** An up under an epoch never reported for the slot passes. */
  lemma NewEpochPasses(log: seq<Event>, slot: SlotId, epoch: u64)
    requires !HasLeft(log, slot) && !Reported(log, slot, epoch)
    ensures Admitted(log + [Change(slot, true, Some(epoch))], |log|)
  {
    FenceComesFromLog(log);
    if slot in FenceOf(log).current {
      LiveEpochWasReported(log, slot);
    }
    assert (log + [Change(slot, true, Some(epoch))])[..|log|] == log;
  }

  lemma {:induction false} LastAdmittedIsLive(log: seq<Event>, i: nat)
    requires AdmittedStamped(log, i)
    requires forall j | i < j < |log| && log[j].slot == log[i].slot :: !AdmittedStamped(log, j)
    ensures var f := FenceOf(log);
            log[i].slot in f.current && f.current[log[i].slot] == Level(log[i].epoch.value, log[i].connected)
  {
    var front := log[..|log| - 1];
    if i < |front| {
      assert front[..i] == log[..i];
      forall j | i < j < |front| && front[j].slot == front[i].slot ensures !AdmittedStamped(front, j) {
        assert front[..j] == log[..j] && !AdmittedStamped(log, j);
      }
      LastAdmittedIsLive(front, i);
      assert !AdmittedStamped(log, |front|) || log[|front|].slot != log[i].slot;
    }
  }

  /** Under the slot's live epoch, the one it was last admitted with, a down passes,
      and an up passes exactly while it is up. */
  lemma LiveEpochPasses(log: seq<Event>, i: nat, connected: bool)
    requires AdmittedStamped(log, i) && !HasLeft(log, log[i].slot)
    requires forall j | i < j < |log| && log[j].slot == log[i].slot :: !AdmittedStamped(log, j)
    ensures Admitted(log + [Change(log[i].slot, connected, log[i].epoch)], |log|) <==> log[i].connected || !connected
  {
    LastAdmittedIsLive(log, i);
    InvHolds(log);
    FenceComesFromLog(log);
    assert (log + [Change(log[i].slot, connected, log[i].epoch)])[..|log|] == log;
  }
}
