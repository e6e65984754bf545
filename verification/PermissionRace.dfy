/** Setters and flushers running concurrently (PermissionManager.cpp, lines 1254-1285, 1294, 1366 and
    1431-1545): which interleavings could lose a pending change. One step is one slot write, one trigger,
    one read or clear of the save flag, one slot of the scan, or the scan of the override list, which
    holds the list lock. */
module PermissionRace {

  datatype Pc =
    | Idle
    | SlotWritten      // set_permission between its slot write and trigger_db_update
    | OverrideWritten  // set_channel_permission between its write and the trigger, holding the list lock
    | Checked          // flush_db_updates has read requires_db_save as true
    | Scanning(next: nat)  // requires_db_save is cleared, slots below `next` are scanned
    | SlotsScanned     // only the override list is left

  /** A container: how often it has been written, how many of these writes the last flush that emitted it has seen,
      and whether it is marked as changed. Overrides that are removed from the list keep their place here. */
  datatype Container = Container(written: nat, saved: nat, pending: bool)

  datatype State = State(slots: seq<Container>, overrides: seq<Container>, dirty: bool, threads: seq<Pc>)

  datatype Step =
    | WriteSlot(t: nat, i: nat)
    | WriteOverride(t: nat, k: nat)
    | Trigger(t: nat)
    | Check(t: nat)
    | Clear(t: nat)
    | ScanSlot(t: nat)
    | EndSlots(t: nat)
    | ScanOverrides(t: nat)

  predicate ListLocked(s: State) {
    exists t :: 0 <= t < |s.threads| && s.threads[t].OverrideWritten?
  }

  predicate Enabled(s: State, st: Step) {
    && st.t < |s.threads|
    && var pc := s.threads[st.t];
    match st
    case WriteSlot(_, i) => pc.Idle? && i < |s.slots|
    case WriteOverride(_, k) => pc.Idle? && k <= |s.overrides| && !ListLocked(s)
    case Trigger(_) => pc.SlotWritten? || pc.OverrideWritten?
    case Check(_) => pc.Idle?
    case Clear(_) => pc.Checked?
    case ScanSlot(_) => pc.Scanning? && pc.next < |s.slots|
    case EndSlots(_) => pc.Scanning? && pc.next >= |s.slots|
    case ScanOverrides(_) => pc.SlotsScanned? && !ListLocked(s)
  }

  function Write(c: Container): Container {
    Container(c.written + 1, c.saved, true)
  }

  /** A container that is marked is emitted as it is now. */
  function Scanned(c: Container): Container {
    if c.pending then Container(c.written, c.written, false) else c
  }

  function AllScanned(cs: seq<Container>): (r: seq<Container>)
    ensures |r| == |cs| && forall k :: 0 <= k < |cs| ==> r[k] == Scanned(cs[k])
  {
    seq(|cs|, k requires 0 <= k < |cs| => Scanned(cs[k]))
  }

  function At(s: State, t: nat, pc: Pc): State
    requires t < |s.threads|
  {
    s.(threads := s.threads[t := pc])
  }

  function Next(s: State, st: Step): State
    requires Enabled(s, st)
  {
    match st
    case WriteSlot(t, i) => At(s, t, SlotWritten).(slots := s.slots[i := Write(s.slots[i])])
    case WriteOverride(t, k) =>
      At(s, t, OverrideWritten).(overrides :=
        if k < |s.overrides| then s.overrides[k := Write(s.overrides[k])]
        else s.overrides + [Write(Container(0, 0, false))])
    case Trigger(t) => At(s, t, Idle).(dirty := true)
    case Check(t) => if s.dirty then At(s, t, Checked) else s
    case Clear(t) => At(s, t, Scanning(0)).(dirty := false)
    case ScanSlot(t) =>
      var i := s.threads[t].next;
      At(s, t, Scanning(i + 1)).(slots := s.slots[i := Scanned(s.slots[i])])
    case EndSlots(t) => At(s, t, SlotsScanned)
    case ScanOverrides(t) => At(s, t, Idle).(overrides := AllScanned(s.overrides))
  }

  /** Somebody will still deal with slot `i`. */
  ghost predicate SlotCovered(s: State, i: nat) {
    || s.dirty
    || (exists t :: 0 <= t < |s.threads| &&
          (s.threads[t].SlotWritten? || (s.threads[t].Scanning? && s.threads[t].next <= i)))
  }

  /** Somebody will still deal with the override list. */
  ghost predicate OverridesCovered(s: State) {
    || s.dirty
    || (exists t :: 0 <= t < |s.threads| &&
          (s.threads[t].OverrideWritten? || s.threads[t].Scanning? || s.threads[t].SlotsScanned?))
  }

  /** All writes to a container that is not marked have been emitted. */
  predicate Honest(c: Container) {
    c.pending || c.saved == c.written
  }

  /** No change goes unmarked, no marked change is forgotten, and the list lock has one owner. */
  ghost predicate NothingLost(s: State) {
    && (forall i :: 0 <= i < |s.slots| ==> Honest(s.slots[i]))
    && (forall k :: 0 <= k < |s.overrides| ==> Honest(s.overrides[k]))
    && (forall i :: 0 <= i < |s.slots| && s.slots[i].pending ==> SlotCovered(s, i))
    && (forall k :: 0 <= k < |s.overrides| && s.overrides[k].pending ==> OverridesCovered(s))
    && (forall t, u :: 0 <= t < u < |s.threads| && s.threads[t].OverrideWritten? ==> !s.threads[u].OverrideWritten?)
  }

  lemma SlotStillCovered(s: State, st: Step, i: nat)
    requires Enabled(s, st) && i < |s.slots| && SlotCovered(s, i)
    ensures Next(s, st).slots[i].pending ==> SlotCovered(Next(s, st), i)
  {
    var s' := Next(s, st);
    if !s.dirty {
      var t :| 0 <= t < |s.threads| &&
        (s.threads[t].SlotWritten? || (s.threads[t].Scanning? && s.threads[t].next <= i));
      if t != st.t {
        assert s'.threads[t] == s.threads[t];
      } else if st.ScanSlot? {
        assert s'.threads[t] == Scanning(s.threads[t].next + 1);
      }
    } else if st.Clear? {
      assert s'.threads[st.t] == Scanning(0);
    }
  }

  lemma OverridesStillCovered(s: State, st: Step)
    requires Enabled(s, st) && OverridesCovered(s) && !st.ScanOverrides?
    ensures OverridesCovered(Next(s, st))
  {
    var s' := Next(s, st);
    if st.Clear? {
      assert s'.threads[st.t].Scanning?;
    } else if !s'.dirty {
      var t :| 0 <= t < |s.threads| &&
        (s.threads[t].OverrideWritten? || s.threads[t].Scanning? || s.threads[t].SlotsScanned?);
      if t == st.t {
        assert s'.threads[t].Scanning? || s'.threads[t].SlotsScanned?;
      } else {
        assert s'.threads[t] == s.threads[t];
      }
    }
  }

  lemma StepLosesNothing(s: State, st: Step)
    requires NothingLost(s) && Enabled(s, st)
    ensures NothingLost(Next(s, st))
  {
    var s' := Next(s, st);
    forall i | 0 <= i < |s'.slots| && s'.slots[i].pending ensures SlotCovered(s', i) {
      if s.slots[i].pending {
        SlotStillCovered(s, st, i);
      } else {
        assert s'.threads[st.t].SlotWritten?;
      }
    }
    forall k | 0 <= k < |s'.overrides| && s'.overrides[k].pending ensures OverridesCovered(s') {
      if k < |s.overrides| && s.overrides[k].pending {
        OverridesStillCovered(s, st);
      } else {
        assert s'.threads[st.t].OverrideWritten?;
      }
    }
  }

  predicate Runs(s: State, sts: seq<Step>, s': State)
    decreases |sts|
  {
    if sts == [] then s' == s
    else Enabled(s, sts[0]) && Runs(Next(s, sts[0]), sts[1..], s')
  }

  predicate Quiescent(s: State) {
    forall t :: 0 <= t < |s.threads| ==> s.threads[t].Idle?
  }

  /** Every write has been emitted by a flush. */
  predicate AllSaved(s: State) {
    && (forall i :: 0 <= i < |s.slots| ==> s.slots[i].saved == s.slots[i].written)
    && (forall k :: 0 <= k < |s.overrides| ==> s.overrides[k].saved == s.overrides[k].written)
  }

  /** In every interleaving a change that has not been emitted is marked and stays covered. When all threads have
      returned and the save flag is clear, every write has been emitted. */
  lemma {:induction false} NoUpdateLost(s: State, sts: seq<Step>, s': State)
    requires NothingLost(s) && Runs(s, sts, s')
    ensures NothingLost(s')
    ensures Quiescent(s') && !s'.dirty ==> AllSaved(s')
    decreases |sts|
  {
    if sts != [] {
      StepLosesNothing(s, sts[0]);
      NoUpdateLost(Next(s, sts[0]), sts[1..], s');
    }
  }

  function SlotWrites(sts: seq<Step>, i: nat): nat {
    if sts == [] then 0 else (if sts[0].WriteSlot? && sts[0].i == i then 1 else 0) + SlotWrites(sts[1..], i)
  }

  function OverrideWrites(sts: seq<Step>, k: nat): nat {
    if sts == [] then 0 else (if sts[0].WriteOverride? && sts[0].k == k then 1 else 0) + OverrideWrites(sts[1..], k)
  }

  function Written(cs: seq<Container>, k: nat): nat {
    if k < |cs| then cs[k].written else 0
  }

  /** Every write counts, and nothing else does. */
  lemma {:induction false} WritesCount(s: State, sts: seq<Step>, s': State, k: nat)
    requires Runs(s, sts, s')
    ensures |s'.slots| == |s.slots|
    ensures k < |s.slots| ==> Written(s'.slots, k) == Written(s.slots, k) + SlotWrites(sts, k)
    ensures Written(s'.overrides, k) == Written(s.overrides, k) + OverrideWrites(sts, k)
    decreases |sts|
  {
    if sts != [] {
      WritesCount(Next(s, sts[0]), sts[1..], s', k);
    }
  }

  /** The steps of one flush that nobody interferes with, from its first look at the flag on. */
  function LoneFlush(t: nat, n: nat): seq<Step> {
    [Check(t), Clear(t)] + Rest(t, n)
  }

  function Rest(t: nat, n: nat): seq<Step> {
    seq(n, _ => ScanSlot(t)) + [EndSlots(t), ScanOverrides(t)]
  }

  /** Nothing is marked among the slots that have been scanned. */
  ghost predicate ScannedUpTo(s: State, n: nat) {
    forall i :: 0 <= i < n && i < |s.slots| ==> !s.slots[i].pending
  }

  lemma {:induction false} ScanRest(s: State, t: nat) returns (s': State)
    requires t < |s.threads| && s.threads[t].Scanning? && s.threads[t].next <= |s.slots|
    requires !ListLocked(s) && ScannedUpTo(s, s.threads[t].next)
    ensures Runs(s, Rest(t, |s.slots| - s.threads[t].next), s') && s'.dirty == s.dirty
    ensures ScannedUpTo(s', |s'.slots|) && forall k :: 0 <= k < |s'.overrides| ==> !s'.overrides[k].pending
    decreases |s.slots| - s.threads[t].next
  {
    var next := s.threads[t].next;
    var sts := Rest(t, |s.slots| - next);
    if next < |s.slots| {
      s' := ScanRest(Next(s, ScanSlot(t)), t);
      assert sts[1..] == Rest(t, |s.slots| - next - 1);
    } else {
      s' := LastSteps(s, t);
      assert sts == [EndSlots(t), ScanOverrides(t)];
    }
  }

  lemma LastSteps(s: State, t: nat) returns (s': State)
    requires t < |s.threads| && s.threads[t].Scanning? && s.threads[t].next >= |s.slots| && !ListLocked(s)
    ensures Runs(s, [EndSlots(t), ScanOverrides(t)], s') && s'.dirty == s.dirty && s'.slots == s.slots
    ensures forall k :: 0 <= k < |s'.overrides| ==> !s'.overrides[k].pending
  {
    var s1 := Next(s, EndSlots(t));
    s' := Next(s1, ScanOverrides(t));
    var sts := [EndSlots(t), ScanOverrides(t)];
    assert sts[1..] == [ScanOverrides(t)] && sts[1..][1..] == [];
    assert Runs(s', sts[1..][1..], s') && Runs(s1, sts[1..], s');
  }

  /** From quiescence one undisturbed flush leaves every write emitted; without the save flag that is so already. */
  lemma LoneFlushDrains(s: State, t: nat) returns (s': State)
    requires NothingLost(s) && Quiescent(s) && t < |s.threads|
    ensures AllSaved(s') && !s'.dirty
    ensures if s.dirty then Runs(s, LoneFlush(t, |s.slots|), s') else s' == s
  {
    s' := s;
    if s.dirty {
      var s2 := Next(Next(s, Check(t)), Clear(t));
      s' := ScanRest(s2, t);
      RunsFirstTwo(s, Check(t), Clear(t), Rest(t, |s.slots|), s');
      NoUpdateLost(s, LoneFlush(t, |s.slots|), s');
    }
  }

  lemma RunsFirstTwo(s: State, a: Step, b: Step, rest: seq<Step>, s': State)
    requires Enabled(s, a) && Enabled(Next(s, a), b) && Runs(Next(Next(s, a), b), rest, s')
    ensures Runs(s, [a, b] + rest, s')
  {
    var sts := [a, b] + rest;
    assert sts[1..] == [b] + rest;
    assert sts[1..][1..] == rest;
    assert Runs(Next(s, a), sts[1..], s');
  }
}
