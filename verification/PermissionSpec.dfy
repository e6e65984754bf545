/** The permission manager on plain values: one slot per permission id, the channel overrides in list
    order and the save flag (PermissionManager.cpp, lines 1091-1586). */
module PermissionSpec {
  import opened PermissionData

  datatype Memory = Memory(slots: seq<PermissionContainer>, channels: seq<ChannelContainer>, dirty: bool)

  function KeyOf(c: ChannelContainer): Key {
    (c.permission, c.channel)
  }

  /** Index of the first container of the given permission and channel, or -1. */
  function FindContainer(cs: seq<ChannelContainer>, key: Key): (i: int)
    ensures -1 <= i < |cs|
    ensures i >= 0 ==> KeyOf(cs[i]) == key
    ensures i < 0 ==> forall k :: 0 <= k < |cs| ==> KeyOf(cs[k]) != key
  {
    if cs == [] then -1
    else if KeyOf(cs[0]) == key then 0
    else
      var i := FindContainer(cs[1..], key);
      assert i < 0 ==> forall k :: 0 <= k < |cs[1..]| ==> cs[1..][k] == cs[k + 1];
      if i < 0 then -1 else i + 1
  }

  /** Some override of the permission is set. */
  predicate HasOverride(cs: seq<ChannelContainer>, p: nat) {
    exists k :: 0 <= k < |cs| && cs[k].permission == p && cs[k].data.flags.PermissionSet()
  }

  function WithChannelFlag(slots: seq<PermissionContainer>, p: nat, flag: bool): seq<PermissionContainer>
    requires p < |slots|
  {
    slots[p := slots[p].(flags := slots[p].flags.(channelSpecific := flag))]
  }

  predicate SameButChannelFlag(a: PermissionContainer, b: PermissionContainer) {
    a == b.(flags := b.flags.(channelSpecific := a.flags.channelSpecific))
  }

  // ------------------------------------------------------------------ operations

  function LoadSlot(m: Memory, p: nat, values: PermissionValues, skip: bool, negate: bool, hasValue: bool,
    hasGrant: bool): Memory
  {
    if p >= |m.slots| then m
    else m.(slots := m.slots[p := Loaded(m.slots[p], values, skip, negate, hasValue, hasGrant)])
  }

  function LoadOverride(m: Memory, p: nat, c: nat, values: PermissionValues, skip: bool, negate: bool, hasValue: bool,
    hasGrant: bool): Memory
  {
    if p >= |m.slots| then m
    else
      var k := FindContainer(m.channels, (p, c));
      if k < 0 then
        m.(slots := WithChannelFlag(m.slots, p, true),
           channels := m.channels +
              [ChannelContainer(p, c, Loaded(EMPTY_CONTAINER, values, skip, negate, hasValue, hasGrant))])
      else
        m.(channels := m.channels[k := m.channels[k].(data :=
             Loaded(m.channels[k].data, values, skip, negate, hasValue, hasGrant))])
  }

  function SetSlot(m: Memory, p: nat, ch: Change): Memory {
    if p >= |m.slots| then m
    else m.(slots := m.slots[p := Applied(m.slots[p], ch, true)], dirty := true)
  }

  predicate SetsSomething(ch: Change) {
    ch.value.SetValue? || ch.grant.SetValue?
  }

  /** Write the change into container `k` and drop the channel flag when no override is left. */
  function Overridden(m: Memory, k: nat, ch: Change): Memory
    requires k < |m.channels| && m.channels[k].permission < |m.slots|
  {
    var p := m.channels[k].permission;
    var cs := m.channels[k := m.channels[k].(data := Applied(m.channels[k].data, ch, false))];
    m.(channels := cs, dirty := true,
       slots := if !cs[k].data.flags.PermissionSet() && !HasOverride(cs, p)
                then WithChannelFlag(m.slots, p, false) else m.slots)
  }

  function Registered(m: Memory, p: nat, c: nat): Memory
    requires p < |m.slots|
  {
    m.(channels := m.channels + [ChannelContainer(p, c, EMPTY_CONTAINER)],
       slots := WithChannelFlag(m.slots, p, true))
  }

  /** set_channel_permission of version 1.4.10: a container is registered only if it is absent. */
  function SetOverride(m: Memory, p: nat, c: nat, ch: Change): Memory {
    if p >= |m.slots| then m
    else
      var k := FindContainer(m.channels, (p, c));
      if k >= 0 then Overridden(m, k, ch)
      else if !SetsSomething(ch) then m
      else Overridden(Registered(m, p, c), |m.channels|, ch)
  }

  /** set_channel_permission of the master version: a container that is absent or unset is registered. */
  function SetOverrideMaster(m: Memory, p: nat, c: nat, ch: Change): Memory {
    if p >= |m.slots| then m
    else
      var k := FindContainer(m.channels, (p, c));
      if k >= 0 && m.channels[k].data.flags.PermissionSet() then Overridden(m, k, ch)
      else if !ch.value.SetValue? && ch.grant.SetValue? then m
      else if k < 0 then Overridden(Registered(m, p, c), |m.channels|, ch)
      else Overridden(m.(slots := WithChannelFlag(m.slots, p, true)), k, ch)
  }

  /** Updates for the slots below `n`, in increasing order. */
  function SlotUpdates(slots: seq<PermissionContainer>, n: nat): seq<DbUpdate>
    requires n <= |slots|
  {
    if n == 0 then []
    else SlotUpdates(slots, n - 1) + if Emits(slots[n - 1]) then [UpdateFor(n - 1, 0, slots[n - 1])] else []
  }

  function FlushedSlots(slots: seq<PermissionContainer>): (r: seq<PermissionContainer>)
    ensures |r| == |slots| && forall i :: 0 <= i < |slots| ==> r[i] == Flushed(slots[i])
  {
    seq(|slots|, i requires 0 <= i < |slots| => Flushed(slots[i]))
  }

  /** Updates for the first `n` overrides, in list order. */
  function OverrideUpdates(cs: seq<ChannelContainer>, n: nat): seq<DbUpdate>
    requires n <= |cs|
  {
    if n == 0 then []
    else
      var c := cs[n - 1];
      OverrideUpdates(cs, n - 1) + if Emits(c.data) then [UpdateFor(c.permission, c.channel, c.data)] else []
  }

  /** The first `n` overrides after a flush: pending ones that are not set are removed. */
  function FlushedOverrides(cs: seq<ChannelContainer>, n: nat): seq<ChannelContainer>
    requires n <= |cs|
  {
    if n == 0 then []
    else
      var c := cs[n - 1];
      FlushedOverrides(cs, n - 1) +
      if c.data.flags.Pending() && !c.data.flags.PermissionSet() then [] else [c.(data := Flushed(c.data))]
  }

  function Flush(m: Memory): (r: (Memory, seq<DbUpdate>)) {
    if !m.dirty then (m, [])
    else
      (Memory(FlushedSlots(m.slots), FlushedOverrides(m.channels, |m.channels|), false),
       SlotUpdates(m.slots, |m.slots|) + OverrideUpdates(m.channels, |m.channels|))
  }

  const BLOCK_SIZE := 16

  predicate InUse(c: PermissionContainer) {
    c.flags.PermissionSet() || c.flags.channelSpecific
  }

  /** The block of slot `i` holds a slot in use. */
  predicate BlockInUse(slots: seq<PermissionContainer>, i: nat) {
    exists j :: 0 <= j < |slots| && j / BLOCK_SIZE == i / BLOCK_SIZE && InUse(slots[j])
  }

  function CleanedSlots(slots: seq<PermissionContainer>): (r: seq<PermissionContainer>)
    ensures |r| == |slots|
    ensures forall i :: 0 <= i < |slots| ==> r[i] == if BlockInUse(slots, i) then slots[i] else EMPTY_CONTAINER
  {
    seq(|slots|, i requires 0 <= i < |slots| => if BlockInUse(slots, i) then slots[i] else EMPTY_CONTAINER)
  }

  function Cleanup(m: Memory): Memory {
    m.(slots := CleanedSlots(m.slots))
  }
}
