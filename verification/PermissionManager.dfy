/** v2::PermissionManager of version 1.4.10 with its blocks, use counts and override list
    (PermissionManager.cpp, lines 1091-1586), as a refinement of PermissionSpec. */
module PermissionManagers {
  import opened PermissionData
  import opened PermissionSpec
  import opened BlockStore
  import opened Options

  datatype FlaggedValue = FlaggedValue(value: PermissionValue, hasValue: bool)

  /** The set permissions below `n`, by increasing id. */
  function SetPermissions(slots: seq<PermissionContainer>, n: nat): seq<(nat, PermissionContainer)>
    requires n <= |slots|
  {
    if n == 0 then []
    else SetPermissions(slots, n - 1) + if slots[n - 1].flags.PermissionSet() then [(n - 1, slots[n - 1])] else []
  }

  /** The list is increasing and holds exactly the set permissions. */
  lemma {:induction false} SetPermissionsSpec(slots: seq<PermissionContainer>, n: nat)
    requires n <= |slots|
    ensures var r := SetPermissions(slots, n);
            && (forall k :: 0 <= k < |r| ==> r[k].0 < n && r[k].1 == slots[r[k].0] && r[k].1.flags.PermissionSet())
            && (forall k, l :: 0 <= k < l < |r| ==> r[k].0 < r[l].0)
            && (forall p: nat :: p < n && slots[p].flags.PermissionSet() ==> (p, slots[p]) in r)
    decreases n
  {
    if n > 0 {
      SetPermissionsSpec(slots, n - 1);
      var r1, r := SetPermissions(slots, n - 1), SetPermissions(slots, n);
      forall p: nat | p < n && slots[p].flags.PermissionSet() ensures (p, slots[p]) in r {
        if p == n - 1 {
          assert r[|r1|] == (p, slots[p]);
        } else {
          assert (p, slots[p]) in r1;
        }
      }
    }
  }

  function Min(a: nat, b: nat): nat {
    if a < b then a else b
  }

  class PermissionManager {
    const idMax: nat
    const blocks: array<Option<Block>>
    const useCount: array<int>
    var channels: seq<ChannelContainer>
    var requiresDbSave: bool

    ghost predicate Valid()
      reads this, blocks, useCount
    {
      && useCount.Length == blocks.Length
      && WellFormed(blocks[..], idMax)
      && (forall b :: 0 <= b < useCount.Length ==> useCount[b] >= 0)
      && (forall k :: 0 <= k < |channels| ==> channels[k].permission < idMax)
    }

    ghost function Contents(): Memory
      reads this, blocks, useCount
      requires Valid()
    {
      Memory(SlotsOf(blocks[..], idMax), channels, requiresDbSave)
    }

    constructor (idMax: nat)
      ensures Valid() && fresh(blocks) && fresh(useCount) && this.idMax == idMax
      ensures Contents() == Memory(seq(idMax, _ => EMPTY_CONTAINER), [], false)
    {
      this.idMax := idMax;
      channels, requiresDbSave := [], false;
      var n := BlockCount(idMax);
      blocks := new Option<Block>[n](_ => None);
      useCount := new int[n](_ => 0);
      new;
      assert SlotsOf(blocks[..], idMax) == seq(idMax, _ => EMPTY_CONTAINER);
    }

    /** Take a use of an existing block. */
    method RefBlock(b: nat) returns (present: bool)
      requires Valid() && b < blocks.Length
      modifies useCount
      ensures Valid() && present == blocks[b].Some?
      ensures useCount[..] == if present then old(useCount[..])[b := old(useCount[b]) + 1] else old(useCount[..])
    {
      if blocks[b].None? {
        return false;
      }
      useCount[b] := useCount[b] + 1;
      return true;
    }

    method UnrefBlock(b: nat)
      requires Valid() && b < blocks.Length && useCount[b] > 0
      modifies useCount
      ensures Valid() && useCount[..] == old(useCount[..])[b := old(useCount[b]) - 1]
    {
      useCount[b] := useCount[b] - 1;
    }

    /** Take a use of a block, allocating it first if it is missing. */
    method RefAllocateBlock(b: nat)
      requires Valid() && b < blocks.Length
      modifies blocks, useCount
      ensures Valid() && blocks[b].Some? && Contents() == old(Contents())
      ensures useCount[..] == old(useCount[..])[b := old(useCount[b]) + 1]
    {
      if blocks[b].None? {
        AllocateInvisible(blocks[..], idMax, b);
        blocks[b] := Some(seq(BLOCK_SIZE, _ => EMPTY_CONTAINER));
      }
      useCount[b] := useCount[b] + 1;
    }

    /** Read the slot of an allocated block. */
    method ReadSlot(p: nat) returns (c: PermissionContainer)
      requires Valid() && p < idMax && BlockOf(p) < blocks.Length && blocks[BlockOf(p)].Some?
      ensures c == Contents().slots[p]
    {
      c := blocks[BlockOf(p)].value[BlockIndex(p)];
    }

    /** Write the slot of an allocated block. */
    method WriteTo(p: nat, c: PermissionContainer)
      requires Valid() && p < idMax && BlockOf(p) < blocks.Length && blocks[BlockOf(p)].Some?
      modifies blocks
      ensures Valid() && blocks[BlockOf(p)].Some?
      ensures Contents() == old(Contents()).(slots := old(Contents()).slots[p := c])
    {
      WriteSlot(blocks[..], idMax, p, c);
      blocks[BlockOf(p)] := Some(blocks[BlockOf(p)].value[BlockIndex(p) := c]);
    }

    // ---------------------------------------------------------------- getters

    /** The container of a permission; empty for ids out of range and for missing blocks. */
    method ReadContainer(p: nat) returns (c: PermissionContainer)
      requires Valid()
      modifies useCount
      ensures Valid() && useCount[..] == old(useCount[..])
      ensures c == if p < idMax then Contents().slots[p] else EMPTY_CONTAINER
    {
      if p >= idMax {
        return EMPTY_CONTAINER;
      }
      BlockBijection(p, BlockOf(p), BlockIndex(p));
      var present := RefBlock(BlockOf(p));
      if !present {
        return EMPTY_CONTAINER;
      }
      c := ReadSlot(p);
      UnrefBlock(BlockOf(p));
    }

    method ValueFlagged(p: nat) returns (v: FlaggedValue)
      requires Valid()
      modifies useCount
      ensures Valid() && useCount[..] == old(useCount[..])
      ensures v == if p < idMax then FlaggedValue(Contents().slots[p].values.value, Contents().slots[p].flags.valueSet)
                   else FlaggedValue(0, false)
    {
      var c := ReadContainer(p);
      v := FlaggedValue(c.values.value, c.flags.valueSet);
    }

    method GrantedFlagged(p: nat) returns (v: FlaggedValue)
      requires Valid()
      modifies useCount
      ensures Valid() && useCount[..] == old(useCount[..])
      ensures v == if p < idMax then FlaggedValue(Contents().slots[p].values.grant, Contents().slots[p].flags.grantSet)
                   else FlaggedValue(0, false)
    {
      var c := ReadContainer(p);
      v := FlaggedValue(c.values.grant, c.flags.grantSet);
    }

    method Find(p: nat, c: nat) returns (k: int)
      ensures k == FindContainer(channels, (p, c))
    {
      for i := 0 to |channels|
        invariant forall j :: 0 <= j < i ==> KeyOf(channels[j]) != (p, c)
      {
        if channels[i].permission == p && channels[i].channel == c {
          FirstContainer(channels, (p, c), i);
          return i;
        }
      }
      return -1;
    }

    method ChannelPermission(p: nat, c: nat) returns (r: PermissionContainer)
      requires Valid()
      ensures var k := FindContainer(channels, (p, c));
              r == if p < idMax && k >= 0 then channels[k].data else EMPTY_CONTAINER
    {
      if p >= idMax {
        return EMPTY_CONTAINER;
      }
      var k := Find(p, c);
      r := if k >= 0 then channels[k].data else EMPTY_CONTAINER;
    }

    // ---------------------------------------------------------------- setters

    method LoadPermission(p: nat, values: PermissionValues, skip: bool, negate: bool, hasValue: bool, hasGrant: bool)
      requires Valid()
      modifies blocks, useCount
      ensures Valid() && useCount[..] == old(useCount[..])
      ensures Contents() == LoadSlot(old(Contents()), p, values, skip, negate, hasValue, hasGrant)
    {
      if p >= idMax {
        return;
      }
      BlockBijection(p, BlockOf(p), BlockIndex(p));
      RefAllocateBlock(BlockOf(p));
      var data := ReadSlot(p);
      WriteTo(p, Loaded(data, values, skip, negate, hasValue, hasGrant));
      UnrefBlock(BlockOf(p));
    }

    method SetPermission(p: nat, ch: Change) returns (before: PermissionContainer)
      requires Valid()
      modifies this`requiresDbSave, blocks, useCount
      ensures Valid() && useCount[..] == old(useCount[..])
      ensures Contents() == SetSlot(old(Contents()), p, ch)
      ensures before == if p < idMax then old(Contents()).slots[p] else EMPTY_CONTAINER
    {
      if p >= idMax {
        return EMPTY_CONTAINER;
      }
      BlockBijection(p, BlockOf(p), BlockIndex(p));
      RefAllocateBlock(BlockOf(p));
      before := ReadSlot(p);
      WriteTo(p, Applied(before, ch, true));
      UnrefBlock(BlockOf(p));
      requiresDbSave := true;
    }

    /** Raise the channel flag of a permission, allocating its block if necessary. */
    method RaiseChannelFlag(p: nat)
      requires Valid() && p < idMax
      modifies blocks, useCount
      ensures Valid() && useCount[..] == old(useCount[..])
      ensures Contents() == old(Contents()).(slots := WithChannelFlag(old(Contents()).slots, p, true))
    {
      BlockBijection(p, BlockOf(p), BlockIndex(p));
      RefAllocateBlock(BlockOf(p));
      var data := ReadSlot(p);
      WriteTo(p, data.(flags := data.flags.(channelSpecific := true)));
      UnrefBlock(BlockOf(p));
    }

    /** Clear the channel flag of a permission if its block exists. */
    method ClearChannelFlag(p: nat)
      requires Valid() && p < idMax
      modifies blocks, useCount
      ensures Valid() && useCount[..] == old(useCount[..])
      ensures Contents() == old(Contents()).(slots := WithChannelFlag(old(Contents()).slots, p, false))
    {
      BlockBijection(p, BlockOf(p), BlockIndex(p));
      var present := RefBlock(BlockOf(p));
      if present {
        var data := ReadSlot(p);
        WriteTo(p, data.(flags := data.flags.(channelSpecific := false)));
        UnrefBlock(BlockOf(p));
      } else {
        assert Contents().slots[p] == EMPTY_CONTAINER;
        assert WithChannelFlag(Contents().slots, p, false) == Contents().slots;
      }
    }

    method AnyOverride(p: nat) returns (found: bool)
      ensures found == HasOverride(channels, p)
    {
      for i := 0 to |channels|
        invariant forall j :: 0 <= j < i ==> !(channels[j].permission == p && channels[j].data.flags.PermissionSet())
      {
        if channels[i].permission == p && channels[i].data.flags.PermissionSet() {
          return true;
        }
      }
      return false;
    }

    /** The second half of set_channel_permission: write the container and withdraw the flag if needed. */
    method WriteOverride(k: nat, ch: Change) returns (before: PermissionContainer)
      requires Valid() && k < |channels|
      modifies this`requiresDbSave, this`channels, blocks, useCount
      ensures Valid() && useCount[..] == old(useCount[..])
      ensures Contents() == Overridden(old(Contents()), k, ch)
      ensures before == old(channels[k].data)
    {
      before := channels[k].data;
      var p := channels[k].permission;
      var data := Applied(before, ch, false);
      channels := channels[k := channels[k].(data := data)];
      if !data.flags.PermissionSet() {
        var others := AnyOverride(p);
        if !others {
          ClearChannelFlag(p);
        }
      }
      requiresDbSave := true;
    }

    method SetChannelPermission(p: nat, c: nat, ch: Change) returns (before: PermissionContainer)
      requires Valid()
      modifies this`requiresDbSave, this`channels, blocks, useCount
      ensures Valid() && useCount[..] == old(useCount[..])
      ensures Contents() == SetOverride(old(Contents()), p, c, ch)
      ensures var k := FindContainer(old(channels), (p, c));
              before == if p < idMax && k >= 0 then old(channels)[k].data else EMPTY_CONTAINER
    {
      if p >= idMax {
        return EMPTY_CONTAINER;
      }
      var k := Find(p, c);
      if k < 0 {
        if !ch.value.SetValue? && !ch.grant.SetValue? {
          return EMPTY_CONTAINER;
        }
        k := |channels|;
        channels := channels + [ChannelContainer(p, c, EMPTY_CONTAINER)];
        RaiseChannelFlag(p);
      }
      before := WriteOverride(k, ch);
    }

    method LoadChannelPermission(p: nat, c: nat, values: PermissionValues, skip: bool, negate: bool, hasValue: bool,
      hasGrant: bool)
      requires Valid()
      modifies this`channels, blocks, useCount
      ensures Valid() && useCount[..] == old(useCount[..])
      ensures Contents() == LoadOverride(old(Contents()), p, c, values, skip, negate, hasValue, hasGrant)
    {
      if p >= idMax {
        return;
      }
      var k := Find(p, c);
      if k < 0 {
        k := |channels|;
        channels := channels + [ChannelContainer(p, c, EMPTY_CONTAINER)];
        RaiseChannelFlag(p);
      }
      var loaded := Loaded(channels[k].data, values, skip, negate, hasValue, hasGrant);
      channels := channels[k := channels[k].(data := loaded)];
    }

    // ---------------------------------------------------------------- lists, flushing and cleanup

    /** Add `delta` to the use count of every allocated block. */
    method CountAll(delta: int)
      requires Valid() && (delta == 1 || delta == -1)
      requires delta == -1 ==> forall b :: 0 <= b < blocks.Length && blocks[b].Some? ==> useCount[b] > 0
      modifies useCount
      ensures Valid()
      ensures forall b :: 0 <= b < useCount.Length ==>
        useCount[b] == old(useCount[b]) + if blocks[b].Some? then delta else 0
    {
      for b := 0 to blocks.Length
        invariant forall a :: 0 <= a < b ==> useCount[a] == old(useCount[a]) + if blocks[a].Some? then delta else 0
        invariant forall a :: b <= a < useCount.Length ==> useCount[a] == old(useCount[a])
      {
        if blocks[b].Some? {
          useCount[b] := useCount[b] + delta;
        }
      }
    }

    /** The set permissions of one block, appended to those of the blocks before it. */
    method ListBlock(b: nat, before: seq<(nat, PermissionContainer)>) returns (r: seq<(nat, PermissionContainer)>)
      requires Valid() && b < blocks.Length && blocks[b].Some?
      requires before == ListedUpTo(blocks[..], idMax, BLOCK_SIZE * b)
      ensures r == ListedUpTo(blocks[..], idMax, BLOCK_SIZE * b + BLOCK_SIZE)
    {
      r := before;
      var block := blocks[b].value;
      ghost var bs := blocks[..];
      for i := 0 to BLOCK_SIZE
        invariant r == ListedUpTo(bs, idMax, BLOCK_SIZE * b + i)
      {
        OneMore(bs, idMax, b, i);
        if block[i].flags.PermissionSet() {
          r := r + [(BLOCK_SIZE * b + i, block[i])];
        }
      }
    }

    method Permissions() returns (r: seq<(nat, PermissionContainer)>)
      requires Valid()
      modifies useCount
      ensures Valid() && useCount[..] == old(useCount[..])
      ensures r == SetPermissions(Contents().slots, idMax)
    {
      CountAll(1);
      r := ListAll();
      CountAll(-1);
    }

    method ListAll() returns (r: seq<(nat, PermissionContainer)>)
      requires Valid()
      ensures r == SetPermissions(Contents().slots, idMax)
    {
      r := [];
      ghost var bs := blocks[..];
      for b := 0 to blocks.Length
        invariant r == ListedUpTo(bs, idMax, BLOCK_SIZE * b)
      {
        if blocks[b].Some? {
          r := ListBlock(b, r);
        } else {
          MissingBlock(bs, idMax, b);
        }
      }
      BlocksCover(idMax);
      assert blocks[..] == bs;
    }

    /** Flush the slots of one block in place. */
    method FlushBlock(b: nat, ghost bs0: seq<Option<Block>>, before: seq<DbUpdate>) returns (us: seq<DbUpdate>)
      requires b < blocks.Length && WellFormed(bs0, idMax) && blocks.Length == |bs0|
      requires blocks[b] == bs0[b] && bs0[b].Some?
      requires before == UpdatedUpTo(bs0, idMax, BLOCK_SIZE * b)
      modifies blocks
      ensures us == UpdatedUpTo(bs0, idMax, BLOCK_SIZE * b + BLOCK_SIZE)
      ensures FlushedBlock(bs0[b], blocks[b])
      ensures forall a :: 0 <= a < blocks.Length && a != b ==> blocks[a] == old(blocks[a])
    {
      var block;
      EntryUpdatesAdd(bs0, idMax, b, BLOCK_SIZE);
      us, block := FlushEntries(blocks[b].value, BLOCK_SIZE * b, before);
      blocks[b] := Some(block);
    }

    /** Flush one slot, and emit its update if one is needed. */
    method FlushEntry(p: nat, c: PermissionContainer, before: seq<DbUpdate>)
      returns (us: seq<DbUpdate>, c': PermissionContainer)
      ensures us == if Emits(c) then before + [UpdateFor(p, 0, c)] else before
      ensures c' == Flushed(c)
    {
      us, c' := before, c;
      if c.flags.Pending() {
        if c.flags.databaseReference || c.flags.PermissionSet() {
          us := us + [UpdateFor(p, 0, c)];
        }
        c' := Flushed(c);
      }
    }

    /** The loop over the slots of one block. */
    method FlushEntries(entries: Block, base: nat, before: seq<DbUpdate>) returns (us: seq<DbUpdate>, block: Block)
      ensures us == before + EntryUpdates(entries, base, BLOCK_SIZE)
      ensures forall i :: 0 <= i < BLOCK_SIZE ==> block[i] == Flushed(entries[i])
    {
      us, block := before, entries;
      var i := 0;
      while i < BLOCK_SIZE
        invariant 0 <= i <= BLOCK_SIZE && us == before + EntryUpdates(entries, base, i)
        invariant forall j :: 0 <= j < BLOCK_SIZE ==> block[j] == if j < i then Flushed(entries[j]) else entries[j]
      {
        var c;
        us, c := FlushEntry(base + i, block[i], us);
        block := block[i := c];
        i := i + 1;
      }
    }

    /** The first half of a flush: all blocks in order. */
    method FlushBlocks() returns (us: seq<DbUpdate>)
      requires Valid()
      modifies blocks
      ensures Valid()
      ensures us == SlotUpdates(old(Contents()).slots, idMax)
      ensures Contents() == old(Contents()).(slots := FlushedSlots(old(Contents()).slots))
    {
      ghost var bs0 := blocks[..];
      us := [];
      for b := 0 to blocks.Length
        invariant us == UpdatedUpTo(bs0, idMax, BLOCK_SIZE * b)
        invariant forall a :: 0 <= a < b ==> FlushedBlock(bs0[a], blocks[a])
        invariant forall a :: b <= a < blocks.Length ==> blocks[a] == bs0[a]
      {
        if blocks[b].Some? {
          us := FlushBlock(b, bs0, us);
        } else {
          MissingBlock(bs0, idMax, b);
        }
      }
      PartlyFlushed(bs0, blocks[..], idMax, blocks.Length);
      BlocksCover(idMax);
    }

    /** The second half of a flush: erase and update the override list in place. */
    method FlushChannels() returns (us: seq<DbUpdate>)
      requires Valid()
      modifies this`channels
      ensures Valid()
      ensures us == OverrideUpdates(old(channels), |old(channels)|)
      ensures channels == FlushedOverrides(old(channels), |old(channels)|)
    {
      us := [];
      var index := 0;
      ghost var n := 0;
      ghost var cs := channels;
      while index < |channels|
        invariant 0 <= n <= |cs| && PartlyErased(cs, n, channels, index, us)
        decreases |cs| - n
      {
        var c := channels[index];
        ErasedStep(cs, n, channels, index, us);
        if c.data.flags.Pending() {
          if c.data.flags.databaseReference || c.data.flags.PermissionSet() {
            us := us + [UpdateFor(c.permission, c.channel, c.data)];
          }
          if c.data.flags.PermissionSet() {
            channels := channels[index := c.(data := Flushed(c.data))];
          } else {
            channels := channels[..index] + channels[index + 1..];
            index := index - 1;
          }
        }
        index := index + 1;
        n := n + 1;
      }
      ErasedAll(cs, n, channels, index, us);
      FlushedPermissions(cs, |cs|, idMax);
    }

    method FlushDbUpdates() returns (us: seq<DbUpdate>)
      requires Valid()
      modifies this`requiresDbSave, this`channels, blocks
      ensures Valid()
      ensures (Contents(), us) == Flush(old(Contents()))
    {
      if !requiresDbSave {
        return [];
      }
      requiresDbSave := false;
      us := FlushBlocks();
      var more := FlushChannels();
      us := us + more;
    }

    method BlockUsed(b: nat) returns (used: bool)
      requires Valid() && b < blocks.Length && blocks[b].Some?
      ensures used == exists i :: 0 <= i < BLOCK_SIZE && InUse(blocks[b].value[i])
    {
      for i := 0 to BLOCK_SIZE
        invariant forall j :: 0 <= j < i ==> !InUse(blocks[b].value[j])
      {
        if InUse(blocks[b].value[i]) {
          return true;
        }
      }
      return false;
    }

    /** Free every block without a slot in use. */
    method CleanUpBlocks()
      requires Valid()
      modifies blocks
      ensures Valid()
      ensures Contents() == Cleanup(old(Contents()))
    {
      ghost var bs0 := blocks[..];
      for b := 0 to blocks.Length
        invariant forall a :: 0 <= a < b ==> blocks[a] == if Used(bs0[a]) then bs0[a] else None
        invariant forall a :: b <= a < blocks.Length ==> blocks[a] == bs0[a]
      {
        if blocks[b].Some? {
          FreedWellFormed(bs0, blocks[..], idMax);
          var used := BlockUsed(b);
          if !used {
            blocks[b] := None;
          }
        }
      }
      FreedWellFormed(bs0, blocks[..], idMax);
      FreedIsCleanup(bs0, blocks[..], idMax);
    }
  }

  lemma {:induction false} FlushedPermissions(cs: seq<ChannelContainer>, n: nat, idMax: nat)
    requires n <= |cs| && forall k :: 0 <= k < |cs| ==> cs[k].permission < idMax
    ensures forall j :: 0 <= j < |FlushedOverrides(cs, n)| ==> FlushedOverrides(cs, n)[j].permission < idMax
    decreases n
  {
    if n > 0 {
      FlushedPermissions(cs, n - 1, idMax);
    }
  }

  /** The first `n` of the overrides `cs` have been flushed: what is left of them is in front of `index`. */
  ghost predicate PartlyErased(cs: seq<ChannelContainer>, n: nat, channels: seq<ChannelContainer>, index: int,
    us: seq<DbUpdate>)
  {
    && n <= |cs| && us == OverrideUpdates(cs, n)
    && channels == FlushedOverrides(cs, n) + cs[n..] && index == |FlushedOverrides(cs, n)|
  }

  /** One round of the erasing loop, in each of its cases. */
  lemma ErasedStep(cs: seq<ChannelContainer>, n: nat, channels: seq<ChannelContainer>, index: int, us: seq<DbUpdate>)
    requires PartlyErased(cs, n, channels, index, us) && 0 <= index < |channels|
    ensures n < |cs| && channels[index] == cs[n]
    ensures var c := cs[n];
      var us' := us + if Emits(c.data) then [UpdateFor(c.permission, c.channel, c.data)] else [];
      if !c.data.flags.Pending() then PartlyErased(cs, n + 1, channels, index + 1, us)
      else if c.data.flags.PermissionSet() then
        PartlyErased(cs, n + 1, channels[index := c.(data := Flushed(c.data))], index + 1, us')
      else PartlyErased(cs, n + 1, channels[..index] + channels[index + 1..], index, us')
  {
    var done, rest, c := FlushedOverrides(cs, n), cs[n + 1..], cs[n];
    assert cs[n..] == [c] + rest;
    Splice(done, c, c.(data := Flushed(c.data)), rest);
    assert us + [] == us && done + [] == done;
  }

  lemma ErasedAll(cs: seq<ChannelContainer>, n: nat, channels: seq<ChannelContainer>, index: int, us: seq<DbUpdate>)
    requires PartlyErased(cs, n, channels, index, us) && index >= |channels|
    ensures us == OverrideUpdates(cs, |cs|) && channels == FlushedOverrides(cs, |cs|)
  {
    assert |cs[n..]| == 0;
    assert cs[n..] == [];
  }

  /** Reading, replacing and erasing the element behind `done`. */
  lemma Splice<T>(done: seq<T>, c: T, d: T, rest: seq<T>)
    ensures var all := done + ([c] + rest);
            && all[|done|] == c
            && all == (done + [c]) + rest
            && all[|done| := d] == (done + [d]) + rest
            && all[..|done|] + all[|done| + 1..] == (done + []) + rest
  {
  }

  ghost predicate Used(b: Option<Block>) {
    b.Some? && exists i :: 0 <= i < BLOCK_SIZE && InUse(b.value[i])
  }

  lemma FreedWellFormed(bs0: seq<Option<Block>>, bs: seq<Option<Block>>, idMax: nat)
    requires WellFormed(bs0, idMax) && |bs| == |bs0|
    requires forall a :: 0 <= a < |bs| ==> bs[a] == bs0[a] || bs[a].None?
    ensures WellFormed(bs, idMax)
  {
    forall p: nat | idMax <= p && BlockOf(p) < |bs| ensures SlotAt(bs, p) == EMPTY_CONTAINER {
      assert SlotAt(bs0, p) == EMPTY_CONTAINER;
    }
  }

  lemma UsedIffInUse(bs: seq<Option<Block>>, idMax: nat, p: nat)
    requires WellFormed(bs, idMax) && p < idMax && BlockOf(p) < |bs|
    ensures BlockInUse(SlotsOf(bs, idMax), p) <==> Used(bs[BlockOf(p)])
  {
    var slots, b := SlotsOf(bs, idMax), BlockOf(p);
    if Used(bs[b]) {
      var i :| 0 <= i < BLOCK_SIZE && InUse(bs[b].value[i]);
      var q := BLOCK_SIZE * b + i;
      BlockBijection(q, b, i);
      assert InUse(SlotAt(bs, q));
      assert InUse(slots[q]);
    }
    if BlockInUse(slots, p) {
      var j :| 0 <= j < |slots| && j / BLOCK_SIZE == p / BLOCK_SIZE && InUse(slots[j]);
      assert SlotAt(bs, j) == slots[j];
      assert InUse(bs[b].value[BlockIndex(j)]);
    }
  }

  lemma FreedIsCleanup(bs0: seq<Option<Block>>, bs: seq<Option<Block>>, idMax: nat)
    requires WellFormed(bs0, idMax) && WellFormed(bs, idMax) && |bs| == |bs0|
    requires forall a :: 0 <= a < |bs| ==> bs[a] == if Used(bs0[a]) then bs0[a] else None
    ensures SlotsOf(bs, idMax) == CleanedSlots(SlotsOf(bs0, idMax))
  {
    forall p: nat | p < idMax
      ensures BlockOf(p) < |bs| && SlotsOf(bs, idMax)[p] == CleanedSlots(SlotsOf(bs0, idMax))[p]
    {
      FreedSlot(bs0, bs, idMax, p);
    }
  }

  lemma FreedSlot(bs0: seq<Option<Block>>, bs: seq<Option<Block>>, idMax: nat, p: nat)
    requires WellFormed(bs0, idMax) && WellFormed(bs, idMax) && |bs| == |bs0| && p < idMax && BlockOf(p) < |bs|
    requires bs[BlockOf(p)] == if Used(bs0[BlockOf(p)]) then bs0[BlockOf(p)] else None
    ensures SlotsOf(bs, idMax)[p] == CleanedSlots(SlotsOf(bs0, idMax))[p]
  {
    UsedIffInUse(bs0, idMax, p);
    assert SlotAt(bs, p) == SlotsOf(bs, idMax)[p];
  }

  ghost predicate FlushedBlock(b0: Option<Block>, b: Option<Block>) {
    match b0
    case None => b.None?
    case Some(block) => b.Some? && b.value == FlushedSlots(block)
  }

  /** The updates for the first `n` slots of a block whose first slot is `base`. */
  function EntryUpdates(block: Block, base: nat, n: nat): seq<DbUpdate>
    requires n <= BLOCK_SIZE
  {
    if n == 0 then []
    else
      EntryUpdates(block, base, n - 1) + if Emits(block[n - 1]) then [UpdateFor(base + n - 1, 0, block[n - 1])] else []
  }

  lemma {:induction false} EntryUpdatesAdd(bs: seq<Option<Block>>, idMax: nat, b: nat, n: nat)
    requires WellFormed(bs, idMax) && b < |bs| && bs[b].Some? && n <= BLOCK_SIZE
    ensures UpdatedUpTo(bs, idMax, BLOCK_SIZE * b + n) ==
            UpdatedUpTo(bs, idMax, BLOCK_SIZE * b) + EntryUpdates(bs[b].value, BLOCK_SIZE * b, n)
  {
    if n > 0 {
      EntryUpdatesAdd(bs, idMax, b, n - 1);
      OneMore(bs, idMax, b, n - 1);
    }
  }

  lemma BlocksCover(idMax: nat)
    ensures BLOCK_SIZE * BlockCount(idMax) >= idMax
  {
  }

  /** The blocks below `b` are flushed, the others are as before. */
  lemma PartlyFlushed(bs0: seq<Option<Block>>, bs: seq<Option<Block>>, idMax: nat, b: nat)
    requires WellFormed(bs0, idMax) && |bs| == |bs0| && b <= |bs|
    requires forall a :: 0 <= a < b ==> FlushedBlock(bs0[a], bs[a])
    requires forall a :: b <= a < |bs| ==> bs[a] == bs0[a]
    ensures WellFormed(bs, idMax)
    ensures b == |bs| ==> SlotsOf(bs, idMax) == FlushedSlots(SlotsOf(bs0, idMax))
  {
    forall p: nat | BlockOf(p) < |bs|
      ensures SlotAt(bs, p) == if BlockOf(p) < b then Flushed(SlotAt(bs0, p)) else SlotAt(bs0, p)
    {
      if BlockOf(p) < b {
        assert FlushedBlock(bs0[BlockOf(p)], bs[BlockOf(p)]);
      }
    }
  }

  /** The set permissions below position `n` of the blocks. */
  ghost function ListedUpTo(bs: seq<Option<Block>>, idMax: nat, n: nat): seq<(nat, PermissionContainer)>
    requires WellFormed(bs, idMax)
  {
    SetPermissions(SlotsOf(bs, idMax), Min(n, idMax))
  }

  /** The updates for the slots below position `n` of the blocks. */
  ghost function UpdatedUpTo(bs: seq<Option<Block>>, idMax: nat, n: nat): seq<DbUpdate>
    requires WellFormed(bs, idMax)
  {
    SlotUpdates(SlotsOf(bs, idMax), Min(n, idMax))
  }

  /** One more slot of an allocated block. */
  lemma OneMore(bs: seq<Option<Block>>, idMax: nat, b: nat, i: nat)
    requires WellFormed(bs, idMax) && b < |bs| && bs[b].Some? && i < BLOCK_SIZE
    ensures var p, c := BLOCK_SIZE * b + i, bs[b].value[i];
            && ListedUpTo(bs, idMax, p + 1)
                == ListedUpTo(bs, idMax, p) + (if c.flags.PermissionSet() then [(p, c)] else [])
            && UpdatedUpTo(bs, idMax, p + 1)
                == UpdatedUpTo(bs, idMax, p) + (if Emits(c) then [UpdateFor(p, 0, c)] else [])
  {
    BlockBijection(BLOCK_SIZE * b + i, b, i);
    assert SlotAt(bs, BLOCK_SIZE * b + i) == bs[b].value[i];
  }

  /** A missing block adds nothing to the lists. */
  lemma MissingBlock(bs: seq<Option<Block>>, idMax: nat, b: nat)
    requires WellFormed(bs, idMax) && b < |bs| && bs[b].None?
    ensures ListedUpTo(bs, idMax, BLOCK_SIZE * b + BLOCK_SIZE) == ListedUpTo(bs, idMax, BLOCK_SIZE * b)
    ensures UpdatedUpTo(bs, idMax, BLOCK_SIZE * b + BLOCK_SIZE) == UpdatedUpTo(bs, idMax, BLOCK_SIZE * b)
  {
    for i := 0 to BLOCK_SIZE
      invariant ListedUpTo(bs, idMax, BLOCK_SIZE * b + i) == ListedUpTo(bs, idMax, BLOCK_SIZE * b)
      invariant UpdatedUpTo(bs, idMax, BLOCK_SIZE * b + i) == UpdatedUpTo(bs, idMax, BLOCK_SIZE * b)
    {
      BlockBijection(BLOCK_SIZE * b + i, b, i);
      assert SlotAt(bs, BLOCK_SIZE * b + i) == EMPTY_CONTAINER;
    }
  }

  lemma {:induction false} FirstContainer(cs: seq<ChannelContainer>, key: Key, i: nat)
    requires i < |cs| && KeyOf(cs[i]) == key && forall j :: 0 <= j < i ==> KeyOf(cs[j]) != key
    ensures FindContainer(cs, key) == i
    decreases i
  {
    if i > 0 {
      FirstContainer(cs[1..], key, i - 1);
    }
  }
}
