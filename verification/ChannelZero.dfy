/** Overrides for channel 0. They share their rows with the slots, and no call refuses them. This is what one
    flush makes of them, whatever their state, in either version of the library. */
module ChannelZero {
  import opened PermissionData
  import opened PermissionSpec
  import opened PermissionDatabase

  /** The override of permission `p` for channel 0; empty if there is none. */
  function ZeroOverride(m: Memory, p: nat): PermissionContainer {
    var k := FindContainer(m.channels, (p, 0));
    if k >= 0 then m.channels[k].data else EMPTY_CONTAINER
  }

  /** The override leaves the row of the slot as the slot wants it: it emits nothing; or it deletes the row of
      a slot that is not set; or it writes the row that is there anyway; or it inserts in vain, as the row of
      the slot is there already. */
  predicate SparesSlot(s: PermissionContainer, o: PermissionContainer) {
    || !Emits(o)
    || (if !o.flags.PermissionSet() then !s.flags.PermissionSet()
        else if o.flags.databaseReference then s.flags.PermissionSet() ==> RowOf(o) == RowOf(s)
        else s.flags.PermissionSet())
  }

  /** One row serves slot and override: at most one of them needs it and gets it, or both want the same. */
  predicate ServesBoth(s: PermissionContainer, o: PermissionContainer) {
    if !o.flags.PermissionSet() then Emits(o) ==> !s.flags.PermissionSet()
    else if s.flags.PermissionSet() then RowOf(o) == RowOf(s)
    else Emits(o) && !o.flags.databaseReference
  }

  /** The row is present exactly if the slot or the override is set, and is the row of each that is set. */
  predicate HoldsBoth(db: map<Key, Row>, key: Key, s: PermissionContainer, o: PermissionContainer) {
    && (key in db <==> s.flags.PermissionSet() || o.flags.PermissionSet())
    && (key in db && s.flags.PermissionSet() ==> db[key] == RowOf(s))
    && (key in db && o.flags.PermissionSet() ==> db[key] == RowOf(o))
  }

  predicate HoldsRow(db: map<Key, Row>, key: Key, c: PermissionContainer) {
    (key in db <==> c.flags.PermissionSet()) && (key in db ==> db[key] == RowOf(c))
  }

  // ------------------------------------------------------------------ one row

  /** The update of the override, executed on the row of a flushed slot. */
  lemma SecondUpdate(s: PermissionContainer, o: PermissionContainer, db: map<Key, Row>, key: Key)
    requires HoldsRow(db, key, s)
    ensures HoldsRow(AfterUpdate(db, key, o), key, s) <==> SparesSlot(s, o)
    ensures HoldsBoth(AfterUpdate(db, key, o), key, s, o) <==> ServesBoth(s, o)
  {
  }

  /** Both passes of the flush at the row of a slot. */
  lemma FlushedZeroRow(m: Memory, db: map<Key, Row>, p: nat)
    requires CoherentAbove(m, db) && m.dirty && p < |m.slots|
    ensures var db' := ExecutedAll(db, Flush(m).1);
      && (HoldsRow(db', (p, 0), m.slots[p]) <==> SparesSlot(m.slots[p], ZeroOverride(m, p)))
      && (HoldsBoth(db', (p, 0), m.slots[p], ZeroOverride(m, p)) <==> ServesBoth(m.slots[p], ZeroOverride(m, p)))
  {
    var us1, us2 := SlotUpdates(m.slots, |m.slots|), OverrideUpdates(m.channels, |m.channels|);
    var db1, key := ExecutedAll(db, us1), (p, 0);
    ExecutedAppend(db, us1, us2);
    FlushSlotsAt(m.slots, db, |m.slots|, key);
    OverridesRowAt(m.channels, db1, |m.channels|, key);
    SlotRow(m.slots[p], db1, key);
    SecondUpdate(m.slots[p], ZeroOverride(m, p), db1, key);
  }

  lemma SlotRow(s: PermissionContainer, db: map<Key, Row>, key: Key)
    requires Agrees(Flushed(s), db, key)
    ensures HoldsRow(db, key, s)
  {
  }

  /** All other rows are exact after the flush. */
  lemma FlushedOtherRow(m: Memory, db: map<Key, Row>, key: Key)
    requires CoherentAbove(m, db) && m.dirty && !(key.1 == 0 && key.0 < |m.slots|)
    ensures HoldsRow(ExecutedAll(db, Flush(m).1), key, Lookup(m, key))
  {
    var us1, us2 := SlotUpdates(m.slots, |m.slots|), OverrideUpdates(m.channels, |m.channels|);
    var db1, k := ExecutedAll(db, us1), FindContainer(m.channels, key);
    ExecutedAppend(db, us1, us2);
    FlushSlotsAt(m.slots, db, |m.slots|, key);
    OverridesRowAt(m.channels, db1, |m.channels|, key);
    if k >= 0 {
      assert key.1 > 0;
      FlushOne(m.channels[k].data, db1, key);
      SlotRow(m.channels[k].data, AfterUpdate(db1, key, m.channels[k].data), key);
    }
  }

  // ------------------------------------------------------------------ the whole flush

  /** The database serves slots and overrides alike, those for channel 0 included. */
  ghost predicate MirrorsAll(m: Memory, db: map<Key, Row>) {
    forall key: Key ::
      if key.1 == 0 && key.0 < |m.slots| then HoldsBoth(db, key, m.slots[key.0], ZeroOverride(m, key.0))
      else HoldsRow(db, key, Lookup(m, key))
  }

  /** The executed flush mirrors the slots and the overrides above channel 0 exactly if every override for
      channel 0 spares its slot. */
  lemma FlushMirrorsIff(m: Memory, db: map<Key, Row>)
    requires CoherentAbove(m, db) && m.dirty
    ensures Mirrors(m, ExecutedAll(db, Flush(m).1)) <==>
      forall p: nat :: p < |m.slots| ==> SparesSlot(m.slots[p], ZeroOverride(m, p))
  {
    var db' := ExecutedAll(db, Flush(m).1);
    forall key: Key | !(key.1 == 0 && key.0 < |m.slots|) ensures HoldsRow(db', key, Lookup(m, key)) {
      FlushedOtherRow(m, db, key);
    }
    forall p: nat | p < |m.slots|
      ensures Lookup(m, (p, 0)) == m.slots[p]
      ensures HoldsRow(db', (p, 0), m.slots[p]) <==> SparesSlot(m.slots[p], ZeroOverride(m, p))
    {
      FlushedZeroRow(m, db, p);
    }
  }

  /** It serves every container exactly if every shared row serves both of its owners. */
  lemma FlushMirrorsAllIff(m: Memory, db: map<Key, Row>)
    requires CoherentAbove(m, db) && m.dirty
    ensures MirrorsAll(m, ExecutedAll(db, Flush(m).1)) <==>
      forall p: nat :: p < |m.slots| ==> ServesBoth(m.slots[p], ZeroOverride(m, p))
  {
    var db' := ExecutedAll(db, Flush(m).1);
    forall key: Key | !(key.1 == 0 && key.0 < |m.slots|) ensures HoldsRow(db', key, Lookup(m, key)) {
      FlushedOtherRow(m, db, key);
    }
    forall p: nat | p < |m.slots|
      ensures HoldsBoth(db', (p, 0), m.slots[p], ZeroOverride(m, p)) <==> ServesBoth(m.slots[p], ZeroOverride(m, p))
    {
      FlushedZeroRow(m, db, p);
    }
  }

  // ------------------------------------------------------------------ two updates of one row

  ghost predicate Repeated(us: seq<DbUpdate>) {
    exists i, j :: 0 <= i < j < |us| && (us[i].permission, us[i].channel) == (us[j].permission, us[j].channel)
  }

  lemma {:induction false} SlotUpdateFound(slots: seq<PermissionContainer>, n: nat, p: nat) returns (i: nat)
    requires p < n <= |slots| && Emits(slots[p])
    ensures i < |SlotUpdates(slots, n)| && SlotUpdates(slots, n)[i] == UpdateFor(p, 0, slots[p])
    decreases n
  {
    if p == n - 1 {
      i := |SlotUpdates(slots, n - 1)|;
    } else {
      i := SlotUpdateFound(slots, n - 1, p);
    }
  }

  lemma {:induction false} OverrideUpdateFound(cs: seq<ChannelContainer>, n: nat, k: nat) returns (i: nat)
    requires k < n <= |cs| && Emits(cs[k].data)
    ensures i < |OverrideUpdates(cs, n)|
    ensures OverrideUpdates(cs, n)[i] == UpdateFor(cs[k].permission, cs[k].channel, cs[k].data)
    decreases n
  {
    if k == n - 1 {
      i := |OverrideUpdates(cs, n - 1)|;
    } else {
      i := OverrideUpdateFound(cs, n - 1, k);
    }
  }

  /** A flush updates a row twice exactly if a slot and its override for channel 0 both emit. */
  lemma RepeatedIff(m: Memory)
    requires DistinctKeys(m.channels) && m.dirty
    requires forall k :: 0 <= k < |m.channels| ==> m.channels[k].permission < |m.slots|
    ensures Repeated(Flush(m).1) <==>
      exists p: nat :: p < |m.slots| && Emits(m.slots[p]) && Emits(ZeroOverride(m, p))
  {
    var us := Flush(m).1;
    if Repeated(us) {
      var i, j :| 0 <= i < j < |us| && (us[i].permission, us[i].channel) == (us[j].permission, us[j].channel);
      RepeatedOwner(m, i, j);
    }
    if p: nat :| p < |m.slots| && Emits(m.slots[p]) && Emits(ZeroOverride(m, p)) {
      BothRepeat(m, p);
    }
  }

  lemma BothRepeat(m: Memory, p: nat)
    requires m.dirty && p < |m.slots| && Emits(m.slots[p]) && Emits(ZeroOverride(m, p))
    ensures Repeated(Flush(m).1)
  {
    var us1, us2 := SlotUpdates(m.slots, |m.slots|), OverrideUpdates(m.channels, |m.channels|);
    var k := FindContainer(m.channels, (p, 0));
    var i := SlotUpdateFound(m.slots, |m.slots|, p);
    var j := OverrideUpdateFound(m.channels, |m.channels|, k);
    var us := us1 + us2;
    assert us[i] == us1[i] && us[|us1| + j] == us2[j];
  }

  lemma RepeatedOwner(m: Memory, i: nat, j: nat)
    requires DistinctKeys(m.channels) && m.dirty && i < j < |Flush(m).1|
    requires forall k :: 0 <= k < |m.channels| ==> m.channels[k].permission < |m.slots|
    requires var us := Flush(m).1; (us[i].permission, us[i].channel) == (us[j].permission, us[j].channel)
    ensures exists p: nat :: p < |m.slots| && Emits(m.slots[p]) && Emits(ZeroOverride(m, p))
  {
    var us1, us2 := SlotUpdates(m.slots, |m.slots|), OverrideUpdates(m.channels, |m.channels|);
    if j < |us1| {
      SlotUpdatesIncrease(m.slots, |m.slots|, i, j);
    } else if i >= |us1| {
      OverrideUpdatesDiffer(m.channels, |m.channels|, i - |us1|, j - |us1|);
    } else {
      var p := SlotUpdateOrigin(m.slots, |m.slots|, i);
      var k := OverrideUpdateOrigin(m.channels, |m.channels|, j - |us1|);
      FindUnique(m.channels, k);
      assert Emits(m.slots[p]) && Emits(ZeroOverride(m, p));
    }
  }

  // ------------------------------------------------------------------ one call for channel 0

  function Overriding(v: Version, m: Memory, p: nat, ch: Change): Memory {
    if v.V1410? then SetOverride(m, p, 0, ch) else SetOverrideMaster(m, p, 0, ch)
  }

  /** The call makes an override that is set. */
  predicate Sets(v: Version, m: Memory, p: nat, ch: Change) {
    p < |m.slots| && (ch.value.SetValue? || (v.V1410? && ch.grant.SetValue?))
  }

  /** Either nothing happened, or the memory has one override more, and perhaps another channel flag. */
  ghost predicate OneMore(v: Version, m: Memory, m': Memory, p: nat, ch: Change) {
    if m' == m then !Sets(v, m, p, ch)
    else
      && p < |m.slots| && |m'.slots| == |m.slots| && m'.dirty
      && m'.channels == m.channels + [ChannelContainer(p, 0, Applied(EMPTY_CONTAINER, ch, false))]
      && SameButChannelFlag(m'.slots[p], m.slots[p])
      && (forall q: nat :: q < |m.slots| && q != p ==> m'.slots[q] == m.slots[q])
      && (Applied(EMPTY_CONTAINER, ch, false).flags.PermissionSet() <==> Sets(v, m, p, ch))
  }

  lemma OverridingOneMore(v: Version, m: Memory, p: nat, ch: Change)
    requires ProperOverrides(m)
    ensures OneMore(v, m, Overriding(v, m, p, ch), p, ch)
  {
    NoOverrideAtZero(m, (p, 0));
    if p < |m.slots| {
      if v.V1410? && SetsSomething(ch) {
        RegisteredOneMore(v, m, p, ch);
      } else if v.Master? && (ch.value.SetValue? || !ch.grant.SetValue?) {
        RegisteredOneMore(v, m, p, ch);
      }
    }
  }

  lemma RegisteredOneMore(v: Version, m: Memory, p: nat, ch: Change)
    requires ProperOverrides(m) && p < |m.slots|
    requires if v.V1410? then SetsSomething(ch) else ch.value.SetValue? || !ch.grant.SetValue?
    ensures OneMore(v, m, Overridden(Registered(m, p, 0), |m.channels|, ch), p, ch)
  {
    var m', o := Overridden(Registered(m, p, 0), |m.channels|, ch), Applied(EMPTY_CONTAINER, ch, false);
    assert m'.channels == m.channels + [ChannelContainer(p, 0, o)];
    assert |m'.channels| != |m.channels|;
  }

  /** The overrides of the larger memory. */
  lemma OneMoreOverride(v: Version, m: Memory, m': Memory, p: nat, ch: Change, q: nat)
    requires ProperOverrides(m) && OneMore(v, m, m', p, ch)
    ensures ZeroOverride(m', q) == if m' != m && q == p then Applied(EMPTY_CONTAINER, ch, false) else EMPTY_CONTAINER
  {
    NoOverrideAtZero(m, (q, 0));
    if m' != m {
      FindAppend(m.channels, ChannelContainer(p, 0, Applied(EMPTY_CONTAINER, ch, false)), (q, 0));
    }
  }

  lemma OneMoreCoherent(v: Version, m: Memory, m': Memory, db: map<Key, Row>, p: nat, ch: Change)
    requires Coherent(m, db) && OneMore(v, m, m', p, ch)
    ensures CoherentAbove(m', db)
  {
    if m' != m {
      forall key | key in db ensures if key.1 == 0 then key.0 < |m'.slots| else FindContainer(m'.channels, key) >= 0 {
        FindAppend(m.channels, ChannelContainer(p, 0, Applied(EMPTY_CONTAINER, ch, false)), key);
      }
    }
  }

  /** The shared rows of the larger memory come down to the one row of `p`. */
  lemma OneMoreShared(v: Version, m: Memory, m': Memory, p: nat, ch: Change)
    requires ProperOverrides(m) && OneMore(v, m, m', p, ch)
    ensures var o := Applied(EMPTY_CONTAINER, ch, false);
      && ((forall q: nat :: q < |m'.slots| ==> SparesSlot(m'.slots[q], ZeroOverride(m', q))) <==>
          !Sets(v, m, p, ch) || m.slots[p].flags.PermissionSet())
      && ((forall q: nat :: q < |m'.slots| ==> ServesBoth(m'.slots[q], ZeroOverride(m', q))) <==>
          !Sets(v, m, p, ch) || !m.slots[p].flags.PermissionSet() || RowOf(o) == RowOf(m.slots[p]))
  {
    forall q: nat | q < |m'.slots| && q != p ensures ZeroOverride(m', q) == EMPTY_CONTAINER {
      OneMoreOverride(v, m, m', p, ch, q);
    }
    OneMoreOverride(v, m, m', p, ch, p);
  }

  lemma OneMoreRepeated(v: Version, m: Memory, m': Memory, p: nat, ch: Change)
    requires ProperOverrides(m) && OneMore(v, m, m', p, ch)
    ensures (exists q: nat :: q < |m'.slots| && Emits(m'.slots[q]) && Emits(ZeroOverride(m', q))) <==>
      Sets(v, m, p, ch) && Emits(m.slots[p])
  {
    forall q: nat | q < |m'.slots| && q != p ensures ZeroOverride(m', q) == EMPTY_CONTAINER {
      OneMoreOverride(v, m, m', p, ch, q);
    }
    OneMoreOverride(v, m, m', p, ch, p);
  }

  /** From any coherent memory: after an override for channel 0 and a flush the database mirrors the slots
      exactly if the call set nothing or the slot is set; it serves both exactly if the call set nothing, the
      slot is not set, or both want the same row. So it does both exactly if the call set nothing or its row
      is that of the set slot. */
  lemma OneZeroOverride(v: Version, m: Memory, db: map<Key, Row>, p: nat, ch: Change)
    requires Coherent(m, db)
    ensures var m' := Overriding(v, m, p, ch);
      var db' := ExecutedAll(db, Flush(m').1);
      var o := Applied(EMPTY_CONTAINER, ch, false);
      && (Mirrors(m', db') <==> !Sets(v, m, p, ch) || m.slots[p].flags.PermissionSet())
      && (MirrorsAll(m', db') <==>
          !Sets(v, m, p, ch) || !m.slots[p].flags.PermissionSet() || RowOf(o) == RowOf(m.slots[p]))
      && (Mirrors(m', db') && MirrorsAll(m', db') <==>
          !Sets(v, m, p, ch) || (m.slots[p].flags.PermissionSet() && RowOf(o) == RowOf(m.slots[p])))
  {
    var m' := Overriding(v, m, p, ch);
    OverridingOneMore(v, m, p, ch);
    OneMoreShared(v, m, m', p, ch);
    if m'.dirty {
      OneMoreCoherent(v, m, m', db, p, ch);
      FlushMirrorsIff(m', db);
      FlushMirrorsAllIff(m', db);
    } else {
      UnflushedMirrors(m, db);
    }
  }

  lemma UnflushedMirrors(m: Memory, db: map<Key, Row>)
    requires Coherent(m, db) && !m.dirty
    ensures Mirrors(m, ExecutedAll(db, Flush(m).1)) && MirrorsAll(m, ExecutedAll(db, Flush(m).1))
  {
    CoherentMirrors(m, db);
    forall p: nat ensures ZeroOverride(m, p) == EMPTY_CONTAINER {
      NoOverrideAtZero(m, (p, 0));
    }
    forall p: nat | p < |m.slots| ensures HoldsRow(db, (p, 0), m.slots[p]) {
      assert Lookup(m, (p, 0)) == m.slots[p];
    }
  }

  /** The flush updates one row twice exactly if the call set something and the slot has an update of its own. */
  lemma OneZeroOverrideRepeats(v: Version, m: Memory, db: map<Key, Row>, p: nat, ch: Change)
    requires Coherent(m, db)
    ensures Repeated(Flush(Overriding(v, m, p, ch)).1) <==> Sets(v, m, p, ch) && Emits(m.slots[p])
  {
    var m' := Overriding(v, m, p, ch);
    OverridingOneMore(v, m, p, ch);
    if m'.dirty {
      OneMoreCoherent(v, m, m', db, p, ch);
      OneMoreRepeated(v, m, m', p, ch);
      RepeatedIff(m');
    }
  }

  // ------------------------------------------------------------------ whole runs

  lemma FlushedAgreesIff(c: PermissionContainer, db0: map<Key, Row>, db: map<Key, Row>, key: Key)
    requires Agrees(c, db0, key)
    ensures Agrees(Flushed(c), db, key) <==> HoldsRow(db, key, c)
  {
  }

  lemma FlushedAboveAgree(m: Memory, db: map<Key, Row>, j: nat)
    requires CoherentAbove(m, db) && m.dirty && j < |Flush(m).0.channels|
    ensures var c := Flush(m).0.channels[j];
      && c.permission < |m.slots|
      && (c.channel > 0 ==> Agrees(c.data, ExecutedAll(db, Flush(m).1), KeyOf(c)))
  {
    var k := FlushedOrigin(m.channels, j);
    var key, db' := KeyOf(m.channels[k]), ExecutedAll(db, Flush(m).1);
    if key.1 > 0 {
      FlushedOtherRow(m, db, key);
      FlushedAgreesIff(m.channels[k].data, db, db', key);
    }
  }

  lemma FlushedRowKnown(m: Memory, db: map<Key, Row>, key: Key)
    requires CoherentAbove(m, db) && m.dirty && key in ExecutedAll(db, Flush(m).1)
    ensures if key.1 == 0 then key.0 < |m.slots| else FindContainer(Flush(m).0.channels, key) >= 0
  {
    if !(key.1 == 0 && key.0 < |m.slots|) {
      FlushedOtherRow(m, db, key);
      FlushedFind(m.channels, |m.channels|, key);
    }
  }

  /** A flush keeps the coherence of slots and overrides above channel 0 exactly if every override for channel 0
      spares its slot. */
  lemma FlushAboveIff(m: Memory, db: map<Key, Row>)
    requires CoherentAbove(m, db) && m.dirty
    ensures CoherentAbove(Flush(m).0, ExecutedAll(db, Flush(m).1)) <==>
      forall p: nat :: p < |m.slots| ==> SparesSlot(m.slots[p], ZeroOverride(m, p))
  {
    var m', db' := Flush(m).0, ExecutedAll(db, Flush(m).1);
    forall p: nat | p < |m.slots|
      ensures Agrees(m'.slots[p], db', (p, 0)) <==> SparesSlot(m.slots[p], ZeroOverride(m, p))
    {
      FlushedZeroRow(m, db, p);
      FlushedAgreesIff(m.slots[p], db, db', (p, 0));
    }
    FlushedDistinct(m.channels, |m.channels|);
    forall j: nat | j < |m'.channels|
      ensures m'.channels[j].permission < |m.slots|
      ensures m'.channels[j].channel > 0 ==> Agrees(m'.channels[j].data, db', KeyOf(m'.channels[j]))
    {
      FlushedAboveAgree(m, db, j);
    }
    forall key | key in db' ensures if key.1 == 0 then key.0 < |m.slots| else FindContainer(m'.channels, key) >= 0 {
      FlushedRowKnown(m, db, key);
    }
  }

  lemma SetChannelAbove(v: Version, m: Memory, db: map<Key, Row>, p: nat, c: nat, ch: Change)
    requires CoherentAbove(m, db)
    ensures CoherentAbove(Next(v, m, db, SetChannel(p, c, ch)).0, db)
  {
    if p < |m.slots| {
      var k := FindContainer(m.channels, (p, c));
      if k >= 0 {
        OverriddenAbove(m, db, k, ch);
        FlagAbove(m, db, p, true);
        OverriddenAbove(m.(slots := WithChannelFlag(m.slots, p, true)), db, k, ch);
      } else {
        RegisteredAbove(m, db, p, c);
        OverriddenAbove(Registered(m, p, c), db, |m.channels|, ch);
      }
    }
  }

  lemma LoadNewAbove(m: Memory, db: map<Key, Row>, key: Key, row: Row)
    requires CoherentAbove(m, db) && key.0 < |m.slots| && key.1 > 0 && FindContainer(m.channels, key) < 0
    requires row.value != PERM_NOT_GRANTED || row.grant != PERM_NOT_GRANTED
    ensures CoherentAbove(LoadRow(m, key, row), db[key := row])
  {
    RegisteredAbove(m, db, key.0, key.1);
    LoadIntoAbove(Registered(m, key.0, key.1), db, |m.channels|, row);
    var m', m1 := LoadRow(m, key, row), Registered(m, key.0, key.1);
    assert m'.channels == m1.channels[|m.channels| := m'.channels[|m.channels|]];
  }

  lemma LoadSlotAbove(m: Memory, db: map<Key, Row>, key: Key, row: Row)
    requires CoherentAbove(m, db) && key.0 < |m.slots| && key.1 == 0
    requires row.value != PERM_NOT_GRANTED || row.grant != PERM_NOT_GRANTED
    ensures CoherentAbove(LoadRow(m, key, row), db[key := row])
  {
  }

  lemma LoadAbove(m: Memory, db: map<Key, Row>, key: Key, row: Row)
    requires CoherentAbove(m, db) && key.0 < |m.slots|
    requires row.value != PERM_NOT_GRANTED || row.grant != PERM_NOT_GRANTED
    ensures CoherentAbove(LoadRow(m, key, row), db[key := row])
  {
    if key.1 == 0 {
      LoadSlotAbove(m, db, key, row);
    } else if FindContainer(m.channels, key) >= 0 {
      LoadIntoAbove(m, db, FindContainer(m.channels, key), row);
    } else {
      LoadNewAbove(m, db, key, row);
    }
  }

  lemma CleanupAbove(m: Memory, db: map<Key, Row>)
    requires CoherentAbove(m, db)
    requires forall i :: 0 <= i < |m.slots| && Forgotten(m, i) ==> !m.slots[i].flags.databaseReference
    ensures CoherentAbove(Cleanup(m), db)
  {
  }

  /** What a run must respect when overrides for channel 0 are let through, as they are in the code. */
  ghost predicate Admitted(m: Memory, e: Event) {
    e.SetChannel? || Permitted(m, e)
  }

  predicate Writes(m: Memory, e: Event) {
    e.FlushAll? && m.dirty
  }

  lemma StepAbove(v: Version, m: Memory, db: map<Key, Row>, e: Event)
    requires CoherentAbove(m, db) && Admitted(m, e) && !Writes(m, e)
    ensures CoherentAbove(Next(v, m, db, e).0, Next(v, m, db, e).1)
  {
    match e
    case Load(p, c, row) => LoadAbove(m, db, (p, c), row);
    case Set(p, ch) =>
      if p < |m.slots| {
        ApplyAgrees(m.slots[p], db, (p, 0), ch, true);
      }
    case SetChannel(p, c, ch) => SetChannelAbove(v, m, db, p, c, ch);
    case FlushAll =>
    case CleanUp => CleanupAbove(m, db);
  }

  ghost predicate AdmittedRun(v: Version, m: Memory, db: map<Key, Row>, es: seq<Event>)
    decreases |es|
  {
    es != [] ==> Admitted(m, es[0]) && var (m1, db1) := Next(v, m, db, es[0]); AdmittedRun(v, m1, db1, es[1..])
  }

  /** Behind every flush of the run that writes, the database holds what it should. */
  ghost predicate FlushesMirror(v: Version, m: Memory, db: map<Key, Row>, es: seq<Event>)
    decreases |es|
  {
    es != [] ==>
      && (Writes(m, es[0]) ==> Mirrors(m, ExecutedAll(db, Flush(m).1)))
      && var (m1, db1) := Next(v, m, db, es[0]); FlushesMirror(v, m1, db1, es[1..])
  }

  /** At every flush of the run that writes, every override for channel 0 spares its slot. */
  ghost predicate FlushesSpare(v: Version, m: Memory, db: map<Key, Row>, es: seq<Event>)
    decreases |es|
  {
    es != [] ==>
      && (Writes(m, es[0]) ==> forall p: nat :: p < |m.slots| ==> SparesSlot(m.slots[p], ZeroOverride(m, p)))
      && var (m1, db1) := Next(v, m, db, es[0]); FlushesSpare(v, m1, db1, es[1..])
  }

  /** Over every run in which overrides for channel 0 are made, flushed, changed and removed like others, all
      flushes are right about the slots and the other overrides exactly if all flushes find every slot spared. */
  lemma {:induction false} RunMirrorsIff(v: Version, m: Memory, db: map<Key, Row>, es: seq<Event>)
    requires CoherentAbove(m, db) && AdmittedRun(v, m, db, es)
    ensures FlushesMirror(v, m, db, es) <==> FlushesSpare(v, m, db, es)
    decreases |es|
  {
    if es != [] {
      var (m1, db1) := Next(v, m, db, es[0]);
      if Writes(m, es[0]) {
        FlushMirrorsIff(m, db);
        FlushAboveIff(m, db);
        if CoherentAbove(m1, db1) {
          RunMirrorsIff(v, m1, db1, es[1..]);
        }
      } else {
        StepAbove(v, m, db, es[0]);
        RunMirrorsIff(v, m1, db1, es[1..]);
      }
    }
  }
}
