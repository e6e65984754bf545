/** Applying the deltas of every flush keeps the database equal to the permissions in memory. */
module PermissionDatabase {
  import opened PermissionData
  import opened PermissionSpec

  ghost predicate DistinctKeys(cs: seq<ChannelContainer>) {
    forall k, l :: 0 <= k < l < |cs| ==> KeyOf(cs[k]) != KeyOf(cs[l])
  }

  ghost predicate OverridesAgree(cs: seq<ChannelContainer>, db: map<Key, Row>) {
    forall k :: 0 <= k < |cs| ==> Agrees(cs[k].data, db, KeyOf(cs[k]))
  }

  ghost predicate SlotsAgree(slots: seq<PermissionContainer>, db: map<Key, Row>) {
    forall i :: 0 <= i < |slots| ==> Agrees(slots[i], db, (i, 0))
  }

  ghost predicate ProperOverrides(m: Memory) {
    && DistinctKeys(m.channels)
    && forall k :: 0 <= k < |m.channels| ==> m.channels[k].channel > 0 && m.channels[k].permission < |m.slots|
  }

  /** Every row belongs to a slot or to an override. */
  ghost predicate RowsKnown(m: Memory, db: map<Key, Row>) {
    forall key :: key in db ==> if key.1 == 0 then key.0 < |m.slots| else FindContainer(m.channels, key) >= 0
  }

  ghost predicate AnyPending(m: Memory) {
    || (exists i :: 0 <= i < |m.slots| && m.slots[i].flags.Pending())
    || (exists k :: 0 <= k < |m.channels| && m.channels[k].data.flags.Pending())
  }

  /** Coherence as between any two flushes, except that nothing is said about overrides for channel 0. */
  ghost predicate CoherentAbove(m: Memory, db: map<Key, Row>) {
    && DistinctKeys(m.channels)
    && (forall k :: 0 <= k < |m.channels| ==> m.channels[k].permission < |m.slots|)
    && SlotsAgree(m.slots, db)
    && (forall k :: 0 <= k < |m.channels| && m.channels[k].channel > 0 ==>
          Agrees(m.channels[k].data, db, KeyOf(m.channels[k])))
    && RowsKnown(m, db)
  }

  /** The invariant between flushes. */
  ghost predicate Coherent(m: Memory, db: map<Key, Row>) {
    && ProperOverrides(m)
    && SlotsAgree(m.slots, db)
    && OverridesAgree(m.channels, db)
    && RowsKnown(m, db)
    && (AnyPending(m) ==> m.dirty)
  }

  /** The container that memory holds for a key. */
  function Lookup(m: Memory, key: Key): (c: PermissionContainer) {
    if key.1 == 0 then (if key.0 < |m.slots| then m.slots[key.0] else EMPTY_CONTAINER)
    else
      var k := FindContainer(m.channels, key);
      if k >= 0 then m.channels[k].data else EMPTY_CONTAINER
  }

  /** The database holds exactly the set permissions of memory, with their values and flags. */
  ghost predicate Mirrors(m: Memory, db: map<Key, Row>) {
    forall key: Key ::
      && (key in db <==> Lookup(m, key).flags.PermissionSet())
      && (key in db ==> db[key] == RowOf(Lookup(m, key)))
  }

  lemma {:induction false} FindUnique(cs: seq<ChannelContainer>, k: nat)
    requires DistinctKeys(cs) && k < |cs|
    ensures FindContainer(cs, KeyOf(cs[k])) == k
  {
  }

  /** Without pending changes, coherence is equality. */
  lemma CoherentMirrors(m: Memory, db: map<Key, Row>)
    requires Coherent(m, db) && !AnyPending(m)
    ensures Mirrors(m, db)
  {
  }

  // ------------------------------------------------------------------ setters

  lemma ApplyAgrees(c: PermissionContainer, db: map<Key, Row>, key: Key, ch: Change, resetting: bool)
    requires Agrees(c, db, key)
    ensures Agrees(Applied(c, ch, resetting), db, key)
  {
  }

  lemma SetSlotCoherent(m: Memory, db: map<Key, Row>, p: nat, ch: Change)
    requires Coherent(m, db)
    ensures Coherent(SetSlot(m, p, ch), db)
  {
    if p < |m.slots| {
      ApplyAgrees(m.slots[p], db, (p, 0), ch, true);
    }
  }

  lemma SameKeysSameFind(cs: seq<ChannelContainer>, ds: seq<ChannelContainer>, key: Key)
    requires |cs| <= |ds| && forall k :: 0 <= k < |cs| ==> KeyOf(cs[k]) == KeyOf(ds[k])
    ensures FindContainer(cs, key) >= 0 ==> FindContainer(ds, key) >= 0
  {
    var k := FindContainer(cs, key);
    if k >= 0 {
      assert KeyOf(ds[k]) == key;
    }
  }

  lemma {:induction false} SameKeysFindEqual(cs: seq<ChannelContainer>, ds: seq<ChannelContainer>, key: Key)
    requires |cs| == |ds| && forall k :: 0 <= k < |cs| ==> KeyOf(cs[k]) == KeyOf(ds[k])
    ensures FindContainer(cs, key) == FindContainer(ds, key)
    decreases |cs|
  {
    if cs != [] && KeyOf(cs[0]) != key {
      SameKeysFindEqual(cs[1..], ds[1..], key);
    }
  }

  lemma FlagAbove(m: Memory, db: map<Key, Row>, p: nat, flag: bool)
    requires CoherentAbove(m, db) && p < |m.slots|
    ensures CoherentAbove(m.(slots := WithChannelFlag(m.slots, p, flag)), db)
  {
  }

  lemma OverriddenAbove(m: Memory, db: map<Key, Row>, k: nat, ch: Change)
    requires CoherentAbove(m, db) && k < |m.channels|
    ensures CoherentAbove(Overridden(m, k, ch), db)
  {
    var p := m.channels[k].permission;
    if m.channels[k].channel > 0 {
      ApplyAgrees(m.channels[k].data, db, KeyOf(m.channels[k]), ch, false);
    }
    var cs := m.channels[k := m.channels[k].(data := Applied(m.channels[k].data, ch, false))];
    var m1 := m.(channels := cs, dirty := true);
    forall key | key in db && key.1 != 0 ensures FindContainer(cs, key) >= 0 {
      SameKeysSameFind(m.channels, cs, key);
    }
    assert CoherentAbove(m1, db);
    if !cs[k].data.flags.PermissionSet() && !HasOverride(cs, p) {
      FlagAbove(m1, db, p, false);
    }
  }

  lemma RegisteredAbove(m: Memory, db: map<Key, Row>, p: nat, c: nat)
    requires CoherentAbove(m, db) && p < |m.slots| && FindContainer(m.channels, (p, c)) < 0
    ensures CoherentAbove(Registered(m, p, c), db)
  {
    FlagAbove(m, db, p, true);
    var m2 := Registered(m, p, c);
    assert c > 0 ==> (p, c) !in db;
    forall key | key in db && key.1 != 0 ensures FindContainer(m2.channels, key) >= 0 {
      SameKeysSameFind(m.channels, m2.channels, key);
    }
  }

  /** Coherence with overrides for channel 0 ruled out and every pending change announced. */
  lemma CoherentIs(m: Memory, db: map<Key, Row>)
    ensures Coherent(m, db) <==>
      CoherentAbove(m, db) && (forall k :: 0 <= k < |m.channels| ==> m.channels[k].channel > 0) &&
      (AnyPending(m) ==> m.dirty)
  {
  }

  lemma FlagCoherent(m: Memory, db: map<Key, Row>, p: nat, flag: bool)
    requires Coherent(m, db) && p < |m.slots|
    ensures Coherent(m.(slots := WithChannelFlag(m.slots, p, flag)), db)
  {
    var m' := m.(slots := WithChannelFlag(m.slots, p, flag));
    forall i | 0 <= i < |m'.slots| && m'.slots[i].flags.Pending() ensures m.slots[i].flags.Pending() {
    }
  }

  lemma OverriddenCoherent(m: Memory, db: map<Key, Row>, k: nat, ch: Change)
    requires Coherent(m, db) && k < |m.channels|
    ensures Coherent(Overridden(m, k, ch), db)
  {
    CoherentIs(m, db);
    OverriddenAbove(m, db, k, ch);
    CoherentIs(Overridden(m, k, ch), db);
  }

  lemma RegisteredCoherent(m: Memory, db: map<Key, Row>, p: nat, c: nat)
    requires Coherent(m, db) && p < |m.slots| && c > 0 && FindContainer(m.channels, (p, c)) < 0
    ensures Coherent(Registered(m, p, c), db)
  {
    var m' := Registered(m, p, c);
    CoherentIs(m, db);
    RegisteredAbove(m, db, p, c);
    CoherentIs(m', db);
    if k :| 0 <= k < |m'.channels| && m'.channels[k].data.flags.Pending() {
      assert m.channels[k].data.flags.Pending();
    }
    if i :| 0 <= i < |m'.slots| && m'.slots[i].flags.Pending() {
      assert m.slots[i].flags.Pending();
    }
  }

  lemma SetOverrideCoherent(m: Memory, db: map<Key, Row>, p: nat, c: nat, ch: Change)
    requires Coherent(m, db) && c > 0
    ensures Coherent(SetOverride(m, p, c, ch), db)
  {
    if p < |m.slots| {
      var k := FindContainer(m.channels, (p, c));
      if k >= 0 {
        OverriddenCoherent(m, db, k, ch);
      } else if SetsSomething(ch) {
        RegisteredCoherent(m, db, p, c);
        OverriddenCoherent(Registered(m, p, c), db, |m.channels|, ch);
      }
    }
  }

  lemma SetOverrideMasterCoherent(m: Memory, db: map<Key, Row>, p: nat, c: nat, ch: Change)
    requires Coherent(m, db) && c > 0
    ensures Coherent(SetOverrideMaster(m, p, c, ch), db)
  {
    if p < |m.slots| {
      var k := FindContainer(m.channels, (p, c));
      if k < 0 {
        RegisteredCoherent(m, db, p, c);
        OverriddenCoherent(Registered(m, p, c), db, |m.channels|, ch);
      } else {
        FlagCoherent(m, db, p, true);
        OverriddenCoherent(m, db, k, ch);
        OverriddenCoherent(m.(slots := WithChannelFlag(m.slots, p, true)), db, k, ch);
      }
    }
  }

  // ------------------------------------------------------------------ flushing

  /** The rows of `db` outside the keys in question are those of `db0`. */
  ghost predicate SameRow(db: map<Key, Row>, db0: map<Key, Row>, key: Key) {
    (key in db <==> key in db0) && (key in db ==> db[key] == db0[key])
  }

  /** Executing a list of updates and then the update of one more container, if it emits one. */
  lemma EmitOne(db: map<Key, Row>, us: seq<DbUpdate>, key: Key, c: PermissionContainer)
    ensures ExecutedAll(db, us + if Emits(c) then [UpdateFor(key.0, key.1, c)] else [])
         == if Emits(c) then Executed(ExecutedAll(db, us), UpdateFor(key.0, key.1, c)) else ExecutedAll(db, us)
  {
    var u, db1 := UpdateFor(key.0, key.1, c), ExecutedAll(db, us);
    if Emits(c) {
      ExecutedAppend(db, us, [u]);
      assert ExecutedAll(db1, [u]) == ExecutedAll(Executed(db1, u), [u][1..]);
    } else {
      assert us + [] == us;
    }
  }

  function AfterUpdate(db: map<Key, Row>, key: Key, c: PermissionContainer): map<Key, Row> {
    if Emits(c) then Executed(db, UpdateFor(key.0, key.1, c)) else db
  }

  /** What the slots make of one row, whether or not they agree with it. */
  lemma {:induction false} SlotsRowAt(slots: seq<PermissionContainer>, db: map<Key, Row>, n: nat, key: Key)
    requires n <= |slots|
    ensures var own := key.1 == 0 && key.0 < n;
      SameRow(ExecutedAll(db, SlotUpdates(slots, n)), if own then AfterUpdate(db, key, slots[key.0]) else db, key)
    decreases n
  {
    if n > 0 {
      SlotsRowAt(slots, db, n - 1, key);
      EmitOne(db, SlotUpdates(slots, n - 1), (n - 1, 0), slots[n - 1]);
    }
  }

  /** What the overrides make of one row, whether or not they agree with it. */
  lemma {:induction false} OverridesRowAt(cs: seq<ChannelContainer>, db: map<Key, Row>, n: nat, key: Key)
    requires DistinctKeys(cs) && n <= |cs|
    ensures var k := FindContainer(cs, key);
      SameRow(ExecutedAll(db, OverrideUpdates(cs, n)), if 0 <= k < n then AfterUpdate(db, key, cs[k].data) else db, key)
    decreases n
  {
    if n > 0 {
      var c := cs[n - 1];
      FindUnique(cs, n - 1);
      OverridesRowAt(cs, db, n - 1, key);
      EmitOne(db, OverrideUpdates(cs, n - 1), KeyOf(c), c.data);
    }
  }

  lemma FlushSlotsAt(slots: seq<PermissionContainer>, db: map<Key, Row>, n: nat, key: Key)
    requires SlotsAgree(slots, db) && n <= |slots|
    ensures var db' := ExecutedAll(db, SlotUpdates(slots, n));
            if key.1 == 0 && key.0 < n then Agrees(Flushed(slots[key.0]), db', key) else SameRow(db', db, key)
  {
    SlotsRowAt(slots, db, n, key);
    if key.1 == 0 && key.0 < n {
      assert Agrees(slots[key.0], db, (key.0, 0));
      FlushOne(slots[key.0], db, key);
    }
  }

  lemma FlushOverridesAt(cs: seq<ChannelContainer>, db: map<Key, Row>, n: nat, key: Key)
    requires OverridesAgree(cs, db) && DistinctKeys(cs) && n <= |cs|
    ensures var db', k := ExecutedAll(db, OverrideUpdates(cs, n)), FindContainer(cs, key);
            if 0 <= k < n then Agrees(Flushed(cs[k].data), db', key) else SameRow(db', db, key)
  {
    OverridesRowAt(cs, db, n, key);
    var k := FindContainer(cs, key);
    if 0 <= k < n {
      FlushOne(cs[k].data, db, key);
    }
  }

  lemma {:induction false} FindAppend(cs: seq<ChannelContainer>, c: ChannelContainer, key: Key)
    ensures FindContainer(cs + [c], key) ==
            if FindContainer(cs, key) >= 0 then FindContainer(cs, key) else if KeyOf(c) == key then |cs| else -1
    decreases |cs|
  {
    var all := cs + [c];
    if cs == [] {
      assert all[1..] == [];
    } else {
      assert all[1..] == cs[1..] + [c];
      FindAppend(cs[1..], c, key);
    }
  }

  predicate Stays(c: PermissionContainer) {
    c.flags.Pending() ==> c.flags.PermissionSet()
  }

  /** Looking up a key among the overrides that survive a flush. */
  lemma {:induction false} FlushedFind(cs: seq<ChannelContainer>, n: nat, key: Key)
    requires DistinctKeys(cs) && n <= |cs|
    ensures var r, k := FlushedOverrides(cs, n), FindContainer(cs, key);
            var j := FindContainer(r, key);
            if 0 <= k < n && Stays(cs[k].data) then j >= 0 && r[j] == cs[k].(data := Flushed(cs[k].data)) else j < 0
    decreases n
  {
    if n > 0 {
      var c, r1 := cs[n - 1], FlushedOverrides(cs, n - 1);
      FlushedFind(cs, n - 1, key);
      FindUnique(cs, n - 1);
      if Stays(c.data) {
        FindAppend(r1, c.(data := Flushed(c.data)), key);
      } else {
        assert r1 + [] == r1;
      }
    }
  }

  lemma {:induction false} FlushedDistinct(cs: seq<ChannelContainer>, n: nat)
    requires DistinctKeys(cs) && n <= |cs|
    ensures DistinctKeys(FlushedOverrides(cs, n))
    decreases n
  {
    if n > 0 {
      FlushedDistinct(cs, n - 1);
      FlushedFind(cs, n - 1, KeyOf(cs[n - 1]));
      FindUnique(cs, n - 1);
    }
  }

  /** The j-th surviving override is one of the old ones, flushed. */
  lemma FlushedOrigin(cs: seq<ChannelContainer>, j: nat) returns (k: nat)
    requires DistinctKeys(cs) && j < |FlushedOverrides(cs, |cs|)|
    ensures k < |cs| && Stays(cs[k].data) && FlushedOverrides(cs, |cs|)[j] == cs[k].(data := Flushed(cs[k].data))
    ensures k == FindContainer(cs, KeyOf(FlushedOverrides(cs, |cs|)[j]))
  {
    var r := FlushedOverrides(cs, |cs|);
    FlushedDistinct(cs, |cs|);
    FindUnique(r, j);
    FlushedFind(cs, |cs|, KeyOf(r[j]));
    k := FindContainer(cs, KeyOf(r[j]));
  }

  /** The container is flushed, and its row is exact. */
  ghost predicate FlushedTo(c: PermissionContainer, c': PermissionContainer, db: map<Key, Row>, key: Key) {
    && Agrees(c', db, key) && !c'.flags.Pending()
    && c'.flags.PermissionSet() == c.flags.PermissionSet() && (key in db ==> RowOf(c') == RowOf(c))
  }

  lemma FlushedContainer(c: PermissionContainer, db: map<Key, Row>, key: Key)
    requires Agrees(Flushed(c), db, key)
    ensures FlushedTo(c, Flushed(c), db, key)
  {
  }

  lemma MissingContainer(c: PermissionContainer, db: map<Key, Row>, key: Key)
    requires key !in db && (c == EMPTY_CONTAINER || (c.flags.Pending() && !c.flags.PermissionSet()))
    ensures FlushedTo(c, EMPTY_CONTAINER, db, key)
  {
  }

  /** Both passes of a flush, seen at one key. */
  lemma FlushAt(m: Memory, db: map<Key, Row>, key: Key)
    requires Coherent(m, db) && m.dirty
    ensures var (m', us) := Flush(m); FlushedTo(Lookup(m, key), Lookup(m', key), ExecutedAll(db, us), key)
  {
    var db1 := ExecutedAll(db, SlotUpdates(m.slots, |m.slots|));
    var db2 := ExecutedAll(db1, OverrideUpdates(m.channels, |m.channels|));
    ExecutedAppend(db, SlotUpdates(m.slots, |m.slots|), OverrideUpdates(m.channels, |m.channels|));
    FlushSlotsAt(m.slots, db, |m.slots|, key);
    OverridesStillAgree(m, db);
    FlushOverridesAt(m.channels, db1, |m.channels|, key);
    if key.1 == 0 {
      FlushSlotKey(m, db, db1, db2, key);
    } else {
      FlushOverrideKey(m, db, db1, db2, key);
    }
  }

  lemma FlushSlotKey(m: Memory, db: map<Key, Row>, db1: map<Key, Row>, db2: map<Key, Row>, key: Key)
    requires ProperOverrides(m) && RowsKnown(m, db) && m.dirty && key.1 == 0
    requires if key.0 < |m.slots| then Agrees(Flushed(m.slots[key.0]), db1, key) else SameRow(db1, db, key)
    requires FindContainer(m.channels, key) < 0 ==> SameRow(db2, db1, key)
    ensures FlushedTo(Lookup(m, key), Lookup(Flush(m).0, key), db2, key)
  {
    NoOverrideAtZero(m, key);
    if key.0 < |m.slots| {
      FlushedContainer(m.slots[key.0], db2, key);
    }
  }

  lemma FlushOverrideKey(m: Memory, db: map<Key, Row>, db1: map<Key, Row>, db2: map<Key, Row>, key: Key)
    requires ProperOverrides(m) && RowsKnown(m, db) && m.dirty && key.1 > 0 && SameRow(db1, db, key)
    requires var k := FindContainer(m.channels, key);
      if k >= 0 then Agrees(Flushed(m.channels[k].data), db2, key) else SameRow(db2, db1, key)
    ensures FlushedTo(Lookup(m, key), Lookup(Flush(m).0, key), db2, key)
  {
    var k := FindContainer(m.channels, key);
    FlushedFind(m.channels, |m.channels|, key);
    if k >= 0 {
      var c := m.channels[k].data;
      FlushedContainer(c, db2, key);
      if !Stays(c) {
        MissingContainer(c, db2, key);
      }
    } else {
      MissingContainer(EMPTY_CONTAINER, db2, key);
    }
  }

  lemma OverridesStillAgree(m: Memory, db: map<Key, Row>)
    requires Coherent(m, db)
    ensures OverridesAgree(m.channels, ExecutedAll(db, SlotUpdates(m.slots, |m.slots|)))
  {
    var db1 := ExecutedAll(db, SlotUpdates(m.slots, |m.slots|));
    forall k | 0 <= k < |m.channels| ensures Agrees(m.channels[k].data, db1, KeyOf(m.channels[k])) {
      FlushSlotsAt(m.slots, db, |m.slots|, KeyOf(m.channels[k]));
    }
  }

  lemma NoOverrideAtZero(m: Memory, key: Key)
    requires ProperOverrides(m) && key.1 == 0
    ensures FindContainer(m.channels, key) < 0
  {
  }

  lemma FlushedProper(m: Memory)
    requires ProperOverrides(m) && m.dirty
    ensures var m' := Flush(m).0;
            && ProperOverrides(m')
            && forall j :: 0 <= j < |m'.channels| ==> Lookup(m', KeyOf(m'.channels[j])) == m'.channels[j].data
  {
    var m' := Flush(m).0;
    FlushedDistinct(m.channels, |m.channels|);
    forall j | 0 <= j < |m'.channels|
      ensures m'.channels[j].channel > 0 && m'.channels[j].permission < |m'.slots|
      ensures Lookup(m', KeyOf(m'.channels[j])) == m'.channels[j].data
    {
      var k := FlushedOrigin(m.channels, j);
      FindUnique(m'.channels, j);
    }
  }

  /** Agreement at every key is the invariant. */
  lemma CoherentByKey(m: Memory, db: map<Key, Row>)
    requires ProperOverrides(m)
    requires forall key: Key :: Agrees(Lookup(m, key), db, key) && !Lookup(m, key).flags.Pending()
    requires forall j :: 0 <= j < |m.channels| ==> Lookup(m, KeyOf(m.channels[j])) == m.channels[j].data
    ensures Coherent(m, db) && !AnyPending(m)
  {
    forall i | 0 <= i < |m.slots| ensures Agrees(m.slots[i], db, (i, 0)) && !m.slots[i].flags.Pending() {
      assert Lookup(m, (i, 0)) == m.slots[i];
    }
    forall key | key in db ensures if key.1 == 0 then key.0 < |m.slots| else FindContainer(m.channels, key) >= 0 {
      assert Agrees(Lookup(m, key), db, key);
    }
  }

  /** A flush clears every pending mark and keeps the invariant. */
  lemma FlushCoherent(m: Memory, db: map<Key, Row>)
    requires Coherent(m, db)
    ensures var (m', us) := Flush(m);
            Coherent(m', ExecutedAll(db, us)) && !AnyPending(m') && !m'.dirty
  {
    if m.dirty {
      var (m', us) := Flush(m);
      forall key: Key ensures Agrees(Lookup(m', key), ExecutedAll(db, us), key) && !Lookup(m', key).flags.Pending() {
        FlushAt(m, db, key);
      }
      FlushedProper(m);
      CoherentByKey(m', ExecutedAll(db, us));
    }
  }

  /** After the updates of a flush have been executed the database equals memory, as it was before the
      flush and as it is after it. */
  lemma FlushMirrors(m: Memory, db: map<Key, Row>)
    requires Coherent(m, db)
    ensures var (m', us) := Flush(m);
            Mirrors(m', ExecutedAll(db, us)) && Mirrors(m, ExecutedAll(db, us))
  {
    var (m', us) := Flush(m);
    FlushCoherent(m, db);
    CoherentMirrors(m', ExecutedAll(db, us));
    if m.dirty {
      forall key: Key
        ensures Lookup(m', key).flags.PermissionSet() == Lookup(m, key).flags.PermissionSet()
        ensures key in ExecutedAll(db, us) ==> RowOf(Lookup(m', key)) == RowOf(Lookup(m, key))
      {
        FlushAt(m, db, key);
      }
    }
  }

  /** No key is updated twice by one flush. */
  lemma UpdatesDistinct(m: Memory, i: nat, j: nat)
    requires ProperOverrides(m) && i < j < |Flush(m).1|
    ensures var us := Flush(m).1;
            (us[i].permission, us[i].channel) != (us[j].permission, us[j].channel)
  {
    var us1, us2 := SlotUpdates(m.slots, |m.slots|), OverrideUpdates(m.channels, |m.channels|);
    if j < |us1| {
      var a := SlotUpdateOrigin(m.slots, |m.slots|, i);
      SlotUpdatesIncrease(m.slots, |m.slots|, i, j);
    } else {
      var b := OverrideUpdateOrigin(m.channels, |m.channels|, j - |us1|);
      if i < |us1| {
        var a := SlotUpdateOrigin(m.slots, |m.slots|, i);
      } else {
        OverrideUpdatesDiffer(m.channels, |m.channels|, i - |us1|, j - |us1|);
      }
    }
  }

  lemma {:induction false} SlotUpdateOrigin(slots: seq<PermissionContainer>, n: nat, i: nat) returns (p: nat)
    requires n <= |slots| && i < |SlotUpdates(slots, n)|
    ensures p < n && Emits(slots[p]) && SlotUpdates(slots, n)[i] == UpdateFor(p, 0, slots[p])
    decreases n
  {
    if i < |SlotUpdates(slots, n - 1)| {
      p := SlotUpdateOrigin(slots, n - 1, i);
    } else {
      p := n - 1;
    }
  }

  lemma {:induction false} SlotUpdatesIncrease(slots: seq<PermissionContainer>, n: nat, i: nat, j: nat)
    requires n <= |slots| && i < j < |SlotUpdates(slots, n)|
    ensures SlotUpdates(slots, n)[i].permission < SlotUpdates(slots, n)[j].permission
    decreases n
  {
    if j < |SlotUpdates(slots, n - 1)| {
      SlotUpdatesIncrease(slots, n - 1, i, j);
    } else {
      var p := SlotUpdateOrigin(slots, n - 1, i);
    }
  }

  lemma {:induction false} OverrideUpdateOrigin(cs: seq<ChannelContainer>, n: nat, i: nat) returns (k: nat)
    requires n <= |cs| && i < |OverrideUpdates(cs, n)|
    ensures k < n && Emits(cs[k].data)
    ensures OverrideUpdates(cs, n)[i] == UpdateFor(cs[k].permission, cs[k].channel, cs[k].data)
    decreases n
  {
    if i < |OverrideUpdates(cs, n - 1)| {
      k := OverrideUpdateOrigin(cs, n - 1, i);
    } else {
      k := n - 1;
    }
  }

  lemma {:induction false} OverrideUpdatesDiffer(cs: seq<ChannelContainer>, n: nat, i: nat, j: nat)
    requires n <= |cs| && DistinctKeys(cs) && i < j < |OverrideUpdates(cs, n)|
    ensures var us := OverrideUpdates(cs, n);
            (us[i].permission, us[i].channel) != (us[j].permission, us[j].channel)
    decreases n
  {
    if j < |OverrideUpdates(cs, n - 1)| {
      OverrideUpdatesDiffer(cs, n - 1, i, j);
    } else {
      var k := OverrideUpdateOrigin(cs, n - 1, i);
      assert KeyOf(cs[k]) != KeyOf(cs[n - 1]);
    }
  }

  // ------------------------------------------------------------------ loading

  /** Loading one more row of the table. */
  lemma LoadSlotCoherent(m: Memory, db: map<Key, Row>, p: nat, row: Row)
    requires Coherent(m, db) && p < |m.slots|
    ensures var m' := LoadSlot(m, p, PermissionValues(row.value, row.grant), row.skip, row.negate,
                        row.value != PERM_NOT_GRANTED, row.grant != PERM_NOT_GRANTED);
            Coherent(m', db[(p, 0) := row]) <==>
              m.slots[p].flags.Pending() || row.value != PERM_NOT_GRANTED || row.grant != PERM_NOT_GRANTED
  {
    var db' := db[(p, 0) := row];
    var m' := LoadSlot(m, p, PermissionValues(row.value, row.grant), row.skip, row.negate,
                row.value != PERM_NOT_GRANTED, row.grant != PERM_NOT_GRANTED);
    forall i | 0 <= i < |m'.slots| && m'.slots[i].flags.Pending() ensures m.slots[i].flags.Pending() {
    }
    assert Agrees(m'.slots[p], db', (p, 0)) <==>
      m.slots[p].flags.Pending() || row.value != PERM_NOT_GRANTED || row.grant != PERM_NOT_GRANTED;
    forall i | 0 <= i < |m'.slots| && i != p ensures Agrees(m'.slots[i], db', (i, 0)) {
    }
  }

  lemma LoadIntoAbove(m: Memory, db: map<Key, Row>, k: nat, row: Row)
    requires CoherentAbove(m, db) && k < |m.channels| && m.channels[k].channel > 0
    requires row.value != PERM_NOT_GRANTED || row.grant != PERM_NOT_GRANTED
    ensures var data := Loaded(m.channels[k].data, PermissionValues(row.value, row.grant), row.skip, row.negate,
        row.value != PERM_NOT_GRANTED, row.grant != PERM_NOT_GRANTED);
      CoherentAbove(m.(channels := m.channels[k := m.channels[k].(data := data)]), db[KeyOf(m.channels[k]) := row])
  {
    var key := KeyOf(m.channels[k]);
    var data := Loaded(m.channels[k].data, PermissionValues(row.value, row.grant), row.skip, row.negate,
      row.value != PERM_NOT_GRANTED, row.grant != PERM_NOT_GRANTED);
    var m' := m.(channels := m.channels[k := m.channels[k].(data := data)]);
    forall j | 0 <= j < |m'.channels|
      ensures KeyOf(m'.channels[j]) == KeyOf(m.channels[j])
      ensures m'.channels[j].channel > 0 ==> Agrees(m'.channels[j].data, db[key := row], KeyOf(m'.channels[j]))
    {
      assert j != k ==> KeyOf(m.channels[j]) != key;
    }
    forall other: Key | other.1 != 0 && (other == key || FindContainer(m.channels, other) >= 0)
      ensures FindContainer(m'.channels, other) >= 0
    {
      assert KeyOf(m'.channels[k]) == key;
      SameKeysSameFind(m.channels, m'.channels, other);
    }
  }

  lemma LoadIntoCoherent(m: Memory, db: map<Key, Row>, k: nat, row: Row)
    requires Coherent(m, db) && k < |m.channels|
    requires row.value != PERM_NOT_GRANTED || row.grant != PERM_NOT_GRANTED
    ensures var data := Loaded(m.channels[k].data, PermissionValues(row.value, row.grant), row.skip, row.negate,
                          row.value != PERM_NOT_GRANTED, row.grant != PERM_NOT_GRANTED);
            Coherent(m.(channels := m.channels[k := m.channels[k].(data := data)]), db[KeyOf(m.channels[k]) := row])
  {
    var data := Loaded(m.channels[k].data, PermissionValues(row.value, row.grant), row.skip, row.negate,
                  row.value != PERM_NOT_GRANTED, row.grant != PERM_NOT_GRANTED);
    var m' := m.(channels := m.channels[k := m.channels[k].(data := data)]);
    CoherentIs(m, db);
    LoadIntoAbove(m, db, k, row);
    CoherentIs(m', db[KeyOf(m.channels[k]) := row]);
    forall j | 0 <= j < |m'.channels| && m'.channels[j].data.flags.Pending()
      ensures m.channels[j].data.flags.Pending()
    {
    }
  }

  lemma LoadOverrideCoherent(m: Memory, db: map<Key, Row>, p: nat, c: nat, row: Row)
    requires Coherent(m, db) && p < |m.slots| && c > 0
    requires row.value != PERM_NOT_GRANTED || row.grant != PERM_NOT_GRANTED
    ensures var m' := LoadOverride(m, p, c, PermissionValues(row.value, row.grant), row.skip, row.negate,
                        row.value != PERM_NOT_GRANTED, row.grant != PERM_NOT_GRANTED);
            Coherent(m', db[(p, c) := row])
  {
    var k := FindContainer(m.channels, (p, c));
    if k >= 0 {
      LoadIntoCoherent(m, db, k, row);
    } else {
      RegisteredCoherent(m, db, p, c);
      LoadIntoCoherent(Registered(m, p, c), db, |m.channels|, row);
      var m' := LoadOverride(m, p, c, PermissionValues(row.value, row.grant), row.skip, row.negate,
                  row.value != PERM_NOT_GRANTED, row.grant != PERM_NOT_GRANTED);
      var m1 := Registered(m, p, c);
      assert m'.channels == m1.channels[|m.channels| := m'.channels[|m.channels|]];
    }
  }

  // ------------------------------------------------------------------ cleaning up

  /** The slots that a cleanup forgets: those in blocks without any slot in use. */
  predicate Forgotten(m: Memory, i: nat)
    requires i < |m.slots|
  {
    !BlockInUse(m.slots, i)
  }

  /** Cleanup keeps every permission that is set, whatever its state. */
  lemma CleanupKeepsSet(m: Memory, i: nat)
    requires i < |m.slots| && InUse(m.slots[i])
    ensures Cleanup(m).slots[i] == m.slots[i]
  {
    assert BlockInUse(m.slots, i);
  }

  /** Cleanup is safe exactly if it forgets no slot that the database still has a row for; such a slot
      is one whose removal has not been flushed yet. */
  lemma CleanupCoherentIff(m: Memory, db: map<Key, Row>)
    requires Coherent(m, db)
    ensures Coherent(Cleanup(m), db) <==>
      forall i :: 0 <= i < |m.slots| && Forgotten(m, i) ==> !m.slots[i].flags.databaseReference
    ensures forall i :: 0 <= i < |m.slots| && Forgotten(m, i) && m.slots[i].flags.databaseReference ==>
      m.slots[i].flags.Pending() && !m.slots[i].flags.PermissionSet()
  {
    var m' := Cleanup(m);
    forall i | 0 <= i < |m.slots| && Forgotten(m, i) ensures !m.slots[i].flags.PermissionSet() {
      if m.slots[i].flags.PermissionSet() {
        CleanupKeepsSet(m, i);
      }
    }
    forall i | 0 <= i < |m.slots|
      ensures Agrees(m'.slots[i], db, (i, 0)) <==> (Forgotten(m, i) ==> !m.slots[i].flags.databaseReference)
    {
    }
    forall i | 0 <= i < |m'.slots| && m'.slots[i].flags.Pending() ensures m.slots[i].flags.Pending() {
    }
  }

  /** A slot that is forgotten with its row keeps its row through the next flush. */
  lemma ForgottenRowStays(m: Memory, db: map<Key, Row>, i: nat)
    requires Coherent(m, db) && i < |m.slots| && Forgotten(m, i) && m.slots[i].flags.databaseReference
    ensures !Mirrors(Cleanup(m), ExecutedAll(db, Flush(Cleanup(m)).1))
  {
    var m', key := Cleanup(m), (i, 0);
    var us1, us2 := SlotUpdates(m'.slots, |m'.slots|), OverrideUpdates(m'.channels, |m'.channels|);
    ExecutedAppend(db, us1, us2);
    SlotsRowAt(m'.slots, db, |m'.slots|, key);
    OverridesRowAt(m'.channels, ExecutedAll(db, us1), |m'.channels|, key);
    NoOverrideAtZero(m, key);
    assert key in ExecutedAll(db, Flush(m').1) && Lookup(m', key) == EMPTY_CONTAINER;
  }

  /** The flush behind a cleanup makes the database equal to memory exactly if the cleanup forgets no slot with
      a row. */
  lemma CleanupMirrorsIff(m: Memory, db: map<Key, Row>)
    requires Coherent(m, db)
    ensures Mirrors(Cleanup(m), ExecutedAll(db, Flush(Cleanup(m)).1)) <==>
      forall i :: 0 <= i < |m.slots| && Forgotten(m, i) ==> !m.slots[i].flags.databaseReference
  {
    if i: nat :| i < |m.slots| && Forgotten(m, i) && m.slots[i].flags.databaseReference {
      ForgottenRowStays(m, db, i);
    } else {
      CleanupCoherentIff(m, db);
      FlushMirrors(Cleanup(m), db);
    }
  }

  // ------------------------------------------------------------------ whole runs

  /** The two versions of the library differ in how they register an override. */
  datatype Version = V1410 | Master

  datatype Event =
    | Load(p: nat, c: nat, row: Row)
    | Set(p: nat, ch: Change)
    | SetChannel(p: nat, c: nat, ch: Change)
    | FlushAll
    | CleanUp

  /** What a run must respect: rows read from the table set a value or a grant, channel ids start at 1,
      and a cleanup must not forget a row. */
  ghost predicate Permitted(m: Memory, e: Event) {
    match e
    case Load(p, c, row) => p < |m.slots| && (row.value != PERM_NOT_GRANTED || row.grant != PERM_NOT_GRANTED)
    case Set(p, ch) => true
    case SetChannel(p, c, ch) => c > 0
    case FlushAll => true
    case CleanUp => forall i :: 0 <= i < |m.slots| && Forgotten(m, i) ==> !m.slots[i].flags.databaseReference
  }

  /** A row of the table is loaded as a slot or as an override; the marker stands for what is not set. */
  function LoadRow(m: Memory, key: Key, row: Row): Memory {
    var values := PermissionValues(row.value, row.grant);
    var hasValue, hasGrant := row.value != PERM_NOT_GRANTED, row.grant != PERM_NOT_GRANTED;
    if key.1 == 0 then LoadSlot(m, key.0, values, row.skip, row.negate, hasValue, hasGrant)
    else LoadOverride(m, key.0, key.1, values, row.skip, row.negate, hasValue, hasGrant)
  }

  function Next(v: Version, m: Memory, db: map<Key, Row>, e: Event): (Memory, map<Key, Row>) {
    match e
    case Load(p, c, row) => (LoadRow(m, (p, c), row), db[(p, c) := row])
    case Set(p, ch) => (SetSlot(m, p, ch), db)
    case SetChannel(p, c, ch) => (if v.V1410? then SetOverride(m, p, c, ch) else SetOverrideMaster(m, p, c, ch), db)
    case FlushAll => var (m', us) := Flush(m); (m', ExecutedAll(db, us))
    case CleanUp => (Cleanup(m), db)
  }

  ghost predicate Run(v: Version, m: Memory, db: map<Key, Row>, es: seq<Event>, m': Memory, db': map<Key, Row>)
    decreases |es|
  {
    if es == [] then m' == m && db' == db
    else Permitted(m, es[0]) && var (m1, db1) := Next(v, m, db, es[0]); Run(v, m1, db1, es[1..], m', db')
  }

  lemma NextCoherent(v: Version, m: Memory, db: map<Key, Row>, e: Event)
    requires Coherent(m, db) && Permitted(m, e)
    ensures Coherent(Next(v, m, db, e).0, Next(v, m, db, e).1)
  {
    match e
    case Load(p, c, row) =>
      if c == 0 {
        LoadSlotCoherent(m, db, p, row);
      } else {
        LoadOverrideCoherent(m, db, p, c, row);
      }
    case Set(p, ch) => SetSlotCoherent(m, db, p, ch);
    case SetChannel(p, c, ch) =>
      SetOverrideCoherent(m, db, p, c, ch);
      SetOverrideMasterCoherent(m, db, p, c, ch);
    case FlushAll => FlushCoherent(m, db);
    case CleanUp => CleanupCoherentIff(m, db);
  }

  function Fresh(n: nat): Memory {
    Memory(seq(n, _ => EMPTY_CONTAINER), [], false)
  }

  lemma {:induction false} RunCoherent(v: Version, m: Memory, db: map<Key, Row>, es: seq<Event>, m': Memory,
    db': map<Key, Row>)
    requires Coherent(m, db) && Run(v, m, db, es, m', db')
    ensures Coherent(m', db')
    decreases |es|
  {
    if es != [] {
      NextCoherent(v, m, db, es[0]);
      RunCoherent(v, Next(v, m, db, es[0]).0, Next(v, m, db, es[0]).1, es[1..], m', db');
    }
  }

  /** Over every permitted run of a new manager the next flush makes the database equal to memory. */
  lemma EveryRunFlushesExactly(v: Version, n: nat, es: seq<Event>, m: Memory, db: map<Key, Row>)
    requires Run(v, Fresh(n), map[], es, m, db)
    ensures Coherent(m, db)
    ensures var (m', us) := Flush(m);
            Mirrors(m, ExecutedAll(db, us)) && Mirrors(m', ExecutedAll(db, us)) && !AnyPending(m')
  {
    RunCoherent(v, Fresh(n), map[], es, m, db);
    FlushCoherent(m, db);
    FlushMirrors(m, db);
  }

  // ------------------------------------------------------------------ what the preconditions exclude

  const SET_ONE := Change(PermissionValues(1, 0), SetValue, DoNothing, -1, -1)
  const SET_TWO := Change(PermissionValues(2, 0), SetValue, DoNothing, -1, -1)
  const UNSET := Change(PermissionValues(0, 0), DeleteValue, DoNothing, -1, -1)

  /** An override for channel 0 shares its row with the slot: the database cannot hold both. */
  lemma ChannelZeroCollides()
    ensures var m := SetOverride(SetSlot(Fresh(1), 0, SET_ONE), 0, 0, SET_TWO);
            var us := Flush(m).1;
            |us| == 2 && us[0].permission == us[1].permission && us[0].channel == us[1].channel &&
            us[0].values != us[1].values
  {
    var m0 := SetSlot(Fresh(1), 0, SET_ONE);
    var m := SetOverride(m0, 0, 0, SET_TWO);
    assert m.channels == [ChannelContainer(0, 0, Applied(EMPTY_CONTAINER, SET_TWO, false))];
    assert SlotUpdates(m.slots, 0) == [] && OverrideUpdates(m.channels, 0) == [];
    assert SlotUpdates(m.slots, 1) == [UpdateFor(0, 0, m.slots[0])];
    assert OverrideUpdates(m.channels, 1) == [UpdateFor(0, 0, m.channels[0].data)];
  }

  /** A cleanup between a removal and its flush loses the removal: the row stays for ever. */
  lemma CleanupLosesRemoval()
    ensures var m1 := Flush(SetSlot(Fresh(1), 0, SET_ONE)).0;
            var m2 := Cleanup(SetSlot(m1, 0, UNSET));
            Flush(SetSlot(m1, 0, UNSET)).1 != [] && Flush(m2).1 == []
  {
    var m1 := Flush(SetSlot(Fresh(1), 0, SET_ONE)).0;
    var gone := SetSlot(m1, 0, UNSET);
    var m2 := Cleanup(gone);
    assert Forgotten(gone, 0);
    assert SlotUpdates(gone.slots, 0) == [] && SlotUpdates(m2.slots, 0) == [];
    assert SlotUpdates(gone.slots, 1) == [UpdateFor(0, 0, gone.slots[0])];
    assert SlotUpdates(m2.slots, 1) == [];
  }
}
