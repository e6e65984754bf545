/** Loading the table into a new permission manager (DatabaseHelper.cpp, lines 172-224): what a flush has
    written comes back, except for values that look like the marker of what is not set. */
module PermissionReload {
  import opened PermissionData
  import opened PermissionSpec
  import opened PermissionDatabase

  /** Load the rows with the given keys, one after the other. */
  function LoadTable(m: Memory, db: map<Key, Row>, keys: seq<Key>): Memory
    requires forall key :: key in keys ==> key in db
    decreases |keys|
  {
    if keys == [] then m else LoadTable(LoadRow(m, keys[0], db[keys[0]]), db, keys[1..])
  }

  /** A container as it is loaded from a row. */
  predicate Carries(c: PermissionContainer, row: Row) {
    && c.values == PermissionValues(row.value, row.grant)
    && c.flags.skip == row.skip && c.flags.negate == row.negate
    && (c.flags.valueSet <==> row.value != PERM_NOT_GRANTED)
    && (c.flags.grantSet <==> row.grant != PERM_NOT_GRANTED)
  }

  // ------------------------------------------------------------------ loading

  lemma LoadIntoAt(m: Memory, key: Key, row: Row, other: Key)
    requires key.0 < |m.slots| && key.1 > 0 && FindContainer(m.channels, key) >= 0
    ensures var m' := LoadRow(m, key, row);
      if other == key then Carries(Lookup(m', key), row) else Lookup(m', other) == Lookup(m, other)
  {
    SameKeysFindEqual(m.channels, LoadRow(m, key, row).channels, other);
  }

  lemma LoadNewAt(m: Memory, key: Key, row: Row, other: Key)
    requires key.0 < |m.slots| && key.1 > 0 && FindContainer(m.channels, key) < 0
    ensures var m' := LoadRow(m, key, row);
      if other == key then Carries(Lookup(m', key), row) else SameButChannelFlag(Lookup(m', other), Lookup(m, other))
  {
    var m' := LoadRow(m, key, row);
    var added := m'.channels[|m.channels|];
    assert m'.channels == m.channels + [added] && KeyOf(added) == key;
    FindAppend(m.channels, added, other);
  }

  /** One row concerns one permission. */
  lemma LoadRowAt(m: Memory, key: Key, row: Row, other: Key)
    requires key.0 < |m.slots|
    ensures var m' := LoadRow(m, key, row);
      if other == key then Carries(Lookup(m', key), row) else SameButChannelFlag(Lookup(m', other), Lookup(m, other))
  {
    if key.1 > 0 {
      if FindContainer(m.channels, key) >= 0 {
        LoadIntoAt(m, key, row, other);
      } else {
        LoadNewAt(m, key, row, other);
      }
    }
  }

  /** After the whole table, every key that was loaded shows its row, and the others are as before. */
  lemma {:induction false} LoadTableAt(m: Memory, db: map<Key, Row>, keys: seq<Key>, other: Key)
    requires forall key :: key in keys ==> key in db && key.0 < |m.slots|
    ensures var m' := LoadTable(m, db, keys);
      if other in keys then Carries(Lookup(m', other), db[other])
      else SameButChannelFlag(Lookup(m', other), Lookup(m, other))
    decreases |keys|
  {
    if keys != [] {
      LoadRowAt(m, keys[0], db[keys[0]], other);
      LoadTableAt(LoadRow(m, keys[0], db[keys[0]]), db, keys[1..], other);
    }
  }

  // ------------------------------------------------------------------ what comes back

  /** The same permission for everybody who asks. */
  predicate SamePermission(a: PermissionContainer, b: PermissionContainer) {
    && a.flags.valueSet == b.flags.valueSet && a.flags.grantSet == b.flags.grantSet
    && (a.flags.valueSet ==> a.values.value == b.values.value)
    && (a.flags.grantSet ==> a.values.grant == b.values.grant)
    && (a.flags.PermissionSet() ==> a.flags.skip == b.flags.skip && a.flags.negate == b.flags.negate)
  }

  ghost predicate Restored(m: Memory, m': Memory) {
    forall key: Key :: SamePermission(Lookup(m, key), Lookup(m', key))
  }

  /** A value or a grant is set to the marker. */
  predicate SetToMarker(c: PermissionContainer) {
    || (c.flags.valueSet && c.values.value == PERM_NOT_GRANTED)
    || (c.flags.grantSet && c.values.grant == PERM_NOT_GRANTED)
  }

  lemma CarriedIff(c: PermissionContainer, c': PermissionContainer)
    requires Carries(c', RowOf(c))
    ensures SamePermission(c, c') <==> !SetToMarker(c)
  {
  }

  /** Rows of a mirrored database belong to slots that exist. */
  lemma RowInRange(m: Memory, db: map<Key, Row>, key: Key)
    requires ProperOverrides(m) && Mirrors(m, db) && key in db
    ensures key.0 < |m.slots|
  {
    assert Lookup(m, key).flags.PermissionSet();
  }

  /** Behind loading a mirrored table a permission is the same exactly if it was not set to the marker; otherwise
      the numbers that were are not set. */
  lemma RestoredAtIff(m: Memory, db: map<Key, Row>, keys: seq<Key>, key: Key)
    requires ProperOverrides(m) && Mirrors(m, db) && forall k :: k in keys <==> k in db
    ensures var c, c' := Lookup(m, key), Lookup(LoadTable(Fresh(|m.slots|), db, keys), key);
      && (SamePermission(c, c') <==> !SetToMarker(c))
      && (c'.flags.valueSet <==> c.flags.valueSet && c.values.value != PERM_NOT_GRANTED)
      && (c'.flags.grantSet <==> c.flags.grantSet && c.values.grant != PERM_NOT_GRANTED)
  {
    var m' := LoadTable(Fresh(|m.slots|), db, keys);
    forall k | k in keys ensures k in db && k.0 < |m.slots| {
      RowInRange(m, db, k);
    }
    LoadTableAt(Fresh(|m.slots|), db, keys, key);
    if key in db {
      CarriedIff(Lookup(m, key), Lookup(m', key));
    } else {
      assert Lookup(Fresh(|m.slots|), key) == EMPTY_CONTAINER;
    }
  }

  /** A new manager that loads a mirrored table, in whatever order its rows come, has the same permissions
      exactly if none is set to the marker. */
  lemma ReloadRestoresIff(m: Memory, db: map<Key, Row>, keys: seq<Key>)
    requires ProperOverrides(m) && Mirrors(m, db) && forall key :: key in keys <==> key in db
    ensures Restored(m, LoadTable(Fresh(|m.slots|), db, keys)) <==> forall key: Key :: !SetToMarker(Lookup(m, key))
  {
    var m' := LoadTable(Fresh(|m.slots|), db, keys);
    forall key: Key ensures SamePermission(Lookup(m, key), Lookup(m', key)) <==> !SetToMarker(Lookup(m, key)) {
      RestoredAtIff(m, db, keys, key);
    }
  }

  /** From the first load to the next start: a run, a flush, and the table loaded into a new manager. */
  lemma EveryRunReloadsIff(v: Version, n: nat, es: seq<Event>, m: Memory, db: map<Key, Row>, keys: seq<Key>)
    requires Run(v, Fresh(n), map[], es, m, db)
    requires forall key :: key in keys <==> key in ExecutedAll(db, Flush(m).1)
    ensures Restored(m, LoadTable(Fresh(|m.slots|), ExecutedAll(db, Flush(m).1), keys)) <==>
      forall key: Key :: !SetToMarker(Lookup(m, key))
  {
    EveryRunFlushesExactly(v, n, es, m, db);
    ReloadRestoresIff(m, ExecutedAll(db, Flush(m).1), keys);
  }

  const SET_MARKER := Change(PermissionValues(-2, 0), SetValue, DoNothing, -1, -1)

  /** A permission is set to -2: behind a flush and a restart it is not set any more. */
  lemma MarkerIsLost()
    ensures var m := SetSlot(Fresh(1), 0, SET_MARKER);
      var db := ExecutedAll(map[], Flush(m).1);
      && Lookup(m, (0, 0)).flags.valueSet && (0, 0) in db
      && !Lookup(LoadTable(Fresh(1), db, [(0, 0)]), (0, 0)).flags.PermissionSet()
  {
    var m := SetSlot(Fresh(1), 0, SET_MARKER);
    assert SlotUpdates(m.slots, 0) == [] && SlotUpdates(m.slots, 1) == [UpdateFor(0, 0, m.slots[0])];
    assert Flush(m).1 == [] + [UpdateFor(0, 0, m.slots[0])];
    var db := ExecutedAll(map[], Flush(m).1);
    EmitOne(map[], [], (0, 0), m.slots[0]);
    LoadTableAt(Fresh(1), db, [(0, 0)], (0, 0));
  }
}
