/** What the setters do to one permission, field by field (PermissionManager.cpp, lines 1244-1368), and what is
    left of all writes of a run: for every permission the last one. */
module PermissionEffect {
  import opened Options
  import opened PermissionData
  import opened PermissionSpec
  import opened PermissionDatabase
  import opened PermissionReload

  // ------------------------------------------------------------------ one call

  /** One of the two numbers behind a call: set to the new one, no longer set, or as before. What is stored for a
      number that is no longer set does not matter to anybody who asks. */
  predicate NumberTook(op: UpdateType, wanted: int, wasSet: bool, was: int, isSet: bool, now: int, stored: int) {
    match op
    case SetValue => isSet && now == wanted
    case DeleteValue => !isSet && now == stored
    case DoNothing => isSet == wasSet && now == was
  }

  /** A flag behind a call: -1 leaves it alone, 1 sets it, and everything else clears it. */
  predicate FlagTook(op: int, was: bool, now: bool) {
    if op < 0 then now == was else now == (op == 1)
  }

  /** The call has the effect it asks for. A slot stores the marker for a number that is deleted, an override
      keeps the old number. */
  predicate Took(c: PermissionContainer, c': PermissionContainer, ch: Change, slot: bool) {
    && NumberTook(ch.value, ch.values.value, c.flags.valueSet, c.values.value, c'.flags.valueSet, c'.values.value,
         if slot then -2 else c.values.value)
    && NumberTook(ch.grant, ch.values.grant, c.flags.grantSet, c.values.grant, c'.flags.grantSet, c'.values.grant,
         if slot then -2 else c.values.grant)
    && FlagTook(ch.skip, c.flags.skip, c'.flags.skip) && FlagTook(ch.negate, c.flags.negate, c'.flags.negate)
    && (c'.flags.Pending() <==>
         c.flags.Pending() || !ch.value.DoNothing? || !ch.grant.DoNothing? || ch.skip >= 0 || ch.negate >= 0)
    && c'.flags.databaseReference == c.flags.databaseReference
  }

  lemma SetSlotTakes(m: Memory, p: nat, ch: Change, other: Key)
    ensures var m' := SetSlot(m, p, ch);
      && (p < |m.slots| ==> Took(Lookup(m, (p, 0)), Lookup(m', (p, 0)), ch, true) && m'.dirty)
      && (p >= |m.slots| ==> m' == m)
      && (other != (p, 0) ==> Lookup(m', other) == Lookup(m, other))
  {
    if p < |m.slots| {
      AppliedTakes(m.slots[p], ch, true);
    }
  }

  lemma AppliedTakes(c: PermissionContainer, ch: Change, slot: bool)
    ensures Took(c, Applied(c, ch, slot), ch, slot)
  {
  }

  lemma OverriddenAt(m: Memory, k: nat, ch: Change, key: Key)
    requires k < |m.channels| && m.channels[k].permission < |m.slots|
    requires key.1 > 0 && FindContainer(m.channels, KeyOf(m.channels[k])) == k
    ensures Lookup(Overridden(m, k, ch), key) ==
      if key == KeyOf(m.channels[k]) then Applied(m.channels[k].data, ch, false) else Lookup(m, key)
  {
    SameKeysFindEqual(m.channels, Overridden(m, k, ch).channels, key);
  }

  lemma OverriddenSlot(m: Memory, k: nat, ch: Change, key: Key)
    requires k < |m.channels| && m.channels[k].permission < |m.slots| && key.1 == 0
    ensures SameButChannelFlag(Lookup(Overridden(m, k, ch), key), Lookup(m, key))
  {
  }

  lemma OverriddenTakes(m: Memory, k: nat, ch: Change, other: Key)
    requires k < |m.channels| && m.channels[k].permission < |m.slots| && m.channels[k].channel > 0
    requires FindContainer(m.channels, KeyOf(m.channels[k])) == k
    ensures var m', key := Overridden(m, k, ch), KeyOf(m.channels[k]);
      && Took(Lookup(m, key), Lookup(m', key), ch, false)
      && (other != key ==> SameButChannelFlag(Lookup(m', other), Lookup(m, other)))
  {
    AppliedTakes(m.channels[k].data, ch, false);
    OverriddenAt(m, k, ch, KeyOf(m.channels[k]));
    if other.1 == 0 {
      OverriddenSlot(m, k, ch, other);
    } else {
      OverriddenAt(m, k, ch, other);
    }
  }

  lemma RegisteredShows(m: Memory, p: nat, c: nat, other: Key)
    requires p < |m.slots| && c > 0 && FindContainer(m.channels, (p, c)) < 0
    ensures var m' := Registered(m, p, c);
      && FindContainer(m'.channels, (p, c)) == |m.channels| && Lookup(m', (p, c)) == Lookup(m, (p, c))
      && SameButChannelFlag(Lookup(m', other), Lookup(m, other))
  {
    FindAppend(m.channels, ChannelContainer(p, c, EMPTY_CONTAINER), (p, c));
    FindAppend(m.channels, ChannelContainer(p, c, EMPTY_CONTAINER), other);
  }

  /** The call of 1.4.10 is dropped: there is no container, and nothing is to be set. */
  predicate Dropped1410(m: Memory, p: nat, c: nat, ch: Change) {
    p >= |m.slots| || (FindContainer(m.channels, (p, c)) < 0 && !ch.value.SetValue? && !ch.grant.SetValue?)
  }

  /** The call of master is dropped: nothing is set so far, and only a grant is to be set. */
  predicate DroppedMaster(m: Memory, p: nat, c: nat, ch: Change) {
    p >= |m.slots| || (!Lookup(m, (p, c)).flags.PermissionSet() && !ch.value.SetValue? && ch.grant.SetValue?)
  }

  lemma SetOverrideTakes(m: Memory, p: nat, c: nat, ch: Change, other: Key)
    requires c > 0
    ensures var m' := SetOverride(m, p, c, ch);
      && (if Dropped1410(m, p, c, ch) then m' == m else Took(Lookup(m, (p, c)), Lookup(m', (p, c)), ch, false))
      && (other != (p, c) ==> SameButChannelFlag(Lookup(m', other), Lookup(m, other)))
  {
    if !Dropped1410(m, p, c, ch) {
      OverridesTake(m, p, c, ch, other);
    }
  }

  lemma SetOverrideMasterTakes(m: Memory, p: nat, c: nat, ch: Change, other: Key)
    requires c > 0
    ensures var m' := SetOverrideMaster(m, p, c, ch);
      && (if DroppedMaster(m, p, c, ch) then m' == m else Took(Lookup(m, (p, c)), Lookup(m', (p, c)), ch, false))
      && (other != (p, c) ==> SameButChannelFlag(Lookup(m', other), Lookup(m, other)))
  {
    if !DroppedMaster(m, p, c, ch) {
      OverridesTake(m, p, c, ch, other);
    }
  }

  /** The ways in which either version writes an override. */
  lemma OverridesTake(m: Memory, p: nat, c: nat, ch: Change, other: Key)
    requires c > 0 && p < |m.slots|
    ensures var k := FindContainer(m.channels, (p, c));
      if k >= 0 then
        var flagged := m.(slots := WithChannelFlag(m.slots, p, true));
        && WroteOne(m, Overridden(m, k, ch), p, c, ch, other)
        && WroteOne(m, Overridden(flagged, k, ch), p, c, ch, other)
      else WroteOne(m, Overridden(Registered(m, p, c), |m.channels|, ch), p, c, ch, other)
  {
    var k := FindContainer(m.channels, (p, c));
    if k >= 0 {
      OverriddenTakes(m, k, ch, other);
      OverriddenTakes(m.(slots := WithChannelFlag(m.slots, p, true)), k, ch, other);
    } else {
      RegisteredShows(m, p, c, other);
      OverriddenTakes(Registered(m, p, c), |m.channels|, ch, other);
    }
  }

  predicate WroteOne(m: Memory, m': Memory, p: nat, c: nat, ch: Change, other: Key) {
    && Took(Lookup(m, (p, c)), Lookup(m', (p, c)), ch, false)
    && (other != (p, c) ==> SameButChannelFlag(Lookup(m', other), Lookup(m, other)))
  }

  // ------------------------------------------------------------------ flush and cleanup

  /** No permission changes in a flush. */
  lemma FlushKeepsPermissions(m: Memory, key: Key)
    requires ProperOverrides(m)
    ensures SamePermission(Lookup(m, key), Lookup(Flush(m).0, key))
  {
    if m.dirty {
      FlushedFind(m.channels, |m.channels|, key);
    }
  }

  /** No permission changes in a cleanup. */
  lemma CleanupKeepsPermissions(m: Memory, key: Key)
    ensures SamePermission(Lookup(m, key), Lookup(Cleanup(m), key))
  {
    if key.1 == 0 && key.0 < |m.slots| && Forgotten(m, key.0) && InUse(m.slots[key.0]) {
      CleanupKeepsSet(m, key.0);
    }
  }

  // ------------------------------------------------------------------ the last write of a run

  /** What a permission is set to. */
  datatype Setting = Setting(value: Option<int>, grant: Option<int>)

  function SettingOf(c: PermissionContainer): Setting {
    Setting(
      if c.flags.valueSet then Some(c.values.value) else None,
      if c.flags.grantSet then Some(c.values.grant) else None)
  }

  function Write(op: UpdateType, wanted: int, before: Option<int>): Option<int> {
    match op
    case SetValue => Some(wanted)
    case DeleteValue => None
    case DoNothing => before
  }

  function Changed(s: Setting, ch: Change): Setting {
    Setting(Write(ch.value, ch.values.value, s.value), Write(ch.grant, ch.values.grant, s.grant))
  }

  /** What an event writes to a permission: a number of a row is -2 where none is set. */
  function Written(s: Setting, e: Event, key: Key): Setting {
    match e
    case Set(p, ch) => if (p, 0) == key then Changed(s, ch) else s
    case SetChannel(p, c, ch) => if (p, c) == key then Changed(s, ch) else s
    case Load(p, c, row) =>
      if (p, c) == key then
        Setting(if row.value == -2 then None else Some(row.value), if row.grant == -2 then None else Some(row.grant))
      else s
    case FlushAll => s
    case CleanUp => s
  }

  /** The writes of a run to a permission, one after the other. */
  function AllWritten(s: Setting, es: seq<Event>, key: Key): Setting
    decreases |es|
  {
    if es == [] then s else AllWritten(Written(s, es[0], key), es[1..], key)
  }

  lemma TookWrites(c: PermissionContainer, c': PermissionContainer, ch: Change, slot: bool)
    requires Took(c, c', ch, slot)
    ensures SettingOf(c') == Changed(SettingOf(c), ch)
  {
  }

  lemma SetChannelWrites(m: Memory, p: nat, c: nat, ch: Change, key: Key)
    requires c > 0 && key.0 < |m.slots|
    ensures var m' := SetOverride(m, p, c, ch);
      SettingOf(Lookup(m', key)) == Written(SettingOf(Lookup(m, key)), SetChannel(p, c, ch), key)
  {
    SetOverrideTakes(m, p, c, ch, key);
    if (p, c) == key && !Dropped1410(m, p, c, ch) {
      TookWrites(Lookup(m, key), Lookup(SetOverride(m, p, c, ch), key), ch, false);
    }
  }

  lemma NextWrites(m: Memory, db: map<Key, Row>, e: Event, key: Key)
    requires Coherent(m, db) && Permitted(m, e) && key.0 < |m.slots|
    ensures SettingOf(Lookup(Next(V1410, m, db, e).0, key)) == Written(SettingOf(Lookup(m, key)), e, key)
    ensures |Next(V1410, m, db, e).0.slots| == |m.slots|
  {
    match e
    case Set(p, ch) =>
      SetSlotTakes(m, p, ch, key);
      if (p, 0) == key {
        TookWrites(Lookup(m, key), Lookup(SetSlot(m, p, ch), key), ch, true);
      }
    case SetChannel(p, c, ch) => SetChannelWrites(m, p, c, ch, key);
    case Load(p, c, row) => LoadRowAt(m, (p, c), row, key);
    case FlushAll => FlushKeepsPermissions(m, key);
    case CleanUp => CleanupKeepsPermissions(m, key);
  }

  /** Behind every run of 1.4.10 every permission is what the writes of the run to it, one after the other, make
      of what it was: flushes, cleanups and writes to others leave it alone. */
  lemma {:induction false} RunWrites(m: Memory, db: map<Key, Row>, es: seq<Event>, m': Memory, db': map<Key, Row>,
    key: Key)
    requires Coherent(m, db) && Run(V1410, m, db, es, m', db') && key.0 < |m.slots|
    ensures SettingOf(Lookup(m', key)) == AllWritten(SettingOf(Lookup(m, key)), es, key)
    decreases |es|
  {
    if es != [] {
      var (m1, db1) := Next(V1410, m, db, es[0]);
      NextCoherent(V1410, m, db, es[0]);
      NextWrites(m, db, es[0], key);
      RunWrites(m1, db1, es[1..], m', db', key);
    }
  }

  /** From the first start to the next one: a run of a new manager, a flush, and the table loaded again, in
      whatever order its rows come. A permission is then set to what the run wrote to it last, exactly if neither
      number of that is -2. */
  lemma LastWriteSurvivesIff(n: nat, es: seq<Event>, m: Memory, db: map<Key, Row>, keys: seq<Key>, key: Key)
    requires Run(V1410, Fresh(n), map[], es, m, db) && key.0 < n
    requires forall k :: k in keys <==> k in ExecutedAll(db, Flush(m).1)
    ensures var last := AllWritten(Setting(None, None), es, key);
      var reloaded := LoadTable(Fresh(|m.slots|), ExecutedAll(db, Flush(m).1), keys);
      SettingOf(Lookup(reloaded, key)) == last <==> last.value != Some(-2) && last.grant != Some(-2)
  {
    EveryRunFlushesExactly(V1410, n, es, m, db);
    RestoredAtIff(m, ExecutedAll(db, Flush(m).1), keys, key);
    RunWrites(Fresh(n), map[], es, m, db, key);
  }
}
