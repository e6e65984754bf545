/** Permission containers, the changes made to them, and what the database is told about them
    (PermissionManager.h, lines 746-819; DatabaseHelper.cpp, lines 231-233 and 325-357). */
module PermissionData {

  type PermissionValue = x: int | -0x8000_0000 <= x < 0x8000_0000

  const PERM_NOT_GRANTED: PermissionValue := -2

  datatype PermissionFlags = PermissionFlags(
    databaseReference: bool,
    channelSpecific: bool,
    valueSet: bool,
    grantSet: bool,
    skip: bool,
    negate: bool,
    valueUpdate: bool,
    grantUpdate: bool)
  {
    predicate PermissionSet() {
      valueSet || grantSet
    }

    predicate Pending() {
      valueUpdate || grantUpdate
    }
  }

  datatype PermissionValues = PermissionValues(value: PermissionValue, grant: PermissionValue)

  datatype PermissionContainer = PermissionContainer(flags: PermissionFlags, values: PermissionValues)

  const EMPTY_FLAGS := PermissionFlags(false, false, false, false, false, false, false, false)
  const EMPTY_CONTAINER := PermissionContainer(EMPTY_FLAGS, PermissionValues(0, 0))

  datatype ChannelContainer = ChannelContainer(permission: nat, channel: nat, data: PermissionContainer)

  datatype UpdateType = DoNothing | SetValue | DeleteValue

  /** The arguments of a setter besides the permission: new values, what to do with them, and the two
      flags (-1 leaves a flag alone, 1 sets it, anything else clears it). */
  datatype Change = Change(values: PermissionValues, value: UpdateType, grant: UpdateType, skip: int, negate: int)

  /** The field writes shared by both setters; `resetting` writes the not-granted marker on deletion. */
  function Applied(c: PermissionContainer, ch: Change, resetting: bool): PermissionContainer {
    var f := c.flags;
    var v := c.values;
    var valueSet := if ch.value.SetValue? then true else if ch.value.DeleteValue? then false else f.valueSet;
    var grantSet := if ch.grant.SetValue? then true else if ch.grant.DeleteValue? then false else f.grantSet;
    PermissionContainer(
      f.(valueSet := valueSet,
         grantSet := grantSet,
         skip := if ch.skip >= 0 then ch.skip == 1 else f.skip,
         negate := if ch.negate >= 0 then ch.negate == 1 else f.negate,
         valueUpdate := f.valueUpdate || !ch.value.DoNothing? || ch.skip >= 0 || ch.negate >= 0,
         grantUpdate := f.grantUpdate || !ch.grant.DoNothing?),
      PermissionValues(
        if ch.value.SetValue? then ch.values.value
        else if ch.value.DeleteValue? && resetting then PERM_NOT_GRANTED else v.value,
        if ch.grant.SetValue? then ch.values.grant
        else if ch.grant.DeleteValue? && resetting then PERM_NOT_GRANTED else v.grant))
  }

  /** A row read from the database. */
  function Loaded(c: PermissionContainer, values: PermissionValues, skip: bool, negate: bool, hasValue: bool,
    hasGrant: bool): PermissionContainer
  {
    PermissionContainer(
      c.flags.(databaseReference := true, skip := skip, negate := negate, valueSet := hasValue, grantSet := hasGrant),
      values)
  }

  datatype DbUpdate = DbUpdate(
    permission: nat,
    channel: nat,
    values: PermissionValues,
    updateValue: UpdateType,
    updateGrant: UpdateType,
    flagDb: bool,
    flagDelete: bool,
    flagSkip: bool,
    flagNegate: bool)

  /** The entry a flush emits for a container. */
  function UpdateFor(permission: nat, channel: nat, c: PermissionContainer): DbUpdate {
    var f := c.flags;
    DbUpdate(permission, channel,
      PermissionValues(
        if f.valueSet then c.values.value else PERM_NOT_GRANTED,
        if f.grantSet then c.values.grant else PERM_NOT_GRANTED),
      if f.valueUpdate then (if f.valueSet then SetValue else DeleteValue) else DoNothing,
      if f.grantUpdate then (if f.grantSet then SetValue else DeleteValue) else DoNothing,
      f.databaseReference, !f.PermissionSet(), f.skip, f.negate)
  }

  /** An update is needed if the database knows the permission or it is set. */
  predicate Emits(c: PermissionContainer) {
    c.flags.Pending() && (c.flags.databaseReference || c.flags.PermissionSet())
  }

  /** The container after a flush. */
  function Flushed(c: PermissionContainer): PermissionContainer {
    if !c.flags.Pending() then c
    else
      var known := c.flags.databaseReference || c.flags.PermissionSet();
      c.(flags := c.flags.(
        databaseReference := if known then c.flags.PermissionSet() else c.flags.databaseReference,
        valueUpdate := false, grantUpdate := false))
  }

  // ------------------------------------------------------------------ the database side

  type Key = (nat, nat)

  datatype Row = Row(value: PermissionValue, grant: PermissionValue, skip: bool, negate: bool)

  /** The row that represents a set permission. */
  function RowOf(c: PermissionContainer): Row {
    Row(if c.flags.valueSet then c.values.value else PERM_NOT_GRANTED,
        if c.flags.grantSet then c.values.grant else PERM_NOT_GRANTED,
        c.flags.skip, c.flags.negate)
  }

  /** Executing one update: DELETE, UPDATE of an existing row, or INSERT, which fails on an existing key. */
  function Executed(db: map<Key, Row>, u: DbUpdate): map<Key, Row> {
    var key := (u.permission, u.channel);
    var row := Row(
      if u.updateValue.DeleteValue? then PERM_NOT_GRANTED else u.values.value,
      if u.updateGrant.DeleteValue? then PERM_NOT_GRANTED else u.values.grant,
      u.flagSkip, u.flagNegate);
    if u.flagDelete then map k | k in db && k != key :: db[k]
    else if u.flagDb == (key in db) then db[key := row]
    else db
  }

  function ExecutedAll(db: map<Key, Row>, us: seq<DbUpdate>): map<Key, Row>
    decreases |us|
  {
    if us == [] then db else ExecutedAll(Executed(db, us[0]), us[1..])
  }

  lemma {:induction false} ExecutedAppend(db: map<Key, Row>, us: seq<DbUpdate>, vs: seq<DbUpdate>)
    ensures ExecutedAll(db, us + vs) == ExecutedAll(ExecutedAll(db, us), vs)
    decreases |us|
  {
    if us == [] {
      assert us + vs == vs;
    } else {
      assert (us + vs)[1..] == us[1..] + vs;
      ExecutedAppend(Executed(db, us[0]), us[1..], vs);
    }
  }

  /** How a container and its row in the database agree between flushes. */
  predicate Agrees(c: PermissionContainer, db: map<Key, Row>, key: Key) {
    && (c.flags.databaseReference <==> key in db)
    && (!c.flags.Pending() ==>
         && (c.flags.PermissionSet() <==> key in db)
         && (key in db ==> db[key] == RowOf(c)))
  }

  /** The central step: flushing one container makes its row exact and touches no other row. */
  lemma FlushOne(c: PermissionContainer, db: map<Key, Row>, key: Key)
    requires Agrees(c, db, key)
    ensures var db' := if Emits(c) then Executed(db, UpdateFor(key.0, key.1, c)) else db;
            && Agrees(Flushed(c), db', key)
            && !Flushed(c).flags.Pending()
            && (Flushed(c).flags.PermissionSet() <==> c.flags.PermissionSet())
            && RowOf(Flushed(c)) == RowOf(c)
            && forall k :: k != key ==> ((k in db' <==> k in db) && (k in db ==> db'[k] == db[k]))
  {
  }
}
