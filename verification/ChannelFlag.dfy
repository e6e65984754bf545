/** The `channel_specific` flag of a permission against the overrides that exist for it, in version
    1.4.10 and in the master version. */
module ChannelFlag {
  import opened PermissionData
  import opened PermissionSpec
  import opened PermissionDatabase

  ghost predicate Flagged(m: Memory, p: nat) {
    p < |m.slots| && m.slots[p].flags.channelSpecific
  }

  /** A flagged permission has a set override. */
  ghost predicate FlagSound(m: Memory) {
    forall p :: Flagged(m, p) ==> HasOverride(m.channels, p)
  }

  /** A permission with a set override is flagged. */
  ghost predicate FlagComplete(m: Memory) {
    forall p :: HasOverride(m.channels, p) ==> Flagged(m, p)
  }

  ghost predicate FlagExact(m: Memory) {
    FlagSound(m) && FlagComplete(m)
  }

  ghost predicate Listed(m: Memory) {
    && DistinctKeys(m.channels)
    && forall k :: 0 <= k < |m.channels| ==> m.channels[k].permission < |m.slots|
  }

  // ------------------------------------------------------------------ one override changes

  /** Changing container `k`: overrides of other permissions are untouched. */
  lemma OverrideOfOthers(cs: seq<ChannelContainer>, k: nat, data: PermissionContainer, p: nat)
    requires k < |cs| && cs[k].permission != p
    ensures HasOverride(cs[k := cs[k].(data := data)], p) <==> HasOverride(cs, p)
  {
    var ds := cs[k := cs[k].(data := data)];
    if HasOverride(cs, p) {
      var j :| 0 <= j < |cs| && cs[j].permission == p && cs[j].data.flags.PermissionSet();
      assert ds[j] == cs[j];
    }
    if HasOverride(ds, p) {
      var j :| 0 <= j < |ds| && ds[j].permission == p && ds[j].data.flags.PermissionSet();
      assert ds[j] == cs[j];
    }
  }

  /** Making container `k` set gives its permission an override; leaving it unset takes none away from
      the other containers. */
  lemma OverrideOfSame(cs: seq<ChannelContainer>, k: nat, data: PermissionContainer)
    requires k < |cs|
    ensures var ds := cs[k := cs[k].(data := data)];
            && (data.flags.PermissionSet() ==> HasOverride(ds, cs[k].permission))
            && (HasOverride(ds, cs[k].permission) && !data.flags.PermissionSet() ==> HasOverride(cs, cs[k].permission))
  {
    var ds := cs[k := cs[k].(data := data)];
    assert ds[k].data == data;
    if HasOverride(ds, cs[k].permission) && !data.flags.PermissionSet() {
      var j :| 0 <= j < |ds| && ds[j].permission == cs[k].permission && ds[j].data.flags.PermissionSet();
      assert ds[j] == cs[j];
    }
  }

  /** Writing a change into container `k`: the flag stays sound, and it is exact afterwards exactly if
      the permission is flagged or the container ends up unset. */
  lemma OverriddenFlag(m: Memory, k: nat, ch: Change)
    requires Listed(m) && k < |m.channels|
    requires forall p :: p != m.channels[k].permission ==> (Flagged(m, p) <==> HasOverride(m.channels, p))
    requires HasOverride(m.channels, m.channels[k].permission) ==> Flagged(m, m.channels[k].permission)
    ensures FlagExact(Overridden(m, k, ch)) <==>
      Flagged(m, m.channels[k].permission) || !Applied(m.channels[k].data, ch, false).flags.PermissionSet()
    ensures FlagSound(Overridden(m, k, ch))
  {
    var p := m.channels[k].permission;
    var data := Applied(m.channels[k].data, ch, false);
    var m' := Overridden(m, k, ch);
    OverrideOfSame(m.channels, k, data);
    forall q | q != p ensures Flagged(m', q) <==> HasOverride(m'.channels, q) {
      OverrideOfOthers(m.channels, k, data, q);
    }
    assert FlagExact(m') <==> (Flagged(m', p) <==> HasOverride(m'.channels, p));
  }

  lemma RegisteredFlag(m: Memory, p: nat, c: nat)
    requires Listed(m) && FlagExact(m) && p < |m.slots| && FindContainer(m.channels, (p, c)) < 0
    ensures var m' := Registered(m, p, c);
            && Listed(m') && Flagged(m', p)
            && forall q :: q != p ==> (Flagged(m', q) <==> HasOverride(m'.channels, q))
  {
    var m' := Registered(m, p, c);
    forall q ensures HasOverride(m'.channels, q) <==> HasOverride(m.channels, q) {
      if HasOverride(m.channels, q) {
        var j :| 0 <= j < |m.channels| && m.channels[j].permission == q && m.channels[j].data.flags.PermissionSet();
        assert m'.channels[j] == m.channels[j];
      }
    }
  }

  // ------------------------------------------------------------------ the setters

  /** Version 1.4.10. The flag is always sound. It is exact after the call except when a container is
      re-set that was unset since the last flush while its permission has no other override: the guard of
      the registration branch tests for absence only. */
  lemma SetOverrideFlag(m: Memory, p: nat, c: nat, ch: Change)
    requires Listed(m) && FlagExact(m)
    ensures FlagSound(SetOverride(m, p, c, ch))
    ensures FlagExact(SetOverride(m, p, c, ch)) <==>
      !(p < |m.slots| && FindContainer(m.channels, (p, c)) >= 0 && !Flagged(m, p) && SetsSomething(ch))
  {
    if p < |m.slots| {
      var k := FindContainer(m.channels, (p, c));
      if k >= 0 {
        OverriddenFlag(m, k, ch);
        if !Flagged(m, p) {
          assert !HasOverride(m.channels, p);
          assert !m.channels[k].data.flags.PermissionSet();
        }
      } else if SetsSomething(ch) {
        RegisteredFlag(m, p, c);
        OverriddenFlag(Registered(m, p, c), |m.channels|, ch);
      }
    }
  }

  /** Soundness alone needs no exactness before the call. */
  lemma SetOverrideSound(m: Memory, p: nat, c: nat, ch: Change)
    requires Listed(m) && FlagSound(m)
    ensures FlagSound(SetOverride(m, p, c, ch))
  {
    var k := FindContainer(m.channels, (p, c));
    if p < |m.slots| && (k >= 0 || SetsSomething(ch)) {
      var m1, j := if k >= 0 then m else Registered(m, p, c), if k >= 0 then k else |m.channels|;
      var data := Applied(m1.channels[j].data, ch, false);
      OverrideOfSame(m1.channels, j, data);
      forall q | q != p && Flagged(m, q) ensures HasOverride(Overridden(m1, j, ch).channels, q) {
        var i :| 0 <= i < |m.channels| && m.channels[i].permission == q && m.channels[i].data.flags.PermissionSet();
        assert m1.channels[i] == m.channels[i];
        OverrideOfOthers(m1.channels, j, data, q);
      }
    }
  }

  /** The failing call, in three steps from a new manager: set, unset, set again without a flush. */
  lemma SetOverrideFlagLost()
    ensures var m := SetOverride(SetOverride(SetOverride(Fresh(1), 0, 1, SET_ONE), 0, 1, UNSET), 0, 1, SET_ONE);
            HasOverride(m.channels, 0) && !Flagged(m, 0)
  {
    var m1 := SetOverride(Fresh(1), 0, 1, SET_ONE);
    assert m1.channels == [ChannelContainer(0, 1, Applied(EMPTY_CONTAINER, SET_ONE, false))];
    var m2 := SetOverride(m1, 0, 1, UNSET);
    var m3 := SetOverride(m2, 0, 1, SET_ONE);
    assert m3.channels[0].data.flags.PermissionSet();
  }

  /** The master version keeps the flag exact. */
  lemma SetOverrideMasterFlag(m: Memory, p: nat, c: nat, ch: Change)
    requires Listed(m) && FlagExact(m)
    ensures FlagExact(SetOverrideMaster(m, p, c, ch))
  {
    if p < |m.slots| {
      var k := FindContainer(m.channels, (p, c));
      if k >= 0 && m.channels[k].data.flags.PermissionSet() {
        assert HasOverride(m.channels, p);
        OverriddenFlag(m, k, ch);
      } else if k < 0 {
        RegisteredFlag(m, p, c);
        OverriddenFlag(Registered(m, p, c), |m.channels|, ch);
      } else {
        OverriddenFlag(m.(slots := WithChannelFlag(m.slots, p, true)), k, ch);
      }
    }
  }

  /** Its own gap: a call that only sets the grant of an override that is absent or unset is dropped;
      in every other case, and always in 1.4.10, the grant is set afterwards. */
  lemma GrantReaches(m: Memory, p: nat, c: nat, ch: Change)
    requires Listed(m) && p < |m.slots| && c > 0 && ch.grant.SetValue?
    ensures Lookup(SetOverride(m, p, c, ch), (p, c)).flags.grantSet
    ensures Lookup(SetOverride(m, p, c, ch), (p, c)).values.grant == ch.values.grant
    ensures (SetOverrideMaster(m, p, c, ch) == m) <==
      (!Lookup(m, (p, c)).flags.PermissionSet() && !ch.value.SetValue?)
    ensures Lookup(SetOverrideMaster(m, p, c, ch), (p, c)).flags.grantSet <==>
      Lookup(m, (p, c)).flags.PermissionSet() || ch.value.SetValue?
  {
    var k := FindContainer(m.channels, (p, c));
    if k >= 0 {
      OverriddenLookup(m, k, ch);
      OverriddenLookup(m.(slots := WithChannelFlag(m.slots, p, true)), k, ch);
    } else {
      FindAppend(m.channels, ChannelContainer(p, c, EMPTY_CONTAINER), (p, c));
      OverriddenLookup(Registered(m, p, c), |m.channels|, ch);
    }
  }

  const GRANT_ONE := Change(PermissionValues(0, 1), DoNothing, SetValue, -1, -1)

  /** The dropped call, on a new manager. */
  lemma GrantDropped()
    ensures SetOverrideMaster(Fresh(1), 0, 1, GRANT_ONE) == Fresh(1)
    ensures Lookup(SetOverride(Fresh(1), 0, 1, GRANT_ONE), (0, 1)).flags.grantSet
  {
    GrantReaches(Fresh(1), 0, 1, GRANT_ONE);
  }

  lemma OverriddenLookup(m: Memory, k: nat, ch: Change)
    requires k < |m.channels| && m.channels[k].permission < |m.slots| && m.channels[k].channel > 0
    requires FindContainer(m.channels, KeyOf(m.channels[k])) == k
    ensures Lookup(Overridden(m, k, ch), KeyOf(m.channels[k])) == Applied(m.channels[k].data, ch, false)
  {
    var key := KeyOf(m.channels[k]);
    var cs := Overridden(m, k, ch).channels;
    SameKeysFindEqual(m.channels, cs, key);
  }

  // ------------------------------------------------------------------ the other operations

  /** A flush removes only overrides that are not set. */
  lemma FlushKeepsOverrides(m: Memory, p: nat)
    requires DistinctKeys(m.channels)
    ensures HasOverride(Flush(m).0.channels, p) <==> HasOverride(m.channels, p)
  {
    var r := FlushedOverrides(m.channels, |m.channels|);
    if HasOverride(m.channels, p) {
      var k :| 0 <= k < |m.channels| && m.channels[k].permission == p && m.channels[k].data.flags.PermissionSet();
      FlushedFind(m.channels, |m.channels|, KeyOf(m.channels[k]));
      FindUnique(m.channels, k);
      var j := FindContainer(r, KeyOf(m.channels[k]));
      assert r[j].data.flags.PermissionSet();
    }
    if HasOverride(r, p) {
      var j :| 0 <= j < |r| && r[j].permission == p && r[j].data.flags.PermissionSet();
      var k := FlushedOrigin(m.channels, j);
      assert m.channels[k].data.flags.PermissionSet();
    }
  }

  /** Flushes, cleanups and slot writes leave every flag and every set override as they are. */
  lemma OtherOperationsKeepFlag(m: Memory, p: nat, ch: Change)
    requires DistinctKeys(m.channels)
    ensures FlagSound(m) ==> FlagSound(Flush(m).0) && FlagSound(Cleanup(m)) && FlagSound(SetSlot(m, p, ch))
    ensures FlagComplete(m) ==> FlagComplete(Flush(m).0) && FlagComplete(Cleanup(m)) && FlagComplete(SetSlot(m, p, ch))
  {
    forall q
      ensures HasOverride(Flush(m).0.channels, q) <==> HasOverride(m.channels, q)
      ensures Flagged(Flush(m).0, q) <==> Flagged(m, q)
      ensures Flagged(Cleanup(m), q) <==> Flagged(m, q)
      ensures Flagged(SetSlot(m, p, ch), q) <==> Flagged(m, q)
    {
      OtherOperationsAt(m, p, ch, q);
    }
  }

  lemma OtherOperationsAt(m: Memory, p: nat, ch: Change, q: nat)
    requires DistinctKeys(m.channels)
    ensures HasOverride(Flush(m).0.channels, q) <==> HasOverride(m.channels, q)
    ensures Flagged(Flush(m).0, q) <==> Flagged(m, q)
    ensures Flagged(Cleanup(m), q) <==> Flagged(m, q)
    ensures Flagged(SetSlot(m, p, ch), q) <==> Flagged(m, q)
  {
    FlushKeepsOverrides(m, q);
    if Flagged(m, q) {
      CleanupKeepsSet(m, q);
    }
  }

  lemma LoadSlotKeepsFlag(m: Memory, p: nat, values: PermissionValues, skip: bool, negate: bool, hasValue: bool,
    hasGrant: bool)
    ensures var m' := LoadSlot(m, p, values, skip, negate, hasValue, hasGrant);
            (FlagSound(m') <==> FlagSound(m)) && (FlagComplete(m') <==> FlagComplete(m))
  {
    var m' := LoadSlot(m, p, values, skip, negate, hasValue, hasGrant);
    forall q ensures Flagged(m', q) <==> Flagged(m, q) {
    }
  }

  /** Loading a row into an override: exact afterwards unless the container existed without a flag. */
  lemma LoadOverrideFlag(m: Memory, p: nat, c: nat, values: PermissionValues, skip: bool, negate: bool, hasValue: bool,
    hasGrant: bool)
    requires Listed(m) && FlagExact(m) && p < |m.slots| && (hasValue || hasGrant)
    ensures var m' := LoadOverride(m, p, c, values, skip, negate, hasValue, hasGrant);
            && FlagSound(m')
            && (FlagExact(m') <==> FindContainer(m.channels, (p, c)) < 0 || Flagged(m, p))
  {
    var m' := LoadOverride(m, p, c, values, skip, negate, hasValue, hasGrant);
    var k := FindContainer(m.channels, (p, c));
    if k >= 0 {
      OverrideOfSame(m.channels, k, m'.channels[k].data);
      forall q | q != p ensures HasOverride(m'.channels, q) <==> HasOverride(m.channels, q) {
        OverrideOfOthers(m.channels, k, m'.channels[k].data, q);
      }
    } else {
      RegisteredFlag(m, p, c);
      var m1 := Registered(m, p, c);
      var data := m'.channels[|m.channels|].data;
      assert m'.channels == m1.channels[|m.channels| := m1.channels[|m.channels|].(data := data)];
      OverrideOfSame(m1.channels, |m.channels|, data);
      forall q | q != p ensures HasOverride(m'.channels, q) <==> HasOverride(m1.channels, q) {
        OverrideOfOthers(m1.channels, |m.channels|, data, q);
      }
    }
  }

  // ------------------------------------------------------------------ whole runs

  lemma NextFlag(v: Version, m: Memory, db: map<Key, Row>, e: Event)
    requires Listed(m) && Permitted(m, e) && !e.Load?
    ensures v.V1410? && FlagSound(m) ==> FlagSound(Next(v, m, db, e).0)
    ensures v.Master? && FlagExact(m) ==> FlagExact(Next(v, m, db, e).0)
  {
    var p, ch := if e.Set? then e.p else 0, if e.Set? then e.ch else SET_ONE;
    OtherOperationsKeepFlag(m, p, ch);
    if e.SetChannel? {
      if v.V1410? && FlagSound(m) {
        SetOverrideSound(m, e.p, e.c, e.ch);
      }
      if v.Master? && FlagExact(m) {
        SetOverrideMasterFlag(m, e.p, e.c, e.ch);
      }
    }
  }

  ghost predicate NoLoads(es: seq<Event>) {
    forall i :: 0 <= i < |es| ==> !es[i].Load?
  }

  /** Over every run behind the initial loads: sound in 1.4.10, exact in the master version. */
  lemma {:induction false} RunFlag(v: Version, m: Memory, db: map<Key, Row>, es: seq<Event>, m': Memory,
    db': map<Key, Row>)
    requires Coherent(m, db) && Run(v, m, db, es, m', db') && NoLoads(es)
    ensures v.V1410? && FlagSound(m) ==> FlagSound(m')
    ensures v.Master? && FlagExact(m) ==> FlagExact(m')
    decreases |es|
  {
    if es != [] {
      NextFlag(v, m, db, es[0]);
      NextCoherent(v, m, db, es[0]);
      RunFlag(v, Next(v, m, db, es[0]).0, Next(v, m, db, es[0]).1, es[1..], m', db');
    }
  }

  /** The call meets the gap of the registration branch of 1.4.10: it sets something in a container that is
      listed while its permission is not flagged. */
  predicate MeetsGap(m: Memory, e: Event) {
    && e.SetChannel? && e.p < |m.slots|
    && FindContainer(m.channels, (e.p, e.c)) >= 0 && !m.slots[e.p].flags.channelSpecific && SetsSomething(e.ch)
  }

  ghost predicate ExactThroughout(m: Memory, db: map<Key, Row>, es: seq<Event>)
    decreases |es|
  {
    && FlagExact(m)
    && (es != [] ==> var (m1, db1) := Next(V1410, m, db, es[0]); ExactThroughout(m1, db1, es[1..]))
  }

  predicate GapNeverMet(m: Memory, db: map<Key, Row>, es: seq<Event>)
    decreases |es|
  {
    es == [] || (!MeetsGap(m, es[0]) && var (m1, db1) := Next(V1410, m, db, es[0]); GapNeverMet(m1, db1, es[1..]))
  }

  lemma NextFlagIff(m: Memory, db: map<Key, Row>, e: Event)
    requires Listed(m) && Permitted(m, e) && !e.Load? && FlagExact(m)
    ensures FlagExact(Next(V1410, m, db, e).0) <==> !MeetsGap(m, e)
  {
    OtherOperationsKeepFlag(m, if e.Set? then e.p else 0, if e.Set? then e.ch else SET_ONE);
    if e.SetChannel? {
      SetOverrideFlag(m, e.p, e.c, e.ch);
    }
  }

  /** Version 1.4.10: behind the initial loads the flag is exact in every state of a run exactly if no call of
      the run meets the gap. */
  lemma {:induction false} RunExactIff(m: Memory, db: map<Key, Row>, es: seq<Event>, m': Memory, db': map<Key, Row>)
    requires Coherent(m, db) && Run(V1410, m, db, es, m', db') && NoLoads(es) && FlagExact(m)
    ensures ExactThroughout(m, db, es) <==> GapNeverMet(m, db, es)
    decreases |es|
  {
    if es != [] {
      var (m1, db1) := Next(V1410, m, db, es[0]);
      NextFlagIff(m, db, es[0]);
      if !MeetsGap(m, es[0]) {
        NextCoherent(V1410, m, db, es[0]);
        RunExactIff(m1, db1, es[1..], m', db');
      }
    }
  }

  /** Only loads, each of another row, none of which is in memory yet. */
  ghost predicate FreshLoads(m: Memory, es: seq<Event>) {
    && (forall i :: 0 <= i < |es| ==> es[i].Load?)
    && (forall i, j :: 0 <= i < j < |es| ==> (es[i].p, es[i].c) != (es[j].p, es[j].c))
    && (forall i, k :: 0 <= i < |es| && 0 <= k < |m.channels| ==> KeyOf(m.channels[k]) != (es[i].p, es[i].c))
  }

  /** Loading a row that is not in memory yet. */
  lemma LoadFlag(v: Version, m: Memory, db: map<Key, Row>, e: Event)
    requires Listed(m) && FlagExact(m) && e.Load? && Permitted(m, e) && FindContainer(m.channels, (e.p, e.c)) < 0
    ensures FlagExact(Next(v, m, db, e).0)
  {
    var values := PermissionValues(e.row.value, e.row.grant);
    var hasValue, hasGrant := e.row.value != PERM_NOT_GRANTED, e.row.grant != PERM_NOT_GRANTED;
    if e.c == 0 {
      LoadSlotKeepsFlag(m, e.p, values, e.row.skip, e.row.negate, hasValue, hasGrant);
    } else {
      LoadOverrideFlag(m, e.p, e.c, values, e.row.skip, e.row.negate, hasValue, hasGrant);
    }
  }

  /** The remaining loads are still of other rows. */
  lemma StillFresh(v: Version, m: Memory, db: map<Key, Row>, es: seq<Event>)
    requires es != [] && FreshLoads(m, es) && Permitted(m, es[0])
    ensures FindContainer(m.channels, (es[0].p, es[0].c)) < 0
    ensures FreshLoads(Next(v, m, db, es[0]).0, es[1..])
  {
    var e, m' := es[0], Next(v, m, db, es[0]).0;
    assert FindContainer(m.channels, (e.p, e.c)) < 0;
    forall k | 0 <= k < |m'.channels|
      ensures KeyOf(m'.channels[k]) == (e.p, e.c) || (k < |m.channels| && m'.channels[k] == m.channels[k])
    {
    }
  }

  /** Loading a table, row by row, leaves the flag exact. */
  lemma {:induction false} LoadsFlag(v: Version, m: Memory, db: map<Key, Row>, es: seq<Event>, m': Memory,
    db': map<Key, Row>)
    requires Coherent(m, db) && Run(v, m, db, es, m', db') && FreshLoads(m, es) && FlagExact(m)
    ensures FlagExact(m')
    decreases |es|
  {
    if es != [] {
      StillFresh(v, m, db, es);
      LoadFlag(v, m, db, es[0]);
      NextCoherent(v, m, db, es[0]);
      LoadsFlag(v, Next(v, m, db, es[0]).0, Next(v, m, db, es[0]).1, es[1..], m', db');
    }
  }
}
