/** The channels of a server: creation, lookup by id, name and path (BasicChannel.cpp, lines 216-287 and
    339-343), and the default channel (lines 40-48 and 309-329). */
module ChannelTrees {
  import opened ChannelPaths
  import opened Options
  import opened Sequences
  import opened TreeViews

  datatype Flag = Password | Default

  /** A boolean property as it is printed, and as it is parsed. */
  function Shown(b: bool): string {
    if b then "1" else "0"
  }

  predicate Parsed(s: string) {
    s == "1" || s == "true"
  }

  class Channel {
    const id: nat
    const name: string
    var parent: Channel?     // through the link the tree holds for the channel
    ghost const depth: nat   // of the channel below its parents, 1 without a parent
    var flagDefault: string
    var flagPassword: string

    constructor (id: nat, name: string, ghost depth: nat)
      ensures parent == null && this.id == id && this.name == name && this.depth == depth
      ensures flagDefault == Shown(false) && flagPassword == Shown(false)
    {
      this.id, this.name, this.depth := id, name, depth;
      parent := null;
      flagDefault, flagPassword := Shown(false), Shown(false);
    }

    /** update_value of one of the two flags. A change notifies the handler, which may update again. */
    method Update(flag: Flag, value: bool)
      modifies `flagDefault, `flagPassword
      ensures flag.Password? ==> flagDefault == old(flagDefault) && flagPassword == Shown(value)
      ensures flag.Default? ==> flagDefault == Shown(value)
      ensures flag.Default? ==>
        flagPassword == if flagDefault == old(flagDefault) then old(flagPassword) else Shown(false)
      decreases flag.Default?, 1
    {
      match flag
      case Password =>
        if flagPassword == Shown(value) {
          return;
        }
        flagPassword := Shown(value);
        Notified(flag);
      case Default =>
        if flagDefault == Shown(value) {
          return;
        }
        flagDefault := Shown(value);
        Notified(flag);
    }

    /** The handler installed by setProperties. */
    method Notified(flag: Flag)
      modifies `flagDefault, `flagPassword
      ensures flagDefault == old(flagDefault)
      ensures flagPassword == if flag.Default? then Shown(false) else old(flagPassword)
      decreases flag.Default?, 0
    {
      if flag.Default? {
        Update(Password, false);
      }
    }
  }

  function Present(ch: Channel?): set<Channel> {
    if ch == null then {} else {ch}
  }

  /** The password flag of a channel whose default flag is cleared: gone exactly if that is a change. */
  function Cleared(flagDefault: string, flagPassword: string): string {
    if flagDefault == "0" then flagPassword else "0"
  }

  // ------------------------------------------------------------------ trees

  /** Ids are positive and unique, parents are channels of the tree, and nobody is its own ancestor. */
  ghost predicate IsTree(channels: seq<Channel>)
    reads channels
  {
    && IdsUnique(channels)
    && (forall i :: 0 <= i < |channels| ==> Placed(channels, channels[i]))
  }

  ghost predicate IdsUnique(channels: seq<Channel>) {
    && (forall i :: 0 <= i < |channels| ==> channels[i].id >= 1)
    && (forall i, j :: 0 <= i < j < |channels| ==> channels[i].id != channels[j].id)
  }

  ghost predicate Placed(channels: seq<Channel>, c: Channel)
    reads c
  {
    if c.parent == null then c.depth == 1 else c.parent in channels && c.depth == c.parent.depth + 1
  }

  /** No two children of one channel share a name. */
  ghost predicate NamesUnique(channels: seq<Channel>)
    reads channels
  {
    forall i, j :: 0 <= i < j < |channels| ==> NamesDiffer(channels[i], channels[j])
  }

  ghost predicate NamesDiffer(a: Channel, b: Channel)
    reads a, b
  {
    a.name != b.name || a.parent != b.parent
  }

  // ------------------------------------------------------------------ lookup

  function FindId(channels: seq<Channel>, id: nat): (r: Channel?)
    ensures r == null ==> forall i :: 0 <= i < |channels| ==> channels[i].id != id
    ensures r != null ==> r in channels && r.id == id
  {
    if channels == [] then null
    else if channels[0].id == id then channels[0]
    else
      assert forall i :: 1 <= i < |channels| ==> channels[i] == channels[1..][i - 1];
      FindId(channels[1..], id)
  }

  function FindName(channels: seq<Channel>, name: string, layer: Channel?): (r: Channel?)
    reads channels
    ensures r == null ==> forall i :: 0 <= i < |channels| ==> channels[i].name != name || channels[i].parent != layer
    ensures r != null ==> r in channels && r.name == name && r.parent == layer
  {
    if channels == [] then null
    else if channels[0].name == name && channels[0].parent == layer then channels[0]
    else
      assert forall i :: 1 <= i < |channels| ==> channels[i] == channels[1..][i - 1];
      FindName(channels[1..], name, layer)
  }

  /** Where a list of names leads from `current`. */
  function Resolve(channels: seq<Channel>, names: seq<string>, current: Channel?): (r: Channel?)
    reads channels
  {
    if names == [] then current
    else
      var next := FindName(channels, names[0], current);
      if next == null then null else Resolve(channels, names[1..], next)
  }

  /** The names from the root down to a channel. */
  ghost function PathOf(channels: seq<Channel>, c: Channel): (r: seq<string>)
    requires IsTree(channels) && c in channels
    reads channels
    ensures |r| == c.depth
    decreases c.depth
  {
    if c.parent == null then [c.name] else PathOf(channels, c.parent) + [c.name]
  }

  lemma {:induction false} ResolveAppend(channels: seq<Channel>, names: seq<string>, name: string, current: Channel?)
    requires names != []
    ensures var m := Resolve(channels, names, current);
            Resolve(channels, names + [name], current) == if m == null then null else FindName(channels, name, m)
  {
    assert (names + [name])[1..] == names[1..] + [name];
    var next := FindName(channels, names[0], current);
    if next != null {
      if |names| == 1 {
        assert names[1..] + [name] == [name] && names[1..] == [];
        assert Resolve(channels, [name], next) == FindName(channels, name, next) by {
          assert [name][1..] == [];
        }
      } else {
        ResolveAppend(channels, names[1..], name, next);
      }
    }
  }

  lemma OneOfAName(channels: seq<Channel>, c: Channel)
    requires NamesUnique(channels) && c in channels
    ensures FindName(channels, c.name, c.parent) == c
  {
  }

  lemma {:induction false} PathResolves(channels: seq<Channel>, c: Channel)
    requires IsTree(channels) && NamesUnique(channels) && c in channels
    ensures Resolve(channels, PathOf(channels, c), null) == c
    decreases c.depth
  {
    OneOfAName(channels, c);
    if c.parent == null {
      assert [c.name][1..] == [];
    } else {
      PathResolves(channels, c.parent);
      ResolveAppend(channels, PathOf(channels, c.parent), c.name, null);
    }
  }

  lemma {:induction false} ResolvedIsPath(channels: seq<Channel>, names: seq<string>)
    requires IsTree(channels) && Resolve(channels, names, null) != null
    ensures Resolve(channels, names, null) in channels
    ensures PathOf(channels, Resolve(channels, names, null)) == names
    decreases |names|
  {
    var front, last := names[..|names| - 1], names[|names| - 1];
    assert names == front + [last];
    if front == [] {
      assert names == [last] && [last][1..] == [];
    } else {
      ResolveAppend(channels, front, last, null);
      ResolvedIsPath(channels, front);
    }
  }

  /** Where sibling names are unique, names lead to a channel exactly if they are its path. */
  lemma ResolvesIffPath(channels: seq<Channel>, names: seq<string>, c: Channel)
    requires IsTree(channels) && NamesUnique(channels) && c in channels
    ensures Resolve(channels, names, null) == c <==> names == PathOf(channels, c)
  {
    PathResolves(channels, c);
    if Resolve(channels, names, null) == c {
      ResolvedIsPath(channels, names);
    }
  }

  /** What findChannelByPath answers. */
  ghost function ByPath(channels: seq<Channel>, path: string, unescape: string -> string): Channel?
    reads channels
  {
    Resolve(channels, Unescaped(Split(path), unescape), null)
  }

  /** Looking up the joined path of a channel gives the channel exactly if its names are canonical: no
      slash, none but its own empty or ending with a backslash, at most 256 of them. Unescaping is only
      asked to leave the names, and what the path is split into, as they are. */
  lemma ByPathInvertsPath(channels: seq<Channel>, c: Channel, unescape: string -> string)
    requires IsTree(channels) && NamesUnique(channels) && c in channels
    requires Unescaped(PathOf(channels, c), unescape) == PathOf(channels, c)
    requires Unescaped(Split(Join(PathOf(channels, c))), unescape) == Split(Join(PathOf(channels, c)))
    ensures ByPath(channels, Join(PathOf(channels, c)), unescape) == c <==> Canonical(PathOf(channels, c), 0)
  {
    var names := PathOf(channels, c);
    SplitInvertsJoinIff(names);
    ResolvesIffPath(channels, Unescaped(Split(Join(names)), unescape), c);
  }

  // ------------------------------------------------------------------ the least unused id

  function IdsOf(channels: seq<Channel>): (r: set<nat>)
    ensures |r| <= |channels|
    ensures forall i :: 0 <= i < |channels| ==> channels[i].id in r
  {
    if channels == [] then {}
    else
      assert forall i :: 1 <= i < |channels| ==> channels[i] == channels[1..][i - 1];
      IdsOf(channels[1..]) + {channels[0].id}
  }

  lemma {:induction false} Counted(s: set<nat>, n: nat)
    requires forall k :: 1 <= k <= n ==> k in s
    ensures n <= |s|
    decreases n
  {
    if n > 0 {
      forall k | 1 <= k <= n - 1 ensures k in s - {n} {
      }
      Counted(s - {n}, n - 1);
    }
  }

  // ------------------------------------------------------------------ insertion

  function Inserted(channels: seq<Channel>, at: nat, c: Channel): seq<Channel>
    requires at <= |channels|
  {
    channels[..at] + [c] + channels[at..]
  }

  /** Where an entry of the longer list comes from. */
  function Source(at: nat, i: nat): (r: int)
    ensures i != at ==> r >= 0
  {
    if i < at then i else i - 1
  }

  lemma InsertedEntries(channels: seq<Channel>, at: nat, c: Channel)
    requires at <= |channels|
    ensures var r := Inserted(channels, at, c);
            && |r| == |channels| + 1 && r[at] == c
            && forall i: nat :: i < |r| && i != at ==> r[i] == channels[Source(at, i)]
  {
  }

  lemma StillIn(channels: seq<Channel>, at: nat, c: Channel, p: Channel)
    requires at <= |channels| && p in channels
    ensures p in Inserted(channels, at, c)
  {
    assert channels == channels[..at] + channels[at..];
  }

  lemma InsertKeepsIds(channels: seq<Channel>, at: nat, c: Channel)
    requires IdsUnique(channels) && at <= |channels| && FindId(channels, c.id) == null && c.id >= 1
    ensures IdsUnique(Inserted(channels, at, c))
  {
    InsertedEntries(channels, at, c);
  }

  lemma InsertKeepsTree(channels: seq<Channel>, at: nat, c: Channel)
    requires IsTree(channels) && at <= |channels| && FindId(channels, c.id) == null && c.id >= 1
    requires Placed(channels, c)
    ensures IsTree(Inserted(channels, at, c))
  {
    var after := Inserted(channels, at, c);
    InsertKeepsIds(channels, at, c);
    InsertedEntries(channels, at, c);
    forall i: nat | i < |after| ensures Placed(after, after[i]) {
      assert Placed(channels, after[i]);
      if after[i].parent != null {
        StillIn(channels, at, c, after[i].parent);
      }
    }
  }

  lemma InsertKeepsNames(channels: seq<Channel>, at: nat, c: Channel)
    requires NamesUnique(channels) && at <= |channels| && FindName(channels, c.name, c.parent) == null
    ensures NamesUnique(Inserted(channels, at, c))
  {
    InsertedEntries(channels, at, c);
    var after := Inserted(channels, at, c);
    forall i: nat, j: nat | i < j < |after| ensures NamesDiffer(after[i], after[j]) {
      if i != at && j != at {
        assert NamesDiffer(channels[Source(at, i)], channels[Source(at, j)]);
      }
    }
  }

  lemma InsertClashes(channels: seq<Channel>, at: nat, c: Channel, i: nat)
    requires at <= |channels| && i < |channels| && channels[i].name == c.name && channels[i].parent == c.parent
    ensures !NamesUnique(Inserted(channels, at, c))
  {
    InsertedEntries(channels, at, c);
    var after := Inserted(channels, at, c);
    if i < at {
      assert !NamesDiffer(after[i], after[at]);
    } else {
      assert !NamesDiffer(after[at], after[i + 1]);
    }
  }

  lemma InsertKeepsNamesIff(channels: seq<Channel>, at: nat, c: Channel)
    requires NamesUnique(channels) && at <= |channels|
    ensures NamesUnique(Inserted(channels, at, c)) <==> FindName(channels, c.name, c.parent) == null
  {
    var sibling := FindName(channels, c.name, c.parent);
    if sibling == null {
      InsertKeepsNames(channels, at, c);
    } else {
      var i :| 0 <= i < |channels| && channels[i] == sibling;
      InsertClashes(channels, at, c, i);
    }
  }

  // ------------------------------------------------------------------ growing the tree

  function ToOption(c: Channel?): Option<Channel> {
    if c == null then None
    else
      var channel: Channel := c;
      Some(channel)
  }

  ghost function ParentsOf(channels: seq<Channel>): (m: map<Channel, Channel?>)
    reads channels
    ensures m.Keys == set c | c in channels
    ensures forall c :: c in channels ==> m[c] == c.parent
  {
    map c | c in channels :: c.parent
  }

  /** Every channel of the list has `owner` as its parent in `m`, and stands in front of its own children. */
  ghost predicate Owned(f: Forest<Channel>, owner: Channel?, m: map<Channel, Channel?>) {
    match f
    case Empty => true
    case Entry(c, child, next) => c in m && m[c] == owner && Owned(child, c, m) && Owned(next, owner, m)
  }

  /** Every channel is listed below its parent. */
  ghost predicate WellPlaced(f: Forest<Channel>, channels: seq<Channel>)
    reads channels
  {
    Owned(f, null, ParentsOf(channels))
  }

  lemma {:induction false} OwnedBesides(f: Forest<Channel>, owner: Channel?, m: map<Channel, Channel?>, c: Channel,
    p: Channel?)
    requires Owned(f, owner, m) && c !in Listing(f)
    ensures Owned(f, owner, m[c := p])
  {
    match f
    case Empty =>
    case Entry(x, child, next) =>
      OwnedBesides(child, x, m, c, p);
      OwnedBesides(next, owner, m, c, p);
  }

  lemma {:induction false} OwnedAppended(f: Forest<Channel>, owner: Channel?, m: map<Channel, Channel?>, c: Channel)
    requires Owned(f, owner, m) && c in m
    ensures Owned(Appended(f, c), owner, m) <==> m[c] == owner
  {
    match f
    case Empty =>
    case Entry(x, child, next) => OwnedAppended(next, owner, m, c);
  }

  lemma {:induction false} OwnedBehind(f: Forest<Channel>, owner: Channel?, m: map<Channel, Channel?>,
    previous: Channel, c: Channel)
    requires Owned(f, owner, m) && c in m && previous in Listing(f)
    ensures previous in m && (Owned(InsertedBehind(f, previous, c), owner, m) <==> m[c] == m[previous])
  {
    match f
    case Entry(x, child, next) =>
      if x == previous {
        assert Owned(Entry(c, Empty, next), owner, m) <==> m[c] == owner;
      } else if previous in Listing(child) {
        OwnedBehind(child, x, m, previous, c);
      } else {
        OwnedBehind(next, owner, m, previous, c);
      }
  }

  lemma {:induction false} OwnedBelow(f: Forest<Channel>, owner: Channel?, m: map<Channel, Channel?>, parent: Channel,
    c: Channel)
    requires Owned(f, owner, m) && c in m && parent in Listing(f)
    ensures Owned(InsertedBelow(f, parent, c), owner, m) <==> m[c] == parent
  {
    match f
    case Entry(x, child, next) =>
      if x == parent {
        assert Owned(Entry(c, Empty, child), x, m) <==> m[c] == x;
      } else if parent in Listing(child) {
        OwnedBelow(child, x, m, parent, c);
      } else {
        OwnedBelow(next, owner, m, parent, c);
      }
  }

  /** A grown tree lists every channel below its parent exactly if the predecessor was a child of the same
      parent, or the place was refused. */
  lemma OwnedGrown(f: Forest<Channel>, m: map<Channel, Channel?>, parent: Channel?, previous: Channel?, c: Channel)
    requires Owned(f, null, m) && c !in Listing(f)
    requires (parent != null ==> parent in Listing(f)) && (previous != null ==> previous in Listing(f) && previous in m)
    ensures var ok := Accepts(f, ToOption(parent), ToOption(previous));
      Owned(Grown(f, ToOption(parent), ToOption(previous), c), null, m[c := if ok then parent else null]) <==>
      !ok || previous == null || m[previous] == parent
  {
    var ok := Accepts(f, ToOption(parent), ToOption(previous));
    var m' := m[c := if ok then parent else null];
    OwnedBesides(f, null, m, c, m'[c]);
    if f.Entry? {
      if !ok {
        OwnedAppended(f, null, m', c);
      } else if previous != null {
        OwnedBehind(f, null, m', previous, c);
      } else if parent != null {
        OwnedBelow(f, null, m', parent, c);
      }
    }
  }

  lemma {:induction false} ParentListed(f: Forest<Channel>, owner: Channel?, m: map<Channel, Channel?>, c: Channel)
    requires Owned(f, owner, m) && c in Listing(f)
    ensures c in m && (m[c] == owner || m[c] in Listing(f))
  {
    match f
    case Entry(x, child, next) =>
      if c != x {
        if c in Listing(child) {
          ParentListed(child, x, m, c);
        } else {
          ParentListed(next, owner, m, c);
        }
      }
  }

  /** A channel whose parent owns the list is in that list itself. */
  lemma {:induction false} TopOfList(f: Forest<Channel>, owner: Channel?, m: map<Channel, Channel?>, c: Channel,
    deep: nat)
    requires Owned(f, owner, m) && c in Listing(f) && c in m && m[c] == owner && deep > 0
    requires owner != null ==> owner !in Listing(f)
    ensures HasEntry(f, c, deep)
  {
    match f
    case Entry(x, child, next) =>
      if c != x {
        if c in Listing(child) {
          ParentListed(child, x, m, c);
        } else {
          TopOfList(next, owner, m, c, deep);
        }
      }
  }

  /** The parts of a listing with different ids. */
  lemma IdsOfParts(c: Channel, a: seq<Channel>, b: seq<Channel>)
    requires IdsUnique([c] + a + b)
    ensures IdsUnique(a) && IdsUnique(b) && c !in a && c !in b
    ensures forall x :: x in a ==> x !in b
  {
    var s := [c] + a + b;
    assert forall i :: 0 <= i < |a| ==> a[i] == s[1 + i];
    assert forall i :: 0 <= i < |b| ==> b[i] == s[1 + |a| + i];
    assert s[0] == c;
  }

  lemma {:induction false} IdsOnce(f: Forest<Channel>)
    requires IdsUnique(Listing(f))
    ensures Once(f)
  {
    match f
    case Empty =>
    case Entry(c, child, next) =>
      IdsOfParts(c, Listing(child), Listing(next));
      IdsOnce(child);
      IdsOnce(next);
  }

  /** A child of `parent` is at most one level below its place. */
  lemma {:induction false} ChildInReach(f: Forest<Channel>, owner: Channel?, m: map<Channel, Channel?>, parent: Channel,
    c: Channel)
    requires Owned(f, owner, m) && Once(f) && c in Listing(f) && c in m && m[c] == parent && owner != parent
    requires owner != null ==> owner !in Listing(f)
    ensures HasEntry(At(f, parent), c, 2)
  {
    match f
    case Entry(x, child, next) =>
      if c in Listing(child) {
        if x == parent {
          TopOfList(child, x, m, c, 1);
        } else {
          ChildInReach(child, x, m, parent, c);
        }
      } else if c != x {
        ParentListed(next, owner, m, c);
        ChildInReach(next, owner, m, parent, c);
      }
  }

  /** In a tree that lists every channel below its parent, a child of the parent is always accepted as the
      predecessor. */
  lemma SiblingAccepted(f: Forest<Channel>, parent: Channel?, previous: Channel)
    requires WellPlaced(f, Listing(f)) && IsTree(Listing(f)) && previous in Listing(f) && previous.parent == parent
    ensures Accepts(f, ToOption(parent), Some(previous))
  {
    var m := ParentsOf(Listing(f));
    IdsOnce(f);
    assert Placed(Listing(f), previous);
    if parent == null {
      TopOfList(f, null, m, previous, 2);
    } else {
      ChildInReach(f, null, m, parent, previous);
    }
  }

  lemma NoChannelZero(channels: seq<Channel>)
    requires IdsUnique(channels)
    ensures FindId(channels, 0) == null
  {
  }

  /** findChannel among the given channels: the first one with the id. */
  method FindAmong(id: nat, channels: seq<Channel>) returns (r: Channel?)
    ensures r == FindId(channels, id)
  {
    var i := 0;
    while i < |channels|
      invariant 0 <= i <= |channels|
      invariant FindId(channels, id) == FindId(channels[i..], id)
    {
      if channels[i].id == id {
        return channels[i];
      }
      assert channels[i..][1..] == channels[i + 1..];
      i := i + 1;
    }
    return null;
  }

  class ChannelTree {
    var forest: Forest<Channel>

    ghost var channels: seq<Channel>  // in the order in which the tree lists them

    ghost predicate Valid()
      reads this, channels
    {
      channels == Listing(forest) && IsTree(channels)
    }

    constructor ()
      ensures Valid() && forest == Empty && NamesUnique(channels) && WellPlaced(forest, channels)
    {
      forest, channels := Empty, [];
    }

    method FindChannel(id: nat) returns (r: Channel?)
      requires Valid()
      ensures r == FindId(channels, id)
    {
      if id == 0 {
        NoChannelZero(channels);
        return null;
      }
      r := FindAmong(id, Listing(forest));
    }

    method FindChannelByName(name: string, layer: Channel?) returns (r: Channel?)
      requires Valid()
      ensures r == FindName(channels, name, layer)
    {
      var elms := Listing(forest);
      var i := 0;
      while i < |elms|
        invariant 0 <= i <= |elms|
        invariant FindName(elms, name, layer) == FindName(elms[i..], name, layer)
      {
        if elms[i].name == name && elms[i].parent == layer {
          return elms[i];
        }
        assert elms[i..][1..] == elms[i + 1..];
        i := i + 1;
      }
      return null;
    }

    method FindChannelByPath(path: string, unescape: string -> string) returns (current: Channel?)
      requires Valid()
      ensures current == ByPath(channels, path, unescape)
    {
      var entries := SplitPath(path, unescape);
      SplitCanonical(path, 0, 0);
      current := null;
      var i := 0;
      while i < |entries|
        invariant 0 <= i <= |entries|
        invariant Valid() && ByPath(channels, path, unescape) == Resolve(channels, entries[i..], current)
      {
        current := FindChannelByName(entries[i], current);
        if current == null {
          return;
        }
        assert entries[i..][1..] == entries[i + 1..];
        i := i + 1;
      }
    }

    /** The least positive id that no channel has. */
    method GenerateChannelId() returns (id: nat)
      requires Valid()
      ensures LeastUnused(channels, id)
    {
      id := 1;
      var found := FindChannel(id);
      while found != null
        invariant id >= 1 && found == FindId(channels, id)
        invariant forall k :: 1 <= k < id ==> FindId(channels, k) != null
        decreases |channels| + 1 - id
      {
        forall k | 1 <= k <= id ensures k in IdsOf(channels) {
          assert FindId(channels, k) != null;
        }
        Counted(IdsOf(channels), id);
        id := id + 1;
        found := FindChannel(id);
      }
    }

    // ---------------------------------------------------------------- creation

    /** The checks in front of the creation. */
    method MayCreate(parentId: nat, orderId: nat, name: string) returns (ok: bool, parent: Channel?, order: Channel?)
      requires Valid()
      ensures ok <==> !Refused(channels, parentId, orderId, name)
      ensures parent == FindId(channels, parentId)
      ensures ok ==> order == FindId(channels, orderId)
    {
      order := null;
      parent := FindChannel(parentId);
      if parent == null && parentId != 0 {
        return false, parent, order;
      }
      order := FindChannel(orderId);
      if order == null && orderId != 0 {
        return false, parent, order;
      }
      var sibling := FindChannelByName(name, parent);
      ok := sibling == null;
    }

    /** move_entry for an entry without children at the end of the root list: it leaves its place for the
        new one, or stays where it is. */
    method MoveEntry(channel: Channel, parent: Channel?, previous: Channel?, ghost before: Forest<Channel>)
      returns (ok: bool)
      requires before.Entry? && forest == Appended(before, channel) && channel !in Listing(before)
      requires parent != channel && previous != channel
      modifies `forest, channel`parent
      ensures ok <==> Accepts(before, ToOption(parent), ToOption(previous))
      ensures forest == Grown(before, ToOption(parent), ToOption(previous), channel)
      ensures channel.parent == if ok then parent else old(channel.parent)
    {
      AcceptsAppended(before, ToOption(parent), ToOption(previous), channel);
      CutAppended(before, channel);
      if parent != null && parent == previous {
        return false;
      }
      if previous != null {
        var reach := if parent == null then forest else At(forest, parent);
        if !HasEntry(reach, previous, 2) {
          return false;
        }
      }
      forest := Cut(forest, channel);
      channel.parent := parent;
      if previous != null {
        forest := InsertedBehind(forest, previous, channel);
      } else if parent != null {
        forest := InsertedBelow(forest, parent, channel);
      } else {
        forest := Entry(channel, Empty, forest);
      }
      return true;
    }

    /** insert_entry: the entry joins the end of the root list and is moved from there. Where that fails it
        is not taken back. */
    method InsertEntry(channel: Channel, parent: Channel?, previous: Channel?) returns (ok: bool)
      requires channels == Listing(forest) && channel !in channels && channel.parent == null
      requires (parent != null ==> parent in channels) && (previous != null ==> previous in channels)
      modifies `forest, channel`parent
      ensures ok <==> Accepts(old(forest), ToOption(parent), ToOption(previous))
      ensures forest == Grown(old(forest), ToOption(parent), ToOption(previous), channel)
      ensures channel.parent == if ok then parent else null
    {
      if forest.Empty? {
        forest := Entry(channel, Empty, Empty);
        return true;
      }
      ghost var before := forest;
      forest := Appended(forest, channel);
      ok := MoveEntry(channel, parent, previous, before);
    }

    /** Allocate a channel and insert it. */
    method Add(parent: Channel?, previous: Channel?, name: string) returns (channel: Channel, ok: bool)
      requires Valid() && Known(forest, parent, previous)
      modifies `forest
      ensures ok <==> Accepts(old(forest), ToOption(parent), ToOption(previous))
      ensures forest == GrownBy(old(forest), parent, previous, channel)
      ensures fresh(channel) && channel.name == name && channel.parent == Place(old(forest), parent, previous)
      ensures LeastUnused(channels, channel.id)
      ensures channel.depth == if channel.parent == null then 1 else channel.parent.depth + 1
    {
      var id := GenerateChannelId();
      ghost var place := Place(forest, parent, previous);
      channel := new Channel(id, name, if place == null then 1 else place.depth + 1);
      ok := InsertEntry(channel, parent, previous);
    }

    /** Add, with the listing. What was true of the channels listed so far still is. */
    method AddListed(parent: Channel?, previous: Channel?, name: string) returns (channel: Channel, ok: bool)
      requires Valid() && Known(forest, parent, previous)
      modifies this
      ensures Valid()
      ensures ok <==> Accepts(old(forest), ToOption(parent), ToOption(previous))
      ensures forest == GrownBy(old(forest), parent, previous, channel)
      ensures fresh(channel) && channel.name == name && channel.parent == Place(old(forest), parent, previous)
      ensures LeastUnused(old(channels), channel.id)
      ensures NamesUnique(old(channels)) <==> old(NamesUnique(channels))
      ensures WellPlaced(old(forest), old(channels)) <==> old(WellPlaced(forest, channels))
    {
      ghost var before, listed := forest, channels;
      ghost var unique, placed := NamesUnique(listed), WellPlaced(before, listed);
      channel, ok := Add(parent, previous, name);
      channels := Listing(forest);
      assert IsTree(listed) && NamesUnique(listed) == unique && WellPlaced(before, listed) == placed;
      GrownIsTree(before, parent, previous, channel);
    }

    /** Add, with what it does to the three invariants. */
    method Create(parent: Channel?, previous: Channel?, name: string) returns (channel: Channel, ok: bool)
      requires Valid() && Known(forest, parent, previous)
      modifies this
      ensures Valid()
      ensures ok <==> Accepts(old(forest), ToOption(parent), ToOption(previous))
      ensures forest == GrownBy(old(forest), parent, previous, channel)
      ensures fresh(channel) && channel.name == name && channel.parent == Place(old(forest), parent, previous)
      ensures LeastUnused(old(channels), channel.id)
      ensures old(NamesUnique(channels)) ==>
        (NamesUnique(channels) <==> FindName(old(channels), name, channel.parent) == null)
      ensures old(WellPlaced(forest, channels)) ==>
        (WellPlaced(forest, channels) <==> !ok || previous == null || previous.parent == parent)
    {
      ghost var before, listed := forest, channels;
      channel, ok := AddListed(parent, previous, name);
      if NamesUnique(listed) {
        GrownNamesIff(before, parent, previous, channel);
      }
      if WellPlaced(before, listed) {
        GrownWellPlacedIff(before, parent, previous, channel);
      }
    }

    /** Create a channel unless its parent or predecessor is missing or its parent has a child of that
        name. Where the tree does not accept the place, the call reports a failure, but the channel stays
        behind at the root. Sibling names stay unique exactly if that does not happen beside a root channel
        of the same name, and every channel stays listed below its parent exactly if the predecessor is a
        child of the same parent or the place is refused. */
    method CreateChannel(parentId: nat, orderId: nat, name: string) returns (r: Channel?, ghost made: Channel?)
      requires Valid()
      modifies this
      ensures Valid()
      ensures made == null <==> Refused(old(channels), parentId, orderId, name)
      ensures made == null ==> r == null && forest == old(forest)
      ensures made != null ==>
        && fresh(made) && made.name == name && LeastUnused(old(channels), made.id)
        && forest == GrownBy(old(forest), FindId(old(channels), parentId), FindId(old(channels), orderId), made)
        && made.parent == Place(old(forest), FindId(old(channels), parentId), FindId(old(channels), orderId))
        && r == (if Fits(old(forest), parentId, orderId) then made else null)
      ensures old(NamesUnique(channels)) ==>
        (NamesUnique(channels) <==>
          made == null || Fits(old(forest), parentId, orderId) || FindName(old(channels), name, null) == null)
      ensures old(WellPlaced(forest, channels)) ==>
        (WellPlaced(forest, channels) <==>
          made == null || !Fits(old(forest), parentId, orderId) || SameParent(old(channels), parentId, orderId))
    {
      var ok, parent, order := MayCreate(parentId, orderId, name);
      if !ok {
        return null, null;
      }
      var channel, accepted := Create(parent, order, name);
      made := channel;
      r := if accepted then channel else null;
    }

    // ---------------------------------------------------------------- the default channel

    /** Exactly the given channel becomes the default channel, and it loses its password flag. Among the
        others, those whose default flag changed lose theirs. */
    method SetDefaultChannel(ch: Channel?) returns (ok: bool)
      requires Valid()
      modifies channels`flagDefault, channels`flagPassword, Present(ch)`flagDefault, Present(ch)`flagPassword
      ensures ok <==> ch != null
      ensures ch == null ==> forall c :: c in channels ==>
        c.flagDefault == old(c.flagDefault) && c.flagPassword == old(c.flagPassword)
      ensures ch != null ==> ch.flagDefault == "1"
      ensures ch != null ==> forall c :: c in channels && c != ch ==>
        && c.flagDefault == "0"
        && c.flagPassword == Cleared(old(c.flagDefault), old(c.flagPassword))
      ensures ch != null && ch in channels ==> ch.flagPassword == "0"
    {
      if ch == null {
        return false;
      }
      var elms := Listing(forest);
      var i := 0;
      while i < |elms|
        invariant 0 <= i <= |elms|
        invariant forall j :: 0 <= j < i ==>
          && elms[j].flagDefault == "0"
          && elms[j].flagPassword == Cleared(old(elms[j].flagDefault), old(elms[j].flagPassword))
        invariant forall j :: i <= j < |elms| ==>
          && elms[j].flagDefault == old(elms[j].flagDefault)
          && elms[j].flagPassword == old(elms[j].flagPassword)
      {
        elms[i].Update(Default, false);
        i := i + 1;
      }
      ch.Update(Default, true);
      return true;
    }

    /** The first channel whose default flag parses as true. */
    method GetDefaultChannel() returns (r: Channel?)
      requires Valid()
      ensures r == null ==> forall i :: 0 <= i < |channels| ==> channels[i].flagDefault !in {"1", "true"}
      ensures r != null ==> (exists i :: FirstDefault(channels, i) && channels[i] == r)
    {
      var elms := Listing(forest);
      var i := 0;
      while i < |elms|
        invariant 0 <= i <= |elms|
        invariant forall j :: 0 <= j < i ==> !Parsed(elms[j].flagDefault)
      {
        if Parsed(elms[i].flagDefault) {
          assert FirstDefault(elms, i);
          return elms[i];
        }
        i := i + 1;
      }
      return null;
    }

    /** Setting a channel of the tree as default and asking for the default channel agree. */
    method DefaultChannelFound(ch: Channel) returns (r: Channel?)
      requires Valid() && ch in channels
      modifies channels`flagDefault, channels`flagPassword
      ensures r == ch
    {
      var ok := SetDefaultChannel(ch);
      r := GetDefaultChannel();
    }
  }

  ghost predicate FirstDefault(channels: seq<Channel>, i: int)
    reads channels
  {
    && 0 <= i < |channels| && channels[i].flagDefault in {"1", "true"}
    && forall j :: 0 <= j < i ==> channels[j].flagDefault !in {"1", "true"}
  }

  /** Parent and predecessor are listed where they are given. */
  ghost predicate Known(f: Forest<Channel>, parent: Channel?, previous: Channel?) {
    (parent != null ==> parent in Listing(f)) && (previous != null ==> previous in Listing(f))
  }

  /** The channel the tree makes the parent of a new one. */
  function Place(f: Forest<Channel>, parent: Channel?, previous: Channel?): Channel? {
    if Accepts(f, ToOption(parent), ToOption(previous)) then parent else null
  }

  function GrownBy(f: Forest<Channel>, parent: Channel?, previous: Channel?, c: Channel): Forest<Channel> {
    Grown(f, ToOption(parent), ToOption(previous), c)
  }

  lemma GrownIsTree(f: Forest<Channel>, parent: Channel?, previous: Channel?, c: Channel)
    requires IsTree(Listing(f)) && FindId(Listing(f), c.id) == null && c.id >= 1 && Known(f, parent, previous)
    requires c.parent == Place(f, parent, previous) && c.depth == if c.parent == null then 1 else c.parent.depth + 1
    ensures IsTree(Listing(GrownBy(f, parent, previous, c)))
  {
    var at := GrownPlace(f, ToOption(parent), ToOption(previous));
    GrownListing(f, ToOption(parent), ToOption(previous), c);
    InsertKeepsTree(Listing(f), at, c);
  }

  lemma GrownNamesIff(f: Forest<Channel>, parent: Channel?, previous: Channel?, c: Channel)
    requires NamesUnique(Listing(f)) && Known(f, parent, previous)
    ensures NamesUnique(Listing(GrownBy(f, parent, previous, c))) <==> FindName(Listing(f), c.name, c.parent) == null
  {
    var at := GrownPlace(f, ToOption(parent), ToOption(previous));
    GrownListing(f, ToOption(parent), ToOption(previous), c);
    InsertKeepsNamesIff(Listing(f), at, c);
  }

  lemma GrownWellPlacedIff(f: Forest<Channel>, parent: Channel?, previous: Channel?, c: Channel)
    requires WellPlaced(f, Listing(f)) && Known(f, parent, previous) && c !in Listing(f)
    requires c.parent == Place(f, parent, previous)
    ensures var after := GrownBy(f, parent, previous, c);
      WellPlaced(after, Listing(after)) <==>
      !Accepts(f, ToOption(parent), ToOption(previous)) || previous == null || previous.parent == parent
  {
    var m, after := ParentsOf(Listing(f)), GrownBy(f, parent, previous, c);
    OwnedGrown(f, m, parent, previous, c);
    var at := GrownPlace(f, ToOption(parent), ToOption(previous));
    GrownListing(f, ToOption(parent), ToOption(previous), c);
    ParentsOfInserted(Listing(f), at, c);
    assert ParentsOf(Listing(after)) == m[c := c.parent];
  }

  lemma ParentsOfInserted(channels: seq<Channel>, at: nat, c: Channel)
    requires at <= |channels|
    ensures ParentsOf(Inserted(channels, at, c)) == ParentsOf(channels)[c := c.parent]
  {
    assert channels == channels[..at] + channels[at..];
  }

  /** The tree accepts the place that the ids name. */
  predicate Fits(f: Forest<Channel>, parentId: nat, orderId: nat) {
    Accepts(f, ToOption(FindId(Listing(f), parentId)), ToOption(FindId(Listing(f), orderId)))
  }

  /** No channel fits behind its own parent. */
  lemma ParentIsNoPredecessor(f: Forest<Channel>, id: nat)
    requires FindId(Listing(f), id) != null
    ensures !Fits(f, id, id)
  {
  }

  lemma FirstId(id: nat)
    requires LeastUnused([], id)
    ensures id == 1
  {
    assert FindId([], 1) == null;
  }

  lemma GrownInFront(f: Forest<Channel>, c: Channel)
    ensures Fits(f, 0, 0) <== IdsUnique(Listing(f))
    ensures Listing(GrownBy(f, null, null, c)) == [c] + Listing(f)
  {
  }

  /** A tree with root channels "b" and "a", of which "a" was created first. */
  method TwoRootChannels() returns (tree: ChannelTree, a: Channel, b: Channel)
    ensures fresh(tree) && tree.Valid() && NamesUnique(tree.channels) && tree.channels == [b, a]
    ensures a.id == 1 && b.id != 1 && a.parent == null && b.parent == null && a.name == "a" && b.name == "b"
    ensures tree.forest == Entry(b, Empty, Entry(a, Empty, Empty)) && WellPlaced(tree.forest, tree.channels)
  {
    tree := new ChannelTree();
    var r, made := tree.CreateChannel(0, 0, "a");
    FirstId(made.id);
    GrownInFront(Empty, made);
    a := r;
    ghost var f := tree.forest;
    GrownInFront(f, a);
    r, made := tree.CreateChannel(0, 0, "b");
    GrownInFront(f, made);
    b := r;
  }

  lemma TwoFound(a: Channel, b: Channel)
    requires a.id != b.id && a.name == "a" && b.name == "b" && a.parent == null && b.parent == null
    ensures FindId([b, a], b.id) == b && FindId([b, a], a.id) == a
    ensures FindName([b, a], "b", null) == b && FindName([b, a], "b", a) == null
    ensures FindName([b, a], "x", b) == null && FindName([b, a], "c", null) == null
  {
    assert [b, a][1..] == [a] && [a][1..] == [];
  }

  /** The whole failure from an empty tree: the parent itself is given as the predecessor. The third call
      passes every check, reports a failure, and leaves two root channels of one name. */
  method RefusedPlaceClashes() returns (tree: ChannelTree, r: Channel?)
    ensures r == null && tree.Valid() && !NamesUnique(tree.channels)
  {
    var a, b;
    tree, a, b := TwoRootChannels();
    ghost var made;
    TwoFound(a, b);
    ParentIsNoPredecessor(tree.forest, 1);
    r, made := tree.CreateChannel(1, 1, "b");
  }

  /** A predecessor that is a sibling behind the parent: the call succeeds, and lists the new channel
      in the list of its parent, not among the children of its parent. */
  method AcceptedPlaceStrays() returns (tree: ChannelTree, a: Channel, b: Channel, r: Channel?)
    ensures tree.Valid() && r != null && r.parent == b && b.parent == null && a.parent == null
    ensures tree.channels == [b, a, r] && !WellPlaced(tree.forest, tree.channels)
  {
    tree, a, b := TwoRootChannels();
    ghost var made;
    TwoFound(a, b);
    SecondBehindFirst(b, a);
    r, made := tree.CreateChannel(b.id, a.id, "x");
    ghost var x: Channel := made;
    GrownBehindSecond(b, a, x);
  }

  /** A root channel created behind the first of two comes between them. */
  method CreatedBetween() returns (tree: ChannelTree, a: Channel, b: Channel, r: Channel?)
    ensures tree.Valid() && r != null && r.parent == null && r.name == "c" && tree.channels == [b, r, a]
  {
    tree, a, b := TwoRootChannels();
    ghost var made;
    TwoFound(a, b);
    NoChannelZero(tree.channels);
    GrownBetween(b, a, a);
    r, made := tree.CreateChannel(0, b.id, "c");
    ghost var x: Channel := made;
    GrownBetween(b, a, x);
  }

  /** The predecessor, if there is one, is a child of the parent. */
  ghost predicate SameParent(channels: seq<Channel>, parentId: nat, orderId: nat)
    reads channels
  {
    var previous := FindId(channels, orderId);
    previous == null || previous.parent == FindId(channels, parentId)
  }

  ghost predicate LeastUnused(channels: seq<Channel>, id: nat) {
    && id >= 1 && FindId(channels, id) == null
    && forall k :: 1 <= k < id ==> FindId(channels, k) != null
  }

  ghost predicate Refused(channels: seq<Channel>, parentId: nat, orderId: nat, name: string)
    reads channels
  {
    || (FindId(channels, parentId) == null && parentId != 0)
    || (FindId(channels, orderId) == null && orderId != 0)
    || FindName(channels, name, FindId(channels, parentId)) != null
  }
}
