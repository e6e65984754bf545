/** The tree that lists the channels: entries linked to their first child and to their next sibling, as
    TreeView.cpp searches and extends them (lines 57-67 and 149-281). Entries are taken as distinct. */
module TreeViews {
  import opened Options
  import opened Sequences

  datatype Forest<T> = Empty | Entry(entry: T, child: Forest<T>, next: Forest<T>)

  /** query_deep without a limit: every entry, each in front of its children, those in front of its siblings. */
  function Listing<T>(f: Forest<T>): seq<T> {
    match f
    case Empty => []
    case Entry(e, child, next) => [e] + Listing(child) + Listing(next)
  }

  /** linked: the place of an entry, with its children and the siblings behind it. */
  function At<T(==)>(f: Forest<T>, e: T): (r: Forest<T>)
    ensures r.Entry? ==> r.entry == e
    ensures r.Entry? <==> e in Listing(f)
  {
    match f
    case Empty => Empty
    case Entry(x, child, next) =>
      if x == e then f
      else if At(child, e).Entry? then At(child, e)
      else At(next, e)
  }

  /** has_entry_: the entry is in the list or at most `deep - 1` levels below it. */
  predicate HasEntry<T(==)>(f: Forest<T>, e: T, deep: nat) {
    match f
    case Empty => false
    case Entry(x, child, next) => deep != 0 && (x == e || HasEntry(child, e, deep - 1) || HasEntry(next, e, deep))
  }

  /** A place for a new entry is accepted if the tree is empty, without a predecessor, and with one that is
      not the parent itself but in its reach: at most one level below the parent's place or a sibling behind
      it; without a parent, at most one level below the root list. */
  predicate Accepts<T(==)>(f: Forest<T>, parent: Option<T>, previous: Option<T>) {
    || f.Empty?
    || previous.None?
    || (parent != previous && HasEntry(if parent.Some? then At(f, parent.value) else f, previous.value, 2))
  }

  function Appended<T>(f: Forest<T>, e: T): Forest<T> {
    match f
    case Empty => Entry(e, Empty, Empty)
    case Entry(x, child, next) => Entry(x, child, Appended(next, e))
  }

  /** cut_entry: the siblings behind the entry take its place. */
  function Cut<T(==)>(f: Forest<T>, e: T): Forest<T> {
    match f
    case Empty => Empty
    case Entry(x, child, next) =>
      if x == e then next
      else if e in Listing(child) then Entry(x, Cut(child, e), next)
      else Entry(x, child, Cut(next, e))
  }

  function InsertedBehind<T(==)>(f: Forest<T>, previous: T, e: T): Forest<T> {
    match f
    case Empty => Empty
    case Entry(x, child, next) =>
      if x == previous then Entry(x, child, Entry(e, Empty, next))
      else if previous in Listing(child) then Entry(x, InsertedBehind(child, previous, e), next)
      else Entry(x, child, InsertedBehind(next, previous, e))
  }

  function InsertedBelow<T(==)>(f: Forest<T>, parent: T, e: T): Forest<T> {
    match f
    case Empty => Empty
    case Entry(x, child, next) =>
      if x == parent then Entry(x, Entry(e, Empty, child), next)
      else if parent in Listing(child) then Entry(x, InsertedBelow(child, parent, e), next)
      else Entry(x, child, InsertedBelow(next, parent, e))
  }

  /** Where an accepted entry goes: behind its predecessor, wherever that is, or in front of the others. */
  function Placed<T(==)>(f: Forest<T>, parent: Option<T>, previous: Option<T>, e: T): Forest<T> {
    if previous.Some? then InsertedBehind(f, previous.value, e)
    else if parent.Some? then InsertedBelow(f, parent.value, e)
    else Entry(e, Empty, f)
  }

  /** insert_entry: a refused entry stays at the end of the root list. */
  function Grown<T(==)>(f: Forest<T>, parent: Option<T>, previous: Option<T>, e: T): Forest<T> {
    if f.Empty? then Entry(e, Empty, Empty)
    else if Accepts(f, parent, previous) then Placed(f, parent, previous, e)
    else Appended(f, e)
  }

  // ------------------------------------------------------------------ levels

  /** The entries of the list itself. */
  function Tops<T>(f: Forest<T>): seq<T> {
    match f
    case Empty => []
    case Entry(e, child, next) => [e] + Tops(next)
  }

  /** Their children. */
  function Children<T>(f: Forest<T>): seq<T> {
    match f
    case Empty => []
    case Entry(e, child, next) => Tops(child) + Children(next)
  }

  /** Everything below them. */
  function Below<T>(f: Forest<T>): seq<T> {
    match f
    case Empty => []
    case Entry(e, child, next) => Listing(child) + Below(next)
  }

  /** Every entry is listed once. */
  ghost predicate Once<T>(f: Forest<T>) {
    match f
    case Empty => true
    case Entry(c, child, next) =>
      && c !in Listing(child) && c !in Listing(next) && (forall x :: x in Listing(child) ==> x !in Listing(next))
      && Once(child) && Once(next)
  }

  lemma {:induction false} HasOneLevel<T>(f: Forest<T>, e: T)
    ensures HasEntry(f, e, 1) <==> e in Tops(f)
  {
    match f
    case Empty =>
    case Entry(x, child, next) =>
      assert !HasEntry(child, e, 0);
      HasOneLevel(next, e);
  }

  lemma {:induction false} HasTwoLevels<T>(f: Forest<T>, e: T)
    ensures HasEntry(f, e, 2) <==> e in Tops(f) || e in Children(f)
  {
    match f
    case Empty =>
    case Entry(x, child, next) =>
      HasOneLevel(child, e);
      HasTwoLevels(next, e);
  }

  /** A predecessor that is not the parent is accepted exactly if it is a sibling behind the parent, or a child of
      the parent or of such a sibling; without a parent, exactly if it is a root entry or a child of one. */
  lemma AcceptsIff<T>(f: Forest<T>, parent: Option<T>, previous: T)
    requires f.Entry? && (parent.Some? ==> parent.value in Listing(f))
    ensures Accepts(f, parent, Some(previous)) <==>
      if parent.None? then previous in Tops(f) || previous in Children(f)
      else
        var p := At(f, parent.value);
        previous != parent.value &&
        (previous in Tops(p.next) || previous in Tops(p.child) || previous in Children(p.next))
  {
    HasTwoLevels(if parent.Some? then At(f, parent.value) else f, previous);
  }

  lemma {:induction false} TopsListed<T>(f: Forest<T>, e: T)
    ensures e in Tops(f) || e in Children(f) || e in Below(f) ==> e in Listing(f)
    ensures e in Children(f) ==> e in Below(f)
  {
    match f
    case Empty =>
    case Entry(x, child, next) =>
      TopsListed(child, e);
      TopsListed(next, e);
  }

  lemma {:induction false} TopsNotBelow<T>(f: Forest<T>, e: T)
    requires Once(f) && e in Below(f)
    ensures e !in Tops(f)
  {
    match f
    case Entry(x, child, next) =>
      TopsListed(next, e);
      if e in Below(next) {
        TopsNotBelow(next, e);
      }
  }

  lemma {:induction false} OnceAt<T>(f: Forest<T>, e: T)
    requires Once(f) && e in Listing(f)
    ensures Once(At(f, e))
  {
    match f
    case Entry(x, child, next) =>
      if x != e {
        if e in Listing(child) {
          OnceAt(child, e);
        } else {
          OnceAt(next, e);
        }
      }
  }

  /** No grandchild of the parent, or anything below one, is accepted as the predecessor. */
  lemma GrandchildRefused<T>(f: Forest<T>, parent: T, previous: T)
    requires Once(f) && parent in Listing(f) && previous in Below(At(f, parent).child)
    ensures !Accepts(f, Some(parent), Some(previous))
  {
    var p := At(f, parent);
    OnceAt(f, parent);
    AcceptsIff(f, Some(parent), previous);
    TopsNotBelow(p.child, previous);
    TopsListed(p.child, previous);
    TopsListed(p.next, previous);
  }

  // ------------------------------------------------------------------ appending first, then moving

  lemma {:induction false} AppendedListing<T>(f: Forest<T>, e: T)
    ensures Listing(Appended(f, e)) == Listing(f) + [e]
  {
    match f
    case Empty =>
    case Entry(x, child, next) =>
      AppendedListing(next, e);
      assert [x] + Listing(child) + (Listing(next) + [e]) == [x] + Listing(child) + Listing(next) + [e];
  }

  /** Cutting the appended entry out again restores the tree. */
  lemma {:induction false} CutAppended<T>(f: Forest<T>, e: T)
    requires e !in Listing(f)
    ensures Cut(Appended(f, e), e) == f
  {
    match f
    case Empty =>
    case Entry(x, child, next) => CutAppended(next, e);
  }

  lemma {:induction false} HasAppended<T>(f: Forest<T>, e: T, other: T, deep: nat)
    requires other != e
    ensures HasEntry(Appended(f, e), other, deep) == HasEntry(f, other, deep)
  {
    match f
    case Empty =>
    case Entry(x, child, next) => HasAppended(next, e, other, deep);
  }

  lemma {:induction false} HasAtAppended<T>(f: Forest<T>, e: T, parent: T, other: T, deep: nat)
    requires other != e && parent != e
    ensures HasEntry(At(Appended(f, e), parent), other, deep) == HasEntry(At(f, parent), other, deep)
  {
    match f
    case Empty =>
    case Entry(x, child, next) =>
      HasAppended(f, e, other, deep);
      HasAtAppended(next, e, parent, other, deep);
  }

  /** The test is the same with the new entry at the end of the root list, where insert_entry puts it first. */
  lemma AcceptsAppended<T>(f: Forest<T>, parent: Option<T>, previous: Option<T>, e: T)
    requires parent != Some(e) && previous != Some(e) && f.Entry?
    ensures Accepts(Appended(f, e), parent, previous) == Accepts(f, parent, previous)
  {
    if previous.Some? {
      HasAppended(f, e, previous.value, 2);
      if parent.Some? {
        HasAtAppended(f, e, parent.value, previous.value, 2);
      }
    }
  }

  // ------------------------------------------------------------------ the new listing

  /** `r` is `s` with one more element, at position `at`. */
  ghost predicate WithOneMore<T>(r: seq<T>, s: seq<T>, at: nat, e: T) {
    at <= |s| && r == s[..at] + [e] + s[at..]
  }

  lemma Embedded<T>(before: seq<T>, r: seq<T>, s: seq<T>, behind: seq<T>, at: nat, e: T)
    requires WithOneMore(r, s, at, e)
    ensures WithOneMore(before + r + behind, before + s + behind, |before| + at, e)
  {
    var whole := before + s + behind;
    assert whole[..|before| + at] == before + s[..at];
    assert whole[|before| + at..] == s[at..] + behind;
  }

  lemma Listed<T>(x: T, child: Forest<T>, next: Forest<T>, e: T)
    ensures e in Listing(Entry(x, child, next)) <==> e == x || e in Listing(child) || e in Listing(next)
  {
  }

  lemma BehindFirst<T>(x: T, child: Forest<T>, next: Forest<T>, e: T)
    ensures WithOneMore(Listing(Entry(x, child, Entry(e, Empty, next))), Listing(Entry(x, child, next)),
      1 + |Listing(child)|, e)
  {
    var front, rest, s := [x] + Listing(child), Listing(next), Listing(Entry(x, child, next));
    assert Listing(Entry(e, Empty, next)) == [e] + rest;
    assert front + ([e] + rest) == front + [e] + rest;
    assert s == front + rest && s[..|front|] == front && s[|front|..] == rest;
  }

  /** Where an element of the listing of an entry comes from. */
  lemma ListedAt<T>(x: T, child: Forest<T>, next: Forest<T>, e: T)
    requires e in Listing(Entry(x, child, next))
    ensures PositionOf(Listing(Entry(x, child, next)), e) ==
      if e == x then 0
      else if e in Listing(child) then 1 + PositionOf(Listing(child), e)
      else 1 + |Listing(child)| + (if e in Listing(next) then PositionOf(Listing(next), e) else 0)
  {
    var a, b := Listing(child), Listing(next);
    assert [x] + a + b == [x] + (a + b) && ([x] + a + b)[1..] == a + b;
    if e != x {
      PositionInSum(a, b, e);
    }
  }

  lemma {:induction false} PositionInSum<T>(a: seq<T>, b: seq<T>, e: T)
    requires e in a + b
    ensures PositionOf(a + b, e) == if e in a then PositionOf(a, e) else |a| + PositionOf(b, e)
  {
    if a == [] {
      assert a + b == b;
    } else if a[0] != e {
      assert (a + b)[1..] == a[1..] + b;
      PositionInSum(a[1..], b, e);
    }
  }

  /** The place directly behind an entry and everything below it. */
  function PlaceBehind<T(==)>(f: Forest<T>, previous: T): nat
    requires previous in Listing(f)
  {
    PositionOf(Listing(f), previous) + 1 + |Listing(At(f, previous).child)|
  }

  lemma PlaceBehindIn<T>(x: T, child: Forest<T>, next: Forest<T>, previous: T)
    requires previous in Listing(Entry(x, child, next))
    ensures PlaceBehind(Entry(x, child, next), previous) ==
      if previous == x then 1 + |Listing(child)|
      else if previous in Listing(child) then 1 + PlaceBehind(child, previous)
      else 1 + |Listing(child)| + (if previous in Listing(next) then PlaceBehind(next, previous) else 0)
  {
    Listed(x, child, next, previous);
    ListedAt(x, child, next, previous);
  }

  /** The listing behind an insertion has the new entry directly behind the predecessor and what is below it. */
  ghost predicate ListedBehind<T>(f: Forest<T>, previous: T, e: T)
    requires previous in Listing(f)
  {
    WithOneMore(Listing(InsertedBehind(f, previous, e)), Listing(f), PlaceBehind(f, previous), e)
  }

  lemma BehindInChild<T>(x: T, child: Forest<T>, next: Forest<T>, previous: T, e: T)
    requires previous != x && previous in Listing(child) && ListedBehind(child, previous, e)
    requires previous in Listing(Entry(x, child, next))
    ensures ListedBehind(Entry(x, child, next), previous, e)
  {
    PlaceBehindIn(x, child, next, previous);
    InChild(x, child, InsertedBehind(child, previous, e), next, PlaceBehind(child, previous), e);
  }

  lemma BehindInNextIs<T>(x: T, child: Forest<T>, next: Forest<T>, previous: T, e: T)
    requires previous != x && previous !in Listing(child) && previous in Listing(next)
    ensures previous in Listing(Entry(x, child, next))
    ensures InsertedBehind(Entry(x, child, next), previous, e) == Entry(x, child, InsertedBehind(next, previous, e))
    ensures PlaceBehind(Entry(x, child, next), previous) == 1 + |Listing(child)| + PlaceBehind(next, previous)
  {
    Listed(x, child, next, previous);
    PlaceBehindIn(x, child, next, previous);
  }

  lemma BehindInNext<T>(x: T, child: Forest<T>, next: Forest<T>, previous: T, e: T)
    requires previous != x && previous !in Listing(child) && previous in Listing(next)
    requires ListedBehind(next, previous, e)
    requires previous in Listing(Entry(x, child, next))
    ensures ListedBehind(Entry(x, child, next), previous, e)
  {
    BehindInNextIs(x, child, next, previous, e);
    InNext(x, child, next, InsertedBehind(next, previous, e), PlaceBehind(next, previous), e);
  }

  lemma {:induction false} BehindListing<T>(f: Forest<T>, previous: T, e: T)
    requires previous in Listing(f)
    ensures ListedBehind(f, previous, e)
  {
    match f
    case Entry(x, child, next) =>
      Listed(x, child, next, previous);
      if x == previous {
        PlaceBehindIn(x, child, next, previous);
        BehindFirst(x, child, next, e);
      } else if previous in Listing(child) {
        BehindListing(child, previous, e);
        BehindInChild(x, child, next, previous, e);
      } else {
        BehindListing(next, previous, e);
        BehindInNext(x, child, next, previous, e);
      }
  }

  /** An insertion among the children, and one among the siblings. */
  lemma InChild<T>(x: T, child: Forest<T>, child': Forest<T>, next: Forest<T>, i: nat, e: T)
    requires WithOneMore(Listing(child'), Listing(child), i, e)
    ensures WithOneMore(Listing(Entry(x, child', next)), Listing(Entry(x, child, next)), 1 + i, e)
  {
    ChildListing(x, Listing(child'), Listing(child), next, i, e);
  }

  lemma InNext<T>(x: T, child: Forest<T>, next: Forest<T>, next': Forest<T>, i: nat, e: T)
    requires WithOneMore(Listing(next'), Listing(next), i, e)
    ensures WithOneMore(Listing(Entry(x, child, next')), Listing(Entry(x, child, next)), 1 + |Listing(child)| + i, e)
  {
    NextListing(x, child, Listing(next'), Listing(next), i, e);
  }

  lemma ChildListing<T>(x: T, r: seq<T>, s: seq<T>, next: Forest<T>, at: nat, e: T)
    requires WithOneMore(r, s, at, e)
    ensures WithOneMore([x] + r + Listing(next), [x] + s + Listing(next), 1 + at, e)
  {
    Embedded([x], r, s, Listing(next), at, e);
  }

  lemma NextListing<T>(x: T, child: Forest<T>, r: seq<T>, s: seq<T>, at: nat, e: T)
    requires WithOneMore(r, s, at, e)
    ensures WithOneMore([x] + Listing(child) + r, [x] + Listing(child) + s, 1 + |Listing(child)| + at, e)
  {
    var front := [x] + Listing(child);
    Embedded(front, r, s, [], at, e);
    assert front + r + [] == front + r && front + s + [] == front + s;
  }

  lemma FirstListing<T>(f: Forest<T>, e: T)
    ensures WithOneMore(Listing(Entry(e, Empty, f)), Listing(f), 0, e)
  {
    assert Listing(Entry(e, Empty, f)) == [e] + Listing(f);
  }

  /** The listing behind an insertion has the new entry directly behind the parent. */
  ghost predicate ListedBelow<T>(f: Forest<T>, parent: T, e: T)
    requires parent in Listing(f)
  {
    WithOneMore(Listing(InsertedBelow(f, parent, e)), Listing(f), PositionOf(Listing(f), parent) + 1, e)
  }

  lemma BelowInChild<T>(x: T, child: Forest<T>, next: Forest<T>, parent: T, e: T)
    requires parent != x && parent in Listing(child) && ListedBelow(child, parent, e)
    requires parent in Listing(Entry(x, child, next))
    ensures ListedBelow(Entry(x, child, next), parent, e)
  {
    ListedAt(x, child, next, parent);
    InChild(x, child, InsertedBelow(child, parent, e), next, PositionOf(Listing(child), parent) + 1, e);
  }

  lemma BelowInNext<T>(x: T, child: Forest<T>, next: Forest<T>, parent: T, e: T)
    requires parent != x && parent !in Listing(child) && parent in Listing(next) && ListedBelow(next, parent, e)
    requires parent in Listing(Entry(x, child, next))
    ensures ListedBelow(Entry(x, child, next), parent, e)
  {
    ListedAt(x, child, next, parent);
    InNext(x, child, next, InsertedBelow(next, parent, e), PositionOf(Listing(next), parent) + 1, e);
  }

  lemma {:induction false} BelowListing<T>(f: Forest<T>, parent: T, e: T)
    requires parent in Listing(f)
    ensures ListedBelow(f, parent, e)
  {
    match f
    case Entry(x, child, next) =>
      Listed(x, child, next, parent);
      if x == parent {
        ListedAt(x, child, next, parent);
        FirstListing(child, e);
        InChild(x, child, Entry(e, Empty, child), next, 0, e);
      } else if parent in Listing(child) {
        BelowListing(child, parent, e);
        BelowInChild(x, child, next, parent, e);
      } else {
        BelowListing(next, parent, e);
        BelowInNext(x, child, next, parent, e);
      }
  }

  /** The place of a new entry in the listing: directly behind its predecessor and what is below that, directly
      behind its parent, in front of all, or, where it is refused, behind all. */
  function GrownPlace<T(==)>(f: Forest<T>, parent: Option<T>, previous: Option<T>): nat
    requires parent.Some? ==> parent.value in Listing(f)
    requires previous.Some? ==> previous.value in Listing(f)
  {
    if !Accepts(f, parent, previous) then |Listing(f)|
    else if previous.Some? then PlaceBehind(f, previous.value)
    else if parent.Some? then PositionOf(Listing(f), parent.value) + 1
    else 0
  }

  /** The listing of the grown tree has exactly the new entry more, at that place. */
  lemma GrownListing<T>(f: Forest<T>, parent: Option<T>, previous: Option<T>, e: T)
    requires parent.Some? ==> parent.value in Listing(f)
    requires previous.Some? ==> previous.value in Listing(f)
    ensures WithOneMore(Listing(Grown(f, parent, previous, e)), Listing(f), GrownPlace(f, parent, previous), e)
  {
    if f.Empty? {
      assert Listing(Entry(e, Empty, Empty)) == [e];
    } else if !Accepts(f, parent, previous) {
      AppendedListing(f, e);
    } else if previous.Some? {
      BehindListing(f, previous.value, e);
    } else if parent.Some? {
      BelowListing(f, parent.value, e);
    } else {
      FirstListing(f, e);
    }
  }

  // ------------------------------------------------------------------ the neighbours of the new entry

  lemma {:induction false} BehindAt<T>(f: Forest<T>, previous: T, e: T)
    requires previous in Listing(f)
    ensures At(InsertedBehind(f, previous, e), previous) ==
      Entry(previous, At(f, previous).child, Entry(e, Empty, At(f, previous).next))
  {
    match f
    case Entry(x, child, next) =>
      Listed(x, child, next, previous);
      if x != previous {
        if previous in Listing(child) {
          BehindAt(child, previous, e);
        } else {
          BehindAt(next, previous, e);
        }
      }
  }

  lemma {:induction false} BelowAt<T>(f: Forest<T>, parent: T, e: T)
    requires parent in Listing(f)
    ensures At(InsertedBelow(f, parent, e), parent) ==
      Entry(parent, Entry(e, Empty, At(f, parent).child), At(f, parent).next)
  {
    match f
    case Entry(x, child, next) =>
      Listed(x, child, next, parent);
      if x != parent {
        if parent in Listing(child) {
          BelowAt(child, parent, e);
        } else {
          BelowAt(next, parent, e);
        }
      }
  }

  lemma {:induction false} CutBehind<T>(f: Forest<T>, previous: T, e: T)
    requires previous in Listing(f) && e !in Listing(f)
    ensures e in Listing(InsertedBehind(f, previous, e)) && Cut(InsertedBehind(f, previous, e), e) == f
  {
    BehindListing(f, previous, e);
    match f
    case Entry(x, child, next) =>
      Listed(x, child, next, previous);
      Listed(x, child, next, e);
      if x != previous {
        if previous in Listing(child) {
          CutBehind(child, previous, e);
        } else {
          CutBehind(next, previous, e);
        }
      }
  }

  lemma {:induction false} CutBelow<T>(f: Forest<T>, parent: T, e: T)
    requires parent in Listing(f) && e !in Listing(f)
    ensures e in Listing(InsertedBelow(f, parent, e)) && Cut(InsertedBelow(f, parent, e), e) == f
  {
    BelowListing(f, parent, e);
    match f
    case Entry(x, child, next) =>
      Listed(x, child, next, parent);
      Listed(x, child, next, e);
      if x != parent {
        if parent in Listing(child) {
          CutBelow(child, parent, e);
        } else {
          CutBelow(next, parent, e);
        }
      }
  }

  lemma {:induction false} AppendedTops<T>(f: Forest<T>, e: T)
    ensures Tops(Appended(f, e)) == Tops(f) + [e]
  {
    match f
    case Empty =>
    case Entry(x, child, next) => AppendedTops(next, e);
  }

  /** Where insert_entry puts an entry: behind its predecessor with the siblings of that behind it, as the first
      child of its parent, in front of the root list, or, where the place is refused, behind the root list. Taking
      it out again gives the tree as it was. */
  lemma GrownWhere<T>(f: Forest<T>, parent: Option<T>, previous: Option<T>, e: T)
    requires parent.Some? ==> parent.value in Listing(f)
    requires previous.Some? ==> previous.value in Listing(f)
    requires e !in Listing(f)
    ensures var g := Grown(f, parent, previous, e);
      && Cut(g, e) == f
      && (if !Accepts(f, parent, previous) then Tops(g) == Tops(f) + [e]
          else if previous.Some? then
            var p := At(f, previous.value);
            At(g, previous.value) == Entry(previous.value, p.child, Entry(e, Empty, p.next))
          else if parent.Some? then
            var p := At(f, parent.value);
            At(g, parent.value) == Entry(parent.value, Entry(e, Empty, p.child), p.next)
          else g == Entry(e, Empty, f))
  {
    if f.Empty? {
    } else if !Accepts(f, parent, previous) {
      CutAppended(f, e);
      AppendedTops(f, e);
    } else if previous.Some? {
      BehindAt(f, previous.value, e);
      CutBehind(f, previous.value, e);
    } else if parent.Some? {
      BelowAt(f, parent.value, e);
      CutBelow(f, parent.value, e);
    }
  }

  /** A sibling behind the parent is accepted as the predecessor. */
  lemma SecondBehindFirst<T>(x: T, y: T)
    requires x != y
    ensures var f := Entry(x, Empty, Entry(y, Empty, Empty));
      Accepts(f, Some(x), Some(y)) && Listing(f) == [x, y]
  {
    assert At(Entry(x, Empty, Entry(y, Empty, Empty)), x).next == Entry(y, Empty, Empty);
    assert HasEntry(Entry(y, Empty, Empty), y, 2);
  }

  lemma GrownBehindSecond<T>(x: T, y: T, e: T)
    requires x != y
    ensures var f := Entry(x, Empty, Entry(y, Empty, Empty));
      && Grown(f, Some(x), Some(y), e) == Entry(x, Empty, Entry(y, Empty, Entry(e, Empty, Empty)))
      && Listing(Grown(f, Some(x), Some(y), e)) == [x, y, e]
  {
    SecondBehindFirst(x, y);
    var last := Entry(e, Empty, Empty);
    assert InsertedBehind(Entry(y, Empty, Empty), y, e) == Entry(y, Empty, last);
    Leaf(e, Empty);
    Leaf(y, last);
    Leaf(x, Entry(y, Empty, last));
  }

  lemma Leaf<T>(x: T, next: Forest<T>)
    ensures Listing(Entry(x, Empty, next)) == [x] + Listing(next)
  {
  }

  /** A new entry behind the first of two. */
  lemma GrownBetween<T>(x: T, y: T, e: T)
    requires x != y
    ensures var f := Entry(x, Empty, Entry(y, Empty, Empty));
      && Accepts(f, None, Some(x))
      && Listing(Grown(f, None, Some(x), e)) == [x, e, y]
  {
    var last := Entry(y, Empty, Empty);
    Leaf(y, Empty);
    Leaf(e, last);
    Leaf(x, Entry(e, Empty, last));
  }
}
