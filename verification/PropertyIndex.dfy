/** The property list: its order validator, the slices of the types and constant-time lookup
    (PropertyDefinitions.cpp, lines 19-71; Properties.h, lines 586-698). */
module PropertyIndex {
  import opened Options

  const PROP_TYPE_MAX: nat := 8
  const WORD: nat := 0x1_0000_0000_0000_0000

  datatype Description = Description(kind: nat, index: nat, name: string)

  /** The compiled-in list: not empty, of known types. */
  ghost predicate Typed(list: seq<Description>) {
    && list != [] && |list| < WORD
    && forall i :: 0 <= i < |list| ==> list[i].kind < PROP_TYPE_MAX
  }

  // ------------------------------------------------------------------ what order means

  /** The first entry of a type, or the length of the list. */
  function First(list: seq<Description>, kind: nat): (f: nat)
    ensures f <= |list| && (f < |list| ==> list[f].kind == kind)
    ensures forall i :: 0 <= i < f ==> list[i].kind != kind
  {
    if list == [] then 0
    else if list[0].kind == kind then 0
    else
      assert forall i :: 1 <= i < |list| ==> list[i] == list[1..][i - 1];
      1 + First(list[1..], kind)
  }

  /** Among the first `n` entries, those of one type stand together and are numbered from 0. */
  ghost predicate OrderedTo(list: seq<Description>, n: nat)
    requires n <= |list|
  {
    && (forall i, j, k :: 0 <= i <= j <= k < n && list[i].kind == list[k].kind ==> list[j].kind == list[i].kind)
    && (forall i :: 0 <= i < n ==> list[i].index == i - First(list, list[i].kind))
  }

  ghost predicate Ordered(list: seq<Description>) {
    OrderedTo(list, |list|)
  }

  /** The types among the first `n` entries. */
  function KindsIn(list: seq<Description>, n: nat): (r: set<nat>)
    requires n <= |list|
  {
    if n == 0 then {} else KindsIn(list, n - 1) + {list[n - 1].kind}
  }

  lemma {:induction false} InKindsIff(list: seq<Description>, n: nat, kind: nat)
    requires n <= |list|
    ensures kind in KindsIn(list, n) <==> First(list, kind) < n
  {
    if n > 0 {
      InKindsIff(list, n - 1, kind);
    }
  }

  /** What the validator asks of an entry behind an ordered prefix. */
  ghost predicate Continues(list: seq<Description>, n: nat)
    requires 1 <= n < |list|
  {
    var last := list[n - 1];
    if list[n].kind == last.kind then list[n].index == last.index + 1
    else list[n].index == 0 && list[n].kind !in KindsIn(list, n)
  }

  lemma OrderedStep(list: seq<Description>, n: nat)
    requires 1 <= n < |list| && OrderedTo(list, n)
    ensures OrderedTo(list, n + 1) <==> Continues(list, n)
  {
    InKindsIff(list, n, list[n].kind);
    if Continues(list, n) {
      ContinuesOrdered(list, n);
    }
    if OrderedTo(list, n + 1) && list[n - 1].kind != list[n].kind {
      assert First(list, list[n].kind) == n;
    }
  }

  lemma ContinuesOrdered(list: seq<Description>, n: nat)
    requires 1 <= n < |list| && OrderedTo(list, n) && Continues(list, n)
    ensures OrderedTo(list, n + 1)
  {
    forall i, j | 0 <= i <= j <= n && list[i].kind == list[n].kind ensures list[j].kind == list[i].kind {
      StandsTogether(list, n, i, j);
    }
    InKindsIff(list, n, list[n].kind);
    InKindsIff(list, n, list[n - 1].kind);
    assert list[n].index == n - First(list, list[n].kind);
  }

  lemma StandsTogether(list: seq<Description>, n: nat, i: nat, j: nat)
    requires 1 <= n < |list| && OrderedTo(list, n) && Continues(list, n)
    requires i <= j <= n && list[i].kind == list[n].kind
    ensures list[j].kind == list[i].kind
  {
    if j < n {
      InKindsIff(list, n, list[n].kind);
      var last := n - 1;
      assert list[last].kind == list[n].kind;
    }
  }

  /** The first `n` entries pass the validator one by one. */
  ghost predicate Accepted(list: seq<Description>, n: nat)
    requires n <= |list|
  {
    if n == 0 then true
    else if n == 1 then list[0].index == 0
    else Accepted(list, n - 1) && Continues(list, n - 1)
  }

  lemma {:induction false} AcceptedIffOrdered(list: seq<Description>, n: nat)
    requires n <= |list|
    ensures Accepted(list, n) <==> OrderedTo(list, n)
  {
    if n > 1 {
      AcceptedIffOrdered(list, n - 1);
      if Accepted(list, n - 1) {
        OrderedStep(list, n - 1);
      }
    }
  }

  lemma {:induction false} AcceptedPrefix(list: seq<Description>, n: nat, m: nat)
    requires n <= m <= |list| && Accepted(list, m)
    ensures Accepted(list, n)
  {
    if n < m {
      AcceptedPrefix(list, n, m - 1);
    }
  }

  /** Where the validator stops, the list is not ordered. */
  lemma Refused(list: seq<Description>, n: nat)
    requires n <= |list| && !Accepted(list, n)
    ensures !Ordered(list)
  {
    AcceptedIffOrdered(list, |list|);
    if Accepted(list, |list|) {
      AcceptedPrefix(list, n, |list|);
    }
  }

  // ------------------------------------------------------------------ the validator

  /** property_list_ordered accepts exactly the ordered lists. */
  method PropertyListOrdered(list: seq<Description>) returns (ok: bool)
    requires Typed(list)
    ensures ok <==> Ordered(list)
  {
    var visited := new bool[PROP_TYPE_MAX](_ => false);
    var current := list[0].kind;
    visited[current] := true;
    var last := list[0].index;
    if last != 0 {
      Refused(list, 1);
      return false;
    }
    var index := 1;
    while index < |list|
      invariant 1 <= index <= |list| && Accepted(list, index)
      invariant current == list[index - 1].kind && last == list[index - 1].index
      invariant forall t :: 0 <= t < PROP_TYPE_MAX ==> (visited[t] <==> t in KindsIn(list, index))
    {
      var entry := list[index];
      if !Accepted(list, index + 1) {
        Refused(list, index + 1);
      }
      if last + 1 != entry.index {
        if current == entry.kind {
          return false;
        }
        if visited[entry.kind] {
          return false;
        }
        if entry.index != 0 {
          return false;
        }
        current := entry.kind;
        visited[current] := true;
        last := 0;
      } else if current != entry.kind {
        return false;
      } else {
        last := last + 1;
      }
      index := index + 1;
    }
    AcceptedIffOrdered(list, |list|);
    return true;
  }

  // ------------------------------------------------------------------ slices

  datatype ListInfo = ListInfo(begin: seq<nat>, end: seq<nat>)

  /** Begin and end of every type cut out exactly its entries. */
  ghost predicate Slices(list: seq<Description>, info: ListInfo) {
    && |info.begin| == PROP_TYPE_MAX && |info.end| == PROP_TYPE_MAX
    && forall t :: 0 <= t < PROP_TYPE_MAX ==> Slice(list, t, info.begin[t], info.end[t])
  }

  ghost predicate Slice(list: seq<Description>, kind: nat, begin: nat, end: nat) {
    && begin == First(list, kind) && begin <= end <= |list|
    && forall i :: 0 <= i < |list| ==> (begin <= i < end <==> list[i].kind == kind)
  }

  method PropertyTypeBegin(list: seq<Description>, kind: nat) returns (begin: nat)
    ensures begin == First(list, kind)
  {
    begin := 0;
    while begin < |list|
      invariant begin <= First(list, kind)
    {
      if list[begin].kind == kind {
        return;
      }
      begin := begin + 1;
    }
  }

  method PropertyTypeEnd(list: seq<Description>, begin: nat, kind: nat) returns (end: nat)
    requires list != [] && begin <= |list|
    ensures RunEnds(list, kind, begin, end)
    ensures Ordered(list) && begin == First(list, kind) ==> Slice(list, kind, begin, end)
  {
    var index := begin;
    while index < |list| - 1
      invariant begin <= index && (index < |list| || begin == |list|)
      invariant forall i :: begin < i <= index && i < |list| ==> list[i].kind == kind
    {
      if list[index + 1].kind != kind {
        if Ordered(list) && begin == First(list, kind) {
          RunIsSlice(list, kind, begin, index + 1);
        }
        return index + 1;
      }
      index := index + 1;
    }
    if Ordered(list) && begin == First(list, kind) {
      RunIsSlice(list, kind, begin, |list|);
    }
    return |list|;
  }

  /** From behind `begin` up to `end` all entries are of the type, and `end` is as large as that allows. */
  ghost predicate RunEnds(list: seq<Description>, kind: nat, begin: nat, end: nat) {
    && begin <= end <= |list| && (begin < |list| ==> begin < end)
    && (forall i :: begin < i < end ==> list[i].kind == kind)
    && (end < |list| ==> list[end].kind != kind)
  }

  /** In an ordered list the run behind the first entry of a type holds all of its entries. */
  lemma RunIsSlice(list: seq<Description>, kind: nat, begin: nat, end: nat)
    requires Ordered(list) && begin == First(list, kind) && RunEnds(list, kind, begin, end)
    ensures Slice(list, kind, begin, end)
  {
    forall i | end <= i < |list| ensures list[i].kind != kind {
      assert list[begin].kind == kind;
      if list[i].kind == kind {
        assert false;
      }
    }
  }

  method MakeListInfo(list: seq<Description>) returns (info: ListInfo)
    requires list != []
    ensures |info.begin| == PROP_TYPE_MAX && |info.end| == PROP_TYPE_MAX
    ensures forall t :: 0 <= t < PROP_TYPE_MAX ==>
      info.begin[t] == First(list, t) && RunEnds(list, t, info.begin[t], info.end[t])
    ensures Ordered(list) ==> Slices(list, info)
  {
    var begins: seq<nat>, ends: seq<nat> := [], [];
    for t := 0 to PROP_TYPE_MAX
      invariant |begins| == t && |ends| == t
      invariant forall u :: 0 <= u < t ==> begins[u] == First(list, u) && RunEnds(list, u, begins[u], ends[u])
      invariant Ordered(list) ==> forall u :: 0 <= u < t ==> Slice(list, u, begins[u], ends[u])
    {
      var begin := PropertyTypeBegin(list, t);
      var end := PropertyTypeEnd(list, begin, t);
      begins, ends := begins + [begin], ends + [end];
    }
    info := ListInfo(begins, ends);
  }

  // ------------------------------------------------------------------ lookup by index

  /** describe: None stands for the undefined description. The sum is one of machine words. */
  function Describe(list: seq<Description>, info: ListInfo, kind: nat, index: nat): Option<Description>
    requires Slices(list, info)
  {
    if kind >= PROP_TYPE_MAX then None
    else
      var idx := (info.begin[kind] + index) % WORD;
      if idx >= info.end[kind] then None else Some(list[idx])
  }

  /** The answer one expects: the entry of the type with that index, if there is one. */
  ghost predicate Describes(list: seq<Description>, kind: nat, index: nat, r: Option<Description>) {
    match r
    case Some(d) => d in list && d.kind == kind && d.index == index
    case None => forall i :: 0 <= i < |list| ==> !(list[i].kind == kind && list[i].index == index)
  }

  lemma EntryAt(list: seq<Description>, info: ListInfo, kind: nat, i: nat)
    requires Ordered(list) && Slices(list, info) && kind < PROP_TYPE_MAX && i < |list| && list[i].kind == kind
    ensures i == info.begin[kind] + list[i].index < info.end[kind]
  {
    assert Slice(list, kind, info.begin[kind], info.end[kind]);
  }

  lemma WrappedSum(a: nat, b: nat)
    requires a < WORD && b < WORD
    ensures (a + b) % WORD == if a + b < WORD then a + b else a + b - WORD
  {
  }

  /** A type has an entry with an index exactly if its slice is longer than that. */
  lemma InRangeIff(list: seq<Description>, info: ListInfo, kind: nat, index: nat)
    requires Ordered(list) && Slices(list, info) && kind < PROP_TYPE_MAX
    ensures info.begin[kind] + index < info.end[kind] <==> !Describes(list, kind, index, None)
  {
    assert Slice(list, kind, info.begin[kind], info.end[kind]);
    if info.begin[kind] + index < info.end[kind] {
      EntryAt(list, info, kind, info.begin[kind] + index);
    }
    forall i | 0 <= i < |list| && list[i].kind == kind
      ensures list[i].index == index ==> info.begin[kind] + index < info.end[kind]
    {
      EntryAt(list, info, kind, i);
    }
  }

  /** The answer without a wrap, given what the sum finds. */
  lemma DescribeUnwrapped(list: seq<Description>, info: ListInfo, kind: nat, index: nat, at: nat)
    requires Slices(list, info) && kind < PROP_TYPE_MAX && index < WORD && at == info.begin[kind] + index < WORD
    requires |list| < WORD && info.end[kind] <= |list|
    requires at < info.end[kind] ==> list[at].kind == kind && list[at].index == index
    requires at >= info.end[kind] ==> Describes(list, kind, index, None)
    ensures Describes(list, kind, index, Describe(list, info, kind, index))
  {
    assert at % WORD == at;
    assert at < info.end[kind] ==> list[at] in list;
  }

  lemma SumFinds(list: seq<Description>, info: ListInfo, kind: nat, index: nat)
    requires Ordered(list) && Slices(list, info) && kind < PROP_TYPE_MAX
    ensures info.end[kind] <= |list|
    ensures var at := info.begin[kind] + index;
      if at < info.end[kind] then list[at].kind == kind && list[at].index == index
      else Describes(list, kind, index, None)
  {
    assert Slice(list, kind, info.begin[kind], info.end[kind]);
    InRangeIff(list, info, kind, index);
    if info.begin[kind] + index < info.end[kind] {
      EntryAt(list, info, kind, info.begin[kind] + index);
    }
  }

  lemma DescribeWrapped(list: seq<Description>, info: ListInfo, kind: nat, index: nat)
    requires Typed(list) && Ordered(list) && Slices(list, info) && index < WORD
    requires kind < PROP_TYPE_MAX && info.begin[kind] + index >= WORD
    ensures Describes(list, kind, index, Describe(list, info, kind, index)) <==>
            info.begin[kind] + index - WORD >= info.end[kind]
  {
    WrappedSum(info.begin[kind], index);
    InRangeIff(list, info, kind, index);
  }

  /** describe is right unless the sum wraps around back in front of the end of the type. */
  lemma DescribeRight(list: seq<Description>, info: ListInfo, kind: nat, index: nat)
    requires Typed(list) && Ordered(list) && Slices(list, info) && index < WORD
    ensures Describes(list, kind, index, Describe(list, info, kind, index)) <==>
            kind >= PROP_TYPE_MAX || info.begin[kind] + index < WORD
            || info.begin[kind] + index - WORD >= info.end[kind]
  {
    if kind < PROP_TYPE_MAX {
      if info.begin[kind] + index < WORD {
        SumFinds(list, info, kind, index);
        DescribeUnwrapped(list, info, kind, index, info.begin[kind] + index);
      } else {
        DescribeWrapped(list, info, kind, index);
      }
    }
  }

  /** describe finds every entry of the list. */
  lemma DescribeFindsEntry(list: seq<Description>, info: ListInfo, i: nat)
    requires Typed(list) && Ordered(list) && Slices(list, info) && i < |list|
    ensures Describe(list, info, list[i].kind, list[i].index) == Some(list[i])
  {
    EntryAt(list, info, list[i].kind, i);
  }

  /** A lookup that wraps: the list passes the validator, no entry has the index, yet one is returned. */
  lemma DescribeWraps()
    ensures exists list: seq<Description>, info: ListInfo, kind: nat, index: nat ::
              && Typed(list) && Ordered(list) && Slices(list, info) && index == 0xffff_ffff_ffff_ffff
              && Describe(list, info, kind, index) == Some(list[0]) && list[0].kind != kind
  {
    var a, b := Description(0, 0, "undefined"), Description(1, 0, "undefined");
    var list := [a, b];
    assert list[1..] == [b];
    assert First(list, 0) == 0 && First(list, 1) == 1;
    var info := ListInfo([0, 1, 2, 2, 2, 2, 2, 2], [1, 2, 2, 2, 2, 2, 2, 2]);
    forall t | 0 <= t < PROP_TYPE_MAX ensures Slice(list, t, info.begin[t], info.end[t]) {
      assert t >= 2 ==> First(list, t) == 2;
    }
    assert Ordered(list) && Slices(list, info);
    assert Describe(list, info, 1, WORD - 1) == Some(list[0]);
  }

  // ------------------------------------------------------------------ lookup by name

  /** tolower on one character. */
  function ToLower(c: char): char {
    if 'A' <= c <= 'Z' then c - 'A' + 'a' else c
  }

  /** The character of a name that a character of a query stands for: the codes 65 to 90 are the capital letters,
      and their small letters are 32 behind. */
  predicate StandsFor(q: char, c: char) {
    c as int == if 65 <= q as int <= 90 then q as int + 32 else q as int
  }

  predicate Matches(query: string, name: string) {
    |query| == |name| && forall i :: 0 <= i < |query| ==> StandsFor(query[i], name[i])
  }

  lemma LowerStandsFor(q: char, c: char)
    ensures ToLower(q) == c <==> StandsFor(q, c)
  {
  }

  lemma LoweredMatches(query: string, lowered: string, name: string)
    requires |lowered| == |query| && forall i :: 0 <= i < |query| ==> lowered[i] == ToLower(query[i])
    ensures lowered == name <==> Matches(query, name)
  {
    forall i | 0 <= i < |query| && i < |name| ensures lowered[i] == name[i] <==> StandsFor(query[i], name[i]) {
      LowerStandsFor(query[i], name[i]);
    }
  }

  /** find answers with an entry of the type: the first one whose name the query matches, or, where there is none,
      the entry numbered 0. Long queries and unknown types have no answer. */
  ghost predicate Finds(list: seq<Description>, kind: nat, query: string, r: Option<Description>) {
    match r
    case None => kind >= PROP_TYPE_MAX || |query| >= 128
    case Some(d) =>
      && kind < PROP_TYPE_MAX && |query| < 128
      && exists i :: FoundAt(list, kind, query, d, i)
  }

  ghost predicate FoundAt(list: seq<Description>, kind: nat, query: string, d: Description, i: int) {
    && 0 <= i < |list| && list[i] == d && d.kind == kind
    && NoneBefore(list, kind, query, if Matches(query, d.name) then i else |list|)
    && (!Matches(query, d.name) ==> i == First(list, kind))
  }

  /** No entry of the type among the first `n` is one the query matches. */
  ghost predicate NoneBefore(list: seq<Description>, kind: nat, query: string, n: nat) {
    forall j :: 0 <= j < n && j < |list| && list[j].kind == kind ==> !Matches(query, list[j].name)
  }

  method Find(list: seq<Description>, info: ListInfo, kind: nat, name: string) returns (r: Option<Description>)
    requires Typed(list) && Slices(list, info)
    requires kind < PROP_TYPE_MAX ==> First(list, kind) < |list|
    ensures Finds(list, kind, name, r)
  {
    if kind >= PROP_TYPE_MAX {
      return None;
    }
    if |name| >= 128 {
      return None;
    }
    var lowerName := "";
    for i := 0 to |name|
      invariant |lowerName| == i && forall j :: 0 <= j < i ==> lowerName[j] == ToLower(name[j])
    {
      lowerName := lowerName + [ToLower(name[i])];
    }
    var begin, end := info.begin[kind], info.end[kind];
    assert Slice(list, kind, begin, end);
    var index := begin;
    while index < end
      invariant begin <= index <= end
      invariant NoneBefore(list, kind, name, index)
    {
      LoweredMatches(name, lowerName, list[index].name);
      if list[index].name == lowerName {
        assert FoundAt(list, kind, name, list[index], index);
        return Some(list[index]);
      }
      index := index + 1;
    }
    assert NoneBefore(list, kind, name, |list|);
    assert FoundAt(list, kind, name, list[begin], begin);
    return Some(list[begin]);
  }

  predicate ValidName(name: string) {
    forall i :: 0 <= i < |name| ==> 'a' <= name[i] <= 'z' || name[i] == '_' || '0' <= name[i] <= '9'
  }

  /** The query spells the name in small and capital letters. */
  predicate Spells(query: string, name: string) {
    && |query| == |name|
    && forall i :: 0 <= i < |query| ==>
         query[i] == name[i] || (65 <= query[i] as int <= 90 && query[i] as int == name[i] as int - 32)
  }

  /** A query matches a valid name exactly if it spells it. */
  lemma MatchesIffSpells(query: string, name: string)
    requires ValidName(name)
    ensures Matches(query, name) <==> Spells(query, name)
  {
    if |query| == |name| {
      forall i | 0 <= i < |query|
        ensures StandsFor(query[i], name[i]) <==>
          query[i] == name[i] || (65 <= query[i] as int <= 90 && query[i] as int == name[i] as int - 32)
      {
        assert 'a' <= name[i] <= 'z' || name[i] == '_' || '0' <= name[i] <= '9';
      }
    }
  }

  /** A query that spells the name of an entry, in whatever small and capital letters, finds the entry exactly if no
      earlier entry of its type has the same name. */
  lemma FindInvertsName(list: seq<Description>, i: nat, query: string, r: Option<Description>)
    requires Typed(list) && Ordered(list) && i < |list| && ValidName(list[i].name) && |list[i].name| < 128
    requires Spells(query, list[i].name) && Finds(list, list[i].kind, query, r)
    ensures r == Some(list[i]) <==>
      forall j :: 0 <= j < i && list[j].kind == list[i].kind ==> list[j].name != list[i].name
  {
    var name := list[i].name;
    MatchesIffSpells(query, name);
    MatchedAlike(query, name);
    match r
    case Some(d) =>
      var k :| FoundAt(list, list[i].kind, query, d, k);
      assert Matches(query, d.name);
      assert list[k].index == k - First(list, d.kind) && list[i].index == i - First(list, d.kind);
      assert k <= i;
    case None =>
  }

  /** A query matches one name at most. */
  lemma MatchedAlike(query: string, name: string)
    requires Matches(query, name)
    ensures forall other :: Matches(query, other) <==> other == name
  {
    forall other | Matches(query, other) ensures other == name {
      forall i | 0 <= i < |query| ensures other[i] == name[i] {
        assert StandsFor(query[i], name[i]) && StandsFor(query[i], other[i]);
      }
    }
  }
}
