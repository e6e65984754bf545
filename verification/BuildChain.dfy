/** build_chain as a whole (linked_helper.cpp, lines 9-133): as written, and with the circle loop advancing. */
module BuildChain {
  import opened LinkSpec
  import opened LinkedHelper
  import opened Sequences
  import opened CircleRepair
  import opened ChainBuilder

  /** The entries form one doubly linked list in the given order, `previous_id` included. */
  ghost predicate LinkedList(entries: seq<Entry>, recs: seq<Record>, order: seq<int>)
    requires |recs| == |entries| && Permutation(order, |recs|)
    reads entries
  {
    forall k :: 0 <= k < |order| ==>
      && entries[order[k]].previous == At(entries, Predecessor(order, k))
      && entries[order[k]].next == At(entries, Successor(order, k))
      && entries[order[k]].previousId == ChainedId(recs, order, k)
  }

  function Successor(order: seq<int>, k: nat): int {
    if k + 1 < |order| then order[k + 1] else -1
  }

  /** Freshly created entries: distinct objects, not linked yet. */
  ghost predicate Unlinked(entries: seq<Entry>)
    reads entries
  {
    Distinct(entries) && forall i :: 0 <= i < |entries| ==> entries[i].previous == null && entries[i].next == null
  }

  ghost function FlagsOf(entries: seq<Entry>): (mods: seq<bool>)
    reads entries
    ensures |mods| == |entries|
    ensures forall i :: 0 <= i < |entries| ==> mods[i] == entries[i].modified
  {
    seq(|entries|, i requires 0 <= i < |entries| reads entries => entries[i].modified)
  }

  /** What an entry holds before the repair. */
  datatype Input = Input(recs: seq<Record>, mods: seq<bool>)

  ghost function InputOf(entries: seq<Entry>): Input
    reads entries
  {
    Input(RecordsOf(entries), FlagsOf(entries))
  }

  // ------------------------------------------------------------------ after the first pass

  lemma FirstPassResult(recs: seq<Record>, P: seq<int>, N: seq<int>, H: seq<int>, ids: seq<nat>, mods: seq<bool>,
    mods0: seq<bool>)
    requires LinkedUpTo(Named(recs), P, N, |recs|) && Mutual(P, N)
    requires PassDone(recs, Named(recs), P, |recs|, H, ids, mods, mods0)
    ensures P == KeptLinks(recs) && Links(P)
    ensures OpenAre(P, H) && Increasing(H)
    ensures forall i :: 0 <= i < |recs| ==> DroppedBy(recs, Named(recs), P[i], i) == Dropped(recs, i)
  {
    OpenNodesSpec(P, |P|);
    forall i | 0 <= i < |recs| ensures P[i] == Kept(Named(recs), i) {
      AllLinked(Named(recs), P, N, i);
    }
  }

  lemma SearchStarts(P: seq<int>, N: seq<int>, U: set<int>, W: seq<int>, H: seq<int>)
    requires Mutual(P, N) && Links(P) && Closed(P, N, U) && OpenAre(P, H) && Increasing(H)
    requires forall i :: 0 <= i < |P| ==> (i in U <==> Rooted(P, i))
    requires Increasing(W) && (forall k :: 0 <= k < |W| ==> 0 <= W[k] < |P|)
    requires forall i :: 0 <= i < |P| ==> (i in W <==> i !in U)
    ensures Searching(P, P, N, U, W, H)
  {
    forall k | 0 <= k < |W| ensures P[W[k]] >= 0 {
      assert W[k] in W;
      if P[W[k]] < 0 {
        RootedStep(P, {}, W[k]);
      }
    }
  }

  // ------------------------------------------------------------------ after the circle search

  /** When every node is settled, the circles have been cut at exactly their cut points. */
  lemma AllCut(P0: seq<int>, P: seq<int>, N: seq<int>, U: set<int>, H: seq<int>, i: int)
    requires Searching(P0, P, N, U, [], H) && 0 <= i < |P0|
    ensures Rooted(P, i)
    ensures P[i] == if CutPoint(P0, i) then -1 else P0[i]
  {
    assert i in U;
    if CutPoint(P0, i) && P[i] >= 0 {
      var k: nat :| Back(P, i, k) == -1;
      CutOnTheWay(P0, P, H, i, k);
      var m: nat :| Back(P0, i, m) >= 0 && P[Back(P0, i, m)] < 0;
      BackStaysOnCircle(P0, i, m);
      BackStaysOnCircle(P0, Back(P0, i, m), 1);
      BackLast(P0, Back(P0, i, m), 0);
      CutPointUnique(P0, i, m);
    }
  }

  /** A walk that ends after the cuts but not before meets a cut. */
  lemma {:induction false} CutOnTheWay(P0: seq<int>, P: seq<int>, H: seq<int>, i: int, k: nat)
    requires CutSome(P0, P, H) && Links(P) && 0 <= i < |P| && Back(P, i, k) == -1
    requires forall m: nat :: Back(P0, i, m) >= 0
    ensures exists m: nat :: Back(P0, i, m) >= 0 && P[Back(P0, i, m)] < 0
    decreases k
  {
    if P[i] < 0 {
      assert Back(P0, i, 0) == i;
    } else {
      forall m: nat ensures Back(P0, P0[i], m) == Back(P0, i, m + 1) {
      }
      CutOnTheWay(P0, P, H, P0[i], k - 1);
      var m: nat :| Back(P0, P0[i], m) >= 0 && P[Back(P0, P0[i], m)] < 0;
      assert Back(P0, i, m + 1) == Back(P0, P0[i], m);
    }
  }

  /** Some number of whole laps is at least `k` steps. */
  lemma {:induction false} WholeLaps(P: seq<int>, i: int, c: nat, k: nat) returns (m: nat)
    requires Links(P) && 0 <= i < |P| && c > 0 && Back(P, i, c) == i
    ensures m >= k && Back(P, i, m) == i
    decreases k
  {
    m := 0;
    if k > 0 {
      m := WholeLaps(P, i, c, k - 1);
      BackAdd(P, i, m, c);
      m := m + c;
    }
  }

  /** Two cut points of one circle are the same node. */
  lemma CutPointUnique(P: seq<int>, i: int, k: nat)
    requires Links(P) && 0 <= i < |P| && CutPoint(P, i)
    requires Back(P, i, k) >= 0 && CutPoint(P, Back(P, i, k))
    ensures Back(P, i, k) == i
  {
    var c: nat :| c > 0 && Back(P, i, c) == i;
    var m := WholeLaps(P, i, c, k);
    BackAdd(P, i, k, m - k);
  }

  // ------------------------------------------------------------------ after joining

  ghost function Ranks(P0: seq<int>): (R: seq<int>)
    requires Links(P0)
    ensures |R| == |P0| && forall i :: 0 <= i < |P0| ==> R[i] == Rank(P0, i)
  {
    seq(|P0|, i requires 0 <= i < |P0| => Rank(P0, i))
  }

  /** The circle search ended with everything settled. */
  ghost predicate Settled(P0: seq<int>, s: State, U: set<int>, H: seq<int>) {
    match s case State(P, N, _, _) => Links(P0) && Searching(P0, P, N, U, [], H)
  }

  lemma SomeHead(P0: seq<int>, s: State, U: set<int>, H: seq<int>)
    requires Settled(P0, s, U, H) && |P0| > 0
    ensures |H| > 0 && HeadsOf(s.P, Ranks(P0), H)
  {
    AllCut(P0, s.P, s.N, U, H, 0);
    var k: nat :| Back(s.P, 0, k) == -1;
    OpenRoot(s.P, 0, k);
  }

  lemma {:induction false} OpenRoot(P: seq<int>, i: int, k: nat)
    requires Links(P) && 0 <= i < |P| && Back(P, i, k) == -1
    ensures exists j :: 0 <= j < |P| && P[j] < 0
    decreases k
  {
    if P[i] >= 0 {
      OpenRoot(P, P[i], k - 1);
    }
  }

  /** A joined path of the settled links is the arrangement of the kept links. */
  lemma JoinedArranged(P0: seq<int>, s: State, U: set<int>, H: seq<int>, s2: State, order: seq<int>)
    requires Settled(P0, s, U, H) && |P0| > 0 && HeadsOf(s.P, Ranks(P0), H)
    requires Joined(s.P, s2, order, H, |H|) && Extends(s.P, s2.P) && Mutual(s2.P, s2.N)
    ensures ArrangedBy(P0, order)
  {
    forall y | 0 <= y < |P0| ensures Rooted(s.P, y) && (s.P[y] < 0 <==> Opener(P0, y)) {
      AllCut(P0, s.P, s.N, U, H, y);
    }
    AllJoined(s.P, Ranks(P0), s2, order, H);
    forall k | 0 <= k < |P0| ensures Placed(P0, order, k) {
      assert s2.P[order[k]] == Predecessor(order, k);
      AllCut(P0, s.P, s.N, U, H, order[k]);
    }
    forall k, l | 0 <= k < l < |P0| && Opener(P0, order[k]) && Opener(P0, order[l])
      ensures Rank(P0, order[k]) < Rank(P0, order[l])
    {
      JoinedRanks(s.P, Ranks(P0), s2, order, H, k, l);
    }
  }

  lemma KeptId(recs: seq<Record>, i: nat)
    requires i < |recs|
    ensures var p := KeptLinks(recs)[i]; -1 <= p < |recs| && (p >= 0 ==> recs[p].id == recs[i].previousId)
  {
    assert Kept(Named(recs), i) == KeptLinks(recs)[i];
  }

  /** The fields of one entry, traced through the three phases: `p0`, `p`, `p2` are its predecessor after
      the first pass, after the circle search and at the end. */
  lemma FieldsTraced(recs: seq<Record>, i: nat, p0: int, p: int, p2: int, cut: bool, dropped: bool, mod0: bool,
    s1: State, s: State, s2: State)
    requires i < |recs| == |s1.ids| == |s.ids| == |s2.ids| == |s1.mods| == |s.mods| == |s2.mods|
    requires -1 <= p0 < |recs| && -1 <= p2 < |recs| && (p0 >= 0 ==> recs[p0].id == recs[i].previousId)
    requires s1.ids[i] == (if p0 < 0 then 0 else recs[i].previousId) && s1.mods[i] == (mod0 || dropped)
    requires p == (if cut then -1 else p0) && (cut ==> p0 >= 0)
    requires s.ids[i] == (if p != p0 then 0 else s1.ids[i]) && s.mods[i] == (s1.mods[i] || p != p0)
    requires if p2 == p then s2.ids[i] == s.ids[i] && s2.mods[i] == s.mods[i]
             else p < 0 <= p2 && s2.ids[i] == recs[p2].id && s2.mods[i]
    ensures s2.ids[i] == if p2 < 0 then 0 else recs[p2].id
    ensures s2.mods[i] == (mod0 || dropped || ((p0 < 0 || cut) && (p2 >= 0 || cut)))
  {
  }

  lemma FinalFields(recs: seq<Record>, mods0: seq<bool>, P0: seq<int>, s1: State, s: State, U: set<int>, H: seq<int>,
    s2: State, order: seq<int>, k: nat)
    requires ArrangedBy(P0, order) && Settled(P0, s, U, H) && k < |recs| == |P0| == |mods0|
    requires Marked(P0, s.P, s1.ids, s.ids, s1.mods, s.mods) && Appended(recs, s.P, s, s2) && Path(s2.P, order)
    requires s1.ids[order[k]] == (if P0[order[k]] < 0 then 0 else recs[order[k]].previousId)
    requires P0[order[k]] >= 0 ==> recs[P0[order[k]]].id == recs[order[k]].previousId
    ensures s2.ids[order[k]] == ChainedId(recs, order, k)
    ensures s2.mods[order[k]] == (s1.mods[order[k]] || (Opener(P0, order[k]) && (k > 0 || CutPoint(P0, order[k]))))
  {
    var i := order[k];
    assert s2.P[i] == Predecessor(order, k);
    AllCut(P0, s.P, s.N, U, H, i);
    if CutPoint(P0, i) {
      BackStaysOnCircle(P0, i, 1);
      BackLast(P0, i, 0);
    }
    FieldsTraced(recs, i, P0[i], s.P[i], s2.P[i], CutPoint(P0, i), s1.mods[i], false, s1, s, s2);
  }

  /** Nothing was logged exactly if nothing was touched. */
  lemma SilentIffUntouched(recs: seq<Record>, s: State, U: set<int>, H: seq<int>, order: seq<int>, noCircle: bool)
    requires Settled(KeptLinks(recs), s, U, H) && Arrangement(recs, order) && HeadsOf(s.P, Ranks(KeptLinks(recs)), H)
    requires order[0] == H[0] && |recs| > 0
    requires noCircle <==> forall i :: 0 <= i < |recs| ==> !CutPoint(KeptLinks(recs), i)
    ensures (forall i :: 0 <= i < |recs| ==> !Dropped(recs, i)) && noCircle && |H| == 1
       <==> forall k :: 0 <= k < |recs| ==> !Touched(recs, order, k)
  {
    var P0 := KeptLinks(recs);
    forall y | 0 <= y < |P0| ensures s.P[y] < 0 <==> Opener(P0, y) {
      AllCut(P0, s.P, s.N, U, H, y);
    }
    if |H| > 1 {
      PermutationCovers(order, |recs|, H[1]);
      var k :| 0 <= k < |recs| && order[k] == H[1];
      assert Opener(P0, order[k]) && k > 0;
      assert Touched(recs, order, k);
    }
    if forall k :: 0 <= k < |recs| ==> !Touched(recs, order, k) {
      forall i | 0 <= i < |recs| ensures !Dropped(recs, i) && !CutPoint(P0, i) {
        PermutationCovers(order, |recs|, i);
        var k :| 0 <= k < |recs| && order[k] == i;
        assert !Touched(recs, order, k);
      }
    } else {
      var k :| 0 <= k < |recs| && Touched(recs, order, k);
      if Opener(P0, order[k]) && k > 0 {
        assert order[k] in H && order[0] != order[k];
      }
    }
  }

  // ------------------------------------------------------------------ the whole function

  /** The fields after the first pass. */
  ghost predicate PassFields(recs: seq<Record>, mods0: seq<bool>, s: State) {
    && |recs| == |s.P| == |mods0| == |s.ids| == |s.mods|
    && (forall i :: 0 <= i < |recs| ==> s.ids[i] == if s.P[i] < 0 then 0 else recs[i].previousId)
    && (forall i :: 0 <= i < |recs| ==> s.mods[i] == (mods0[i] || Dropped(recs, i)))
  }

  ghost predicate NothingDropped(recs: seq<Record>) {
    forall i :: 0 <= i < |recs| ==> !Dropped(recs, i)
  }

  lemma FirstPassFields(recs: seq<Record>, s: State, H: seq<int>, mods0: seq<bool>, silent: bool)
    requires PassIn(recs, Named(recs), mods0, s, H, |recs|, silent) && Mutual(s.P, s.N)
    ensures s.P == KeptLinks(recs) && Links(s.P) && OpenAre(s.P, H) && Increasing(H)
    ensures PassFields(recs, mods0, s)
    ensures silent <==> NothingDropped(recs)
  {
    FirstPassResult(recs, s.P, s.N, H, s.ids, s.mods, mods0);
  }

  /** The first pass on freshly created entries. */
  method FirstPass(entries: seq<Entry>, ghost recs: seq<Record>, ghost mods0: seq<bool>)
    returns (heads: seq<Entry>, log: seq<LogMessage>, ghost s: State, ghost H: seq<int>)
    requires Unlinked(entries) && recs == RecordsOf(entries) && mods0 == FlagsOf(entries)
    modifies entries
    ensures InState(entries, s) && s.P == KeptLinks(recs) && Links(s.P) && Refs(entries, heads, H)
    ensures OpenAre(s.P, H) && Increasing(H) && PassFields(recs, mods0, s)
    ensures log == [] <==> NothingDropped(recs)
  {
    heads, log, s, H := FirstLinking(entries, Pass(recs, Named(recs), mods0));
    FirstPassFields(recs, s, H, mods0, log == []);
  }

  /** Mark what hangs on the heads and collect the rest, which lies on circles. */
  method FindUnused(entries: seq<Entry>, heads: seq<Entry>, ghost s: State, ghost H: seq<int>)
    returns (ok: bool, unused: seq<Entry>, log: seq<LogMessage>, ghost U: set<int>, ghost W: seq<int>)
    requires InState(entries, s) && Links(s.P) && Refs(entries, heads, H) && OpenAre(s.P, H) && Increasing(H)
    ensures ok && log == []
    ensures Searching(s.P, s.P, s.N, U, W, H) && Unused(entries, unused, W, U, -1)
    ensures unused != [] <==> HasCircle(s.P)
  {
    var used;
    ok, used, log, U := MarkUsed(entries, heads, s.P, s.N, H);
    unused, W := CollectUnused(entries, used, U);
    SearchStarts(s.P, s.N, U, W, H);
    forall i | 0 <= i < |s.P| ensures i in W <==> OnCircle(s.P, i) {
      RootedXorCircle(s.P, i);
    }
    if unused != [] {
      assert W[0] in W;
    }
  }

  /** The result of a successful repair. */
  ghost predicate Repaired(entries: seq<Entry>, head: Entry?, before: Input, order: seq<int>)
    reads entries
  {
    match before case Input(recs, mods0) =>
    && |recs| == |entries| == |mods0| && |recs| > 0
    && Arrangement(recs, order)
    && head == entries[order[0]]
    && LinkedList(entries, recs, order)
    && forall k :: 0 <= k < |recs| ==>
      entries[order[k]].modified == (mods0[order[k]] || Touched(recs, order, k))
  }

  ghost predicate Untouched(recs: seq<Record>, order: seq<int>)
    requires Arrangement(recs, order)
  {
    forall k :: 0 <= k < |recs| ==> !Touched(recs, order, k)
  }

  ghost predicate NoCutPoint(P: seq<int>)
    requires Links(P)
  {
    forall i :: 0 <= i < |P| ==> !CutPoint(P, i)
  }

  lemma ResultLinks(entries: seq<Entry>, recs: seq<Record>, s2: State, order: seq<int>, k: nat)
    requires InState(entries, s2) && |recs| == |entries| && Permutation(order, |recs|) && k < |recs|
    requires Path(s2.P, order) && Complete(s2.N, order)
    ensures entries[order[k]].previous == At(entries, Predecessor(order, k))
    ensures entries[order[k]].next == At(entries, Successor(order, k))
  {
    assert s2.P[order[k]] == Predecessor(order, k);
    if k + 1 < |order| {
      PathSuccessors(s2.P, s2.N, order, k);
    }
  }

  lemma Assemble(entries: seq<Entry>, recs: seq<Record>, mods0: seq<bool>, s1: State, s: State, U: set<int>,
    H: seq<int>, s2: State, order: seq<int>)
    requires InState(entries, s2) && |recs| == |entries| == |mods0| && |recs| > 0
    requires s1.P == KeptLinks(recs) && PassFields(recs, mods0, s1) && Settled(s1.P, s, U, H)
    requires Marked(s1.P, s.P, s1.ids, s.ids, s1.mods, s.mods) && Appended(recs, s.P, s, s2)
    requires HeadsOf(s.P, Ranks(s1.P), H) && Joined(s.P, s2, order, H, |H|)
    ensures Repaired(entries, entries[order[0]], Input(recs, mods0), order)
  {
    JoinedArranged(s1.P, s, U, H, s2, order);
    forall k | 0 <= k < |recs|
      ensures entries[order[k]].previousId == ChainedId(recs, order, k)
      ensures entries[order[k]].modified == (mods0[order[k]] || Touched(recs, order, k))
      ensures entries[order[k]].previous == At(entries, Predecessor(order, k))
      ensures entries[order[k]].next == At(entries, Successor(order, k))
    {
      KeptId(recs, order[k]);
      FinalFields(recs, mods0, s1.P, s1, s, U, H, s2, order, k);
      ResultLinks(entries, recs, s2, order, k);
    }
  }

  /** Lines 104-131: fail without heads, otherwise join all heads. */
  method JoinHeads(entries: seq<Entry>, heads: seq<Entry>, ghost recs: seq<Record>, ghost mods0: seq<bool>,
    ghost s1: State, ghost s: State, ghost U: set<int>, ghost H: seq<int>)
    returns (head: Entry?, log: seq<LogMessage>, ghost order: seq<int>)
    requires InState(entries, s) && SameIds(entries, recs) && Refs(entries, heads, H)
    requires s1.P == KeptLinks(recs) && PassFields(recs, mods0, s1) && Settled(s1.P, s, U, H)
    requires Marked(s1.P, s.P, s1.ids, s.ids, s1.mods, s.mods)
    modifies entries
    ensures head == null <==> entries == []
    ensures head == null ==> log == []
    ensures head != null ==> Repaired(entries, head, Input(recs, mods0), order)
    ensures head != null ==> (NothingDropped(recs) && NoCutPoint(s1.P) && log == [] <==> Untouched(recs, order))
  {
    log, order := [], [];
    if heads == [] {
      if entries != [] {
        log := [NoHeads];
      }
      if |s1.P| > 0 {
        SomeHead(s1.P, s, U, H);
      }
      return null, log, order;
    }
    SomeHead(s1.P, s, U, H);
    ghost var s2;
    head, log, s2, order := Concatenate(entries, heads, Plan(recs, s, Ranks(s1.P), H));
    ghost var tail :| Joining(entries, [], tail, Plan(recs, s, Ranks(s1.P), H), s2, order);
    Assemble(entries, recs, mods0, s1, s, U, H, s2, order);
    SilentIffUntouched(recs, s, U, H, order, NoCutPoint(s1.P));
  }

  lemma NothingToCut(s: State, U: set<int>, W: seq<int>, H: seq<int>)
    requires Links(s.P) && SearchIn(s.P, s, U, W, H) && |W| == 0 && |s.P| == |s.ids| == |s.mods|
    ensures Settled(s.P, s, U, H) && Marked(s.P, s.P, s.ids, s.ids, s.mods, s.mods)
  {
    assert W == [];
  }

  /** There is a cut point exactly if there is an unused node, exactly if there is a circle. */
  lemma CutPointsIffUnused(P: seq<int>, N: seq<int>, U: set<int>, W: seq<int>, H: seq<int>)
    requires Searching(P, P, N, U, W, H) && (W != [] <==> HasCircle(P))
    ensures NoCutPoint(P) <==> W == []
  {
    if W != [] {
      CutFound(P, P, N, U, W, H);
    }
  }

  /** The outcome of the first pass and of the search for unused nodes. */
  datatype Search = Search(s: State, U: set<int>, W: seq<int>, H: seq<int>)

  ghost predicate Searched(entries: seq<Entry>, heads: seq<Entry>, unused: seq<Entry>, before: Input, x: Search)
    reads entries
  {
    match x case Search(s, U, W, H) =>
      && InState(entries, s) && s.P == KeptLinks(before.recs) && Links(s.P)
      && PassFields(before.recs, before.mods, s) && SameIds(entries, before.recs)
      && Refs(entries, heads, H) && Unused(entries, unused, W, U, -1) && SearchIn(s.P, s, U, W, H)
      && (NoCutPoint(s.P) <==> |unused| == 0)
      && (forall i :: 0 <= i < |s.P| ==> s.P[i] != i)
  }

  lemma NoSelfLink(recs: seq<Record>, i: nat)
    requires i < |recs|
    ensures KeptLinks(recs)[i] != i
  {
    assert Kept(Named(recs), i) == KeptLinks(recs)[i];
  }

  /** Lines 18-78: the first pass and the search for nodes that no head reaches. */
  method LinkAndSearch(entries: seq<Entry>, ghost before: Input)
    returns (ok: bool, heads: seq<Entry>, unused: seq<Entry>, log: seq<LogMessage>, ghost x: Search)
    requires Unlinked(entries) && before == InputOf(entries)
    modifies entries
    ensures ok && Searched(entries, heads, unused, before, x)
    ensures |unused| > 0 <==> Circular(before.recs)
    ensures log == [] <==> NothingDropped(before.recs)
  {
    var more;
    ghost var s, U, W, H;
    heads, log, s, H := FirstPass(entries, before.recs, before.mods);
    ok, unused, more, U, W := FindUnused(entries, heads, s, H);
    CutPointsIffUnused(s.P, s.N, U, W, H);
    forall i | 0 <= i < |s.P| ensures s.P[i] != i {
      NoSelfLink(before.recs, i);
    }
    x := Search(s, U, W, H);
  }

  /** The circle loop as written, in the terms that joining needs. */
  method CutAsWritten(entries: seq<Entry>, unused: seq<Entry>, heads: seq<Entry>, ghost s1: State, ghost U: set<int>,
    ghost W: seq<int>, ghost H: seq<int>)
    returns (ok: bool, heads': seq<Entry>, log: seq<LogMessage>, ghost s: State)
    requires InState(entries, s1) && Refs(entries, heads, H) && Links(s1.P)
    requires Unused(entries, unused, W, U, -1) && SearchIn(s1.P, s1, U, W, H)
    requires forall i :: 0 <= i < |s1.P| ==> s1.P[i] != i
    modifies entries
    ensures ok <==> |unused| == 0
    ensures InState(entries, s) && (log == [] <==> ok)
    ensures ok ==> Refs(entries, heads', H) && Settled(s1.P, s, U, H)
    ensures ok ==> Marked(s1.P, s.P, s1.ids, s.ids, s1.mods, s.mods)
  {
    ok, heads', log, s := CutCirclesAsWritten(entries, unused, heads, s1, U, W, H);
    if ok {
      NothingToCut(s1, U, W, H);
    }
  }

  /** Lines 80-131 as written. */
  method CutAndJoinAsWritten(entries: seq<Entry>, unused: seq<Entry>, heads: seq<Entry>, ghost before: Input,
    ghost x: Search)
    returns (head: Entry?, log: seq<LogMessage>, ghost order: seq<int>)
    requires Searched(entries, heads, unused, before, x)
    modifies entries
    ensures head == null <==> entries == [] || |unused| > 0
    ensures head != null ==> Repaired(entries, head, before, order)
    ensures head != null ==> (NothingDropped(before.recs) && log == [] <==> Untouched(before.recs, order))
    ensures |unused| > 0 ==> log != []
  {
    var ok, heads', messages;
    ghost var s;
    ok, heads', log, s := CutAsWritten(entries, unused, heads, x.s, x.U, x.W, x.H);
    order := [];
    if !ok {
      return null, log, order;
    }
    head, messages, order := JoinHeads(entries, heads', before.recs, before.mods, x.s, s, x.U, x.H);
    log := log + messages;
  }

  /** Lines 80-131 with the circle loop advancing. */
  method CutAndJoinAdvancing(entries: seq<Entry>, unused: seq<Entry>, heads: seq<Entry>, ghost before: Input,
    ghost x: Search)
    returns (head: Entry?, log: seq<LogMessage>, ghost order: seq<int>)
    requires Searched(entries, heads, unused, before, x)
    modifies entries
    ensures head == null <==> entries == []
    ensures head != null ==> Repaired(entries, head, before, order)
    ensures head != null ==> (NothingDropped(before.recs) && log == [] <==> Untouched(before.recs, order))
  {
    var ok, heads', messages;
    ghost var s, U', H';
    ok, heads', log, s, U', H' := CutCirclesAdvancing(entries, unused, heads, x.s, x.U, x.W, x.H);
    order := [];
    if !ok {
      return null, log, order;
    }
    head, messages, order := JoinHeads(entries, heads', before.recs, before.mods, x.s, s, U', H');
    log := log + messages;
  }

  /** build_chain as it is written: it succeeds exactly on non-empty input whose kept links have no circle. */
  method BuildChain(entries: seq<Entry>) returns (head: Entry?, log: seq<LogMessage>, ghost order: seq<int>)
    requires Unlinked(entries)
    modifies entries
    ensures head == null <==> entries == [] || Circular(old(InputOf(entries)).recs)
    ensures head != null ==> Repaired(entries, head, old(InputOf(entries)), order)
    ensures head != null ==> (log == [] <==> Untouched(old(InputOf(entries)).recs, order))
    ensures head == null && entries != [] ==> log != []
  {
    ghost var before := InputOf(entries);
    var ok, heads, unused, messages;
    ghost var x;
    ok, heads, unused, log, x := LinkAndSearch(entries, before);
    order := [];
    if !ok {
      return null, log, order;
    }
    head, messages, order := CutAndJoinAsWritten(entries, unused, heads, before, x);
    log := log + messages;
  }

  /** build_chain with the circle loop advancing: it succeeds on every non-empty input. */
  method BuildChainAdvancing(entries: seq<Entry>) returns (head: Entry?, log: seq<LogMessage>, ghost order: seq<int>)
    requires Unlinked(entries)
    modifies entries
    ensures head == null <==> entries == []
    ensures head != null ==> Repaired(entries, head, old(InputOf(entries)), order)
    ensures head != null ==> (log == [] <==> Untouched(old(InputOf(entries)).recs, order))
  {
    ghost var before := InputOf(entries);
    var ok, heads, unused, messages;
    ghost var x;
    ok, heads, unused, log, x := LinkAndSearch(entries, before);
    order := [];
    if !ok {
      return null, log, order;
    }
    head, messages, order := CutAndJoinAdvancing(entries, unused, heads, before, x);
    log := log + messages;
  }

  // ------------------------------------------------------------------ what a caller sees

  ghost predicate SameEntryIds(entries: seq<Entry>, recs: seq<Record>) {
    |recs| == |entries| && forall i :: 0 <= i < |entries| ==> entries[i].entryId == recs[i].id
  }

  /** The records read off the repaired entries are the chained ones. */
  lemma OutputWrittenBack(entries: seq<Entry>, head: Entry?, before: Input, order: seq<int>)
    requires Repaired(entries, head, before, order) && SameEntryIds(entries, before.recs)
    ensures WrittenBack(before.recs, order, RecordsOf(entries))
  {
    var out := RecordsOf(entries);
    forall k | 0 <= k < |order|
      ensures out[order[k]] == Record(before.recs[order[k]].id, ChainedId(before.recs, order, k))
    {
      assert entries[order[k]].previousId == ChainedId(before.recs, order, k);
    }
  }

  /** Entries that come in unmodified are marked modified exactly if their `previous_id` changed. */
  lemma ModifiedExactlyIfChanged(entries: seq<Entry>, head: Entry?, before: Input, order: seq<int>, i: nat)
    requires Repaired(entries, head, before, order) && ProperIds(before.recs)
    requires i < |entries| && !before.mods[i]
    ensures entries[i].modified <==> entries[i].previousId != before.recs[i].previousId
  {
    PermutationCovers(order, |before.recs|, i);
    var k :| 0 <= k < |before.recs| && order[k] == i;
    ModifiedIffChanged(before.recs, order, k);
    assert entries[order[k]].previousId == ChainedId(before.recs, order, k);
  }

  /** Records that form a chain, in whatever order they are listed, are repaired to that chain: nothing is
      changed or marked, and the failing case does not occur. */
  lemma ChainRepairKeeps(entries: seq<Entry>, head: Entry?, before: Input, order: seq<int>, chain: seq<int>)
    requires Repaired(entries, head, before, order) && ProperIds(before.recs) && FormsChain(before.recs, chain)
    ensures order == chain && !Circular(before.recs) && Untouched(before.recs, order) && head == entries[chain[0]]
    ensures forall i :: 0 <= i < |entries| ==>
      entries[i].previousId == before.recs[i].previousId && entries[i].modified == before.mods[i]
  {
    ChainIsFixed(before.recs, chain);
    ArrangementUnique(KeptLinks(before.recs), order, chain);
    forall i | 0 <= i < |entries|
      ensures entries[i].previousId == before.recs[i].previousId && entries[i].modified == before.mods[i]
    {
      PermutationCovers(order, |before.recs|, i);
      var k :| 0 <= k < |order| && order[k] == i;
      assert entries[order[k]].previousId == ChainedId(before.recs, order, k);
    }
  }

  /** `recs` are the records `out` in another order: the i-th is the one at position `source[i]`. */
  ghost predicate Shuffled(out: seq<Record>, recs: seq<Record>, source: seq<int>) {
    && |recs| == |out| && Permutation(source, |out|)
    && forall i :: 0 <= i < |recs| ==> recs[i] == out[source[i]]
  }

  /** The positions at which a listing holds the elements of `order`. */
  lemma Located(source: seq<int>, order: seq<int>, n: nat) returns (chain: seq<int>)
    requires Permutation(source, n) && Permutation(order, n)
    ensures Permutation(chain, n) && forall k :: 0 <= k < n ==> source[chain[k]] == order[k]
  {
    forall k | 0 <= k < n ensures order[k] in source {
      PermutationCovers(source, n, order[k]);
    }
    chain := seq(n, k requires 0 <= k < n => PositionOf(source, order[k]));
  }

  lemma ShuffledIds(first: seq<Record>, order: seq<int>, out: seq<Record>, recs: seq<Record>, source: seq<int>, i: nat)
    requires WrittenBack(first, order, out) && Shuffled(out, recs, source) && i < |recs|
    ensures recs[i].id == first[source[i]].id
  {
    PermutationCovers(order, |first|, source[i]);
    var k :| 0 <= k < |first| && order[k] == source[i];
    assert out[order[k]].id == first[order[k]].id;
  }

  lemma ShuffledLink(first: seq<Record>, order: seq<int>, out: seq<Record>, recs: seq<Record>, source: seq<int>,
    chain: seq<int>, k: nat)
    requires WrittenBack(first, order, out) && Shuffled(out, recs, source) && Permutation(chain, |recs|) && k < |recs|
    requires forall l :: 0 <= l < |recs| ==> source[chain[l]] == order[l]
    ensures recs[chain[k]].previousId == ChainedId(recs, chain, k)
  {
    assert recs[chain[k]] == out[order[k]];
    if k > 0 {
      var p := k - 1;
      assert recs[chain[p]] == out[order[p]];
    }
  }

  /** The repaired records form a chain in every order in which they can be listed. */
  lemma ShuffledChain(first: seq<Record>, order: seq<int>, out: seq<Record>, recs: seq<Record>, source: seq<int>)
    returns (chain: seq<int>)
    requires ProperIds(first) && WrittenBack(first, order, out) && Shuffled(out, recs, source)
    ensures ProperIds(recs) && FormsChain(recs, chain)
    ensures forall k :: 0 <= k < |recs| ==> source[chain[k]] == order[k]
  {
    chain := Located(source, order, |recs|);
    forall i | 0 <= i < |recs| ensures recs[i].id == first[source[i]].id {
      ShuffledIds(first, order, out, recs, source, i);
    }
    forall k | 0 <= k < |recs| ensures recs[chain[k]].previousId == ChainedId(recs, chain, k) {
      ShuffledLink(first, order, out, recs, source, chain, k);
    }
  }

  /** A second repair, of entries created from the ids that the first one left and handed over in any
      order, keeps the order of the chain, changes and marks nothing, and is not the failing case. */
  lemma SecondRepairKeeps(first: Input, order: seq<int>, out: seq<Record>, source: seq<int>, entries: seq<Entry>,
    head: Entry?, second: Input, order': seq<int>)
    requires ProperIds(first.recs) && Arrangement(first.recs, order) && WrittenBack(first.recs, order, out)
    requires Shuffled(out, second.recs, source) && Repaired(entries, head, second, order')
    ensures forall k :: 0 <= k < |order| ==> source[order'[k]] == order[k]
    ensures !Circular(second.recs) && Untouched(second.recs, order')
    ensures forall i :: 0 <= i < |entries| ==>
      entries[i].previousId == second.recs[i].previousId && entries[i].modified == second.mods[i]
  {
    var chain := ShuffledChain(first.recs, order, out, second.recs, source);
    ChainRepairKeeps(entries, head, second, order', chain);
  }
}
