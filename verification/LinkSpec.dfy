/** What the repair of a channel chain is meant to produce, stated on plain records
    (`entry_id`, `previous_id`), without pointers. */
module LinkSpec {

  datatype Record = Record(id: nat, previousId: nat)

  /** Index of the first record with the given id, or -1. */
  function Find(recs: seq<Record>, id: nat): (i: int)
    ensures -1 <= i < |recs|
    ensures i >= 0 ==> recs[i].id == id
  {
    FindFrom(recs, id, 0)
  }

  function FindFrom(recs: seq<Record>, id: nat, from: nat): (i: int)
    requires from <= |recs|
    ensures -1 <= i < |recs|
    ensures i >= 0 ==> recs[i].id == id
    decreases |recs| - from
  {
    if from == |recs| then -1
    else if recs[from].id == id then from
    else FindFrom(recs, id, from + 1)
  }

  lemma {:induction false} FindIsFirst(recs: seq<Record>, id: nat, i: int)
    requires -1 <= i < |recs|
    requires i >= 0 ==> recs[i].id == id
    requires forall j :: 0 <= j < (if i < 0 then |recs| else i) ==> recs[j].id != id
    ensures Find(recs, id) == i
  {
    var from := if i < 0 then |recs| else i;
    while from > 0
      invariant 0 <= from <= (if i < 0 then |recs| else i)
      invariant FindFrom(recs, id, from) == i
    {
      from := from - 1;
    }
  }

  /** For every record the index of the record it names as predecessor, or -1. */
  function Named(recs: seq<Record>): (F: seq<int>)
    ensures |F| == |recs|
    ensures forall i :: 0 <= i < |F| ==> -1 <= F[i] < |F| && F[i] == Find(recs, recs[i].previousId)
  {
    seq(|recs|, i requires 0 <= i < |recs| => Find(recs, recs[i].previousId))
  }

  /** Record `j` names record `p`, which is another record, as its predecessor. */
  predicate Claims(F: seq<int>, j: nat, p: int)
    requires j < |F|
  {
    p >= 0 && j != p && F[j] == p
  }

  /** The predecessor link of record `i` that survives the first pass: the named record, if it is
      another record and no earlier record claims it as well; otherwise -1. */
  function Kept(F: seq<int>, i: nat): (p: int)
    requires i < |F|
    ensures p < 0 || Claims(F, i, p)
    ensures -1 <= F[i] < |F| ==> -1 <= p < |F|
  {
    if Claims(F, i, F[i]) && !(exists j :: 0 <= j < i && Claims(F, j, F[i])) then F[i] else -1
  }

  function KeptLinks(recs: seq<Record>): (P: seq<int>)
    ensures |P| == |recs|
    ensures forall i :: 0 <= i < |P| ==> -1 <= P[i] < |P| && P[i] == Kept(Named(recs), i)
  {
    seq(|recs|, i requires 0 <= i < |recs| => Kept(Named(recs), i))
  }

  /** The link of record `i` is dropped by the first pass. */
  predicate Dropped(recs: seq<Record>, i: nat)
    requires i < |recs|
  {
    KeptLinks(recs)[i] < 0 && (recs[i].previousId > 0 || Named(recs)[i] >= 0)
  }

  // ------------------------------------------------------------------ predecessor maps

  /** A predecessor map: `P[i]` is the index before `i`, or -1 when `i` is open. */
  ghost predicate Links(P: seq<int>) {
    && (forall i :: 0 <= i < |P| ==> -1 <= P[i] < |P|)
    && (forall i, j :: 0 <= i < j < |P| && P[i] >= 0 ==> P[i] != P[j])
  }

  /** `k` steps backwards from `i`; -1 once the walk has left an open node. */
  ghost function Back(P: seq<int>, i: int, k: nat): (r: int)
    requires Links(P) && -1 <= i < |P|
    ensures -1 <= r < |P|
    decreases k
  {
    if k == 0 then i else if i < 0 then -1 else Back(P, P[i], k - 1)
  }

  ghost predicate Rooted(P: seq<int>, i: int)
    requires Links(P) && 0 <= i < |P|
  {
    exists k: nat :: Back(P, i, k) == -1
  }

  ghost predicate OnCircle(P: seq<int>, i: int)
    requires Links(P) && 0 <= i < |P|
  {
    exists k: nat :: k > 0 && Back(P, i, k) == i
  }

  /** The node at which its circle is cut: the one that comes first in the input. */
  ghost predicate CutPoint(P: seq<int>, i: int)
    requires Links(P) && 0 <= i < |P|
  {
    OnCircle(P, i) && forall k: nat :: Back(P, i, k) >= i
  }

  ghost predicate HasCircle(P: seq<int>)
    requires Links(P)
  {
    exists i :: 0 <= i < |P| && OnCircle(P, i)
  }

  lemma {:induction false} BackAdd(P: seq<int>, i: int, a: nat, b: nat)
    requires Links(P) && -1 <= i < |P|
    ensures Back(P, i, a + b) == Back(P, Back(P, i, a), b)
    decreases a
  {
    if a > 0 && i >= 0 {
      BackAdd(P, P[i], a - 1, b);
    } else if a > 0 {
      assert Back(P, -1, b) == -1 by { if b > 0 { } }
    }
  }

  lemma {:induction false} BackLast(P: seq<int>, i: int, k: nat)
    requires Links(P) && -1 <= i < |P|
    ensures Back(P, i, k + 1) == (if Back(P, i, k) < 0 then -1 else P[Back(P, i, k)])
  {
    BackAdd(P, i, k, 1);
    if Back(P, i, k) >= 0 {
      assert Back(P, P[Back(P, i, k)], 0) == P[Back(P, i, k)];
    }
  }

  /** Predecessor steps are injective on live positions, so a repetition can be shifted back to the start. */
  lemma {:induction false} ShiftRepetition(P: seq<int>, i: int, a: nat, b: nat)
    requires Links(P) && 0 <= i < |P|
    requires a < b && Back(P, i, a) == Back(P, i, b) >= 0
    ensures Back(P, i, b - a) == i
    decreases a
  {
    if a > 0 {
      BackLast(P, i, a - 1);
      BackLast(P, i, b - 1);
      ShiftRepetition(P, i, a - 1, b - 1);
    }
  }

  /** More values than the range holds: two of them agree. */
  lemma {:induction false} Pigeonhole(f: seq<int>, n: nat) returns (a: nat, b: nat)
    requires |f| > n
    requires forall k :: 0 <= k < |f| ==> 0 <= f[k] < n
    ensures a < b < |f| && f[a] == f[b]
    decreases n
  {
    var last := |f| - 1;
    if k :| 0 <= k < last && f[k] == f[last] {
      a, b := k, last;
    } else {
      // rename the value n-1 to the last one and drop the last position
      var g := seq(last, k requires 0 <= k < last => if f[k] == n - 1 then f[last] else f[k]);
      a, b := Pigeonhole(g, n - 1);
    }
  }

  /** On a finite injective predecessor map every node either hangs on an open node or lies on a circle. */
  lemma RootedXorCircle(P: seq<int>, i: int)
    requires Links(P) && 0 <= i < |P|
    ensures Rooted(P, i) <==> !OnCircle(P, i)
  {
    if !Rooted(P, i) {
      var f := seq(|P| + 1, k requires 0 <= k => Back(P, i, k));
      var a, b := Pigeonhole(f, |P|);
      ShiftRepetition(P, i, a, b);
    }
    if OnCircle(P, i) {
      var c: nat :| c > 0 && Back(P, i, c) == i;
      forall k: nat ensures Back(P, i, k) != -1 {
        CircleNeverEnds(P, i, c, k);
      }
    }
  }

  lemma {:induction false} CircleNeverEnds(P: seq<int>, i: int, c: nat, k: nat)
    requires Links(P) && 0 <= i < |P| && c > 0 && Back(P, i, c) == i
    ensures Back(P, i, k) >= 0
    decreases k
  {
    if k >= c {
      BackAdd(P, i, c, k - c);
      CircleNeverEnds(P, i, c, k - c);
    } else if Back(P, i, k) < 0 {
      BackAdd(P, i, k, c - k);
    }
  }

  /** Every node of a circle has a successor, at the end of the way around. */
  lemma CircleHasSuccessor(P: seq<int>, i: int) returns (s: int, k: nat)
    requires Links(P) && 0 <= i < |P| && OnCircle(P, i)
    ensures 0 <= s < |P| && P[s] == i && s == Back(P, i, k)
  {
    var c: nat :| c > 0 && Back(P, i, c) == i;
    BackLast(P, i, c - 1);
    s, k := Back(P, i, c - 1), c - 1;
  }

  lemma BackStaysOnCircle(P: seq<int>, i: int, k: nat)
    requires Links(P) && 0 <= i < |P| && OnCircle(P, i)
    ensures 0 <= Back(P, i, k) && OnCircle(P, Back(P, i, k))
  {
    var c: nat :| c > 0 && Back(P, i, c) == i;
    CircleNeverEnds(P, i, c, k);
    BackAdd(P, i, k, c);
    BackAdd(P, i, c, k);
    assert Back(P, Back(P, i, k), c) == Back(P, i, k);
  }

  /** Surviving links are injective: no record keeps two successors. */
  lemma KeptLinksAreLinks(recs: seq<Record>)
    ensures Links(KeptLinks(recs))
  {
    var P := KeptLinks(recs);
  }

  // ------------------------------------------------------------------ the order produced

  ghost predicate Permutation(order: seq<int>, n: nat) {
    && |order| == n
    && (forall k :: 0 <= k < n ==> 0 <= order[k] < n)
    && (forall k, l :: 0 <= k < l < n ==> order[k] != order[l])
  }

  /** Node `i` starts a segment of the result: it was open, or its circle is cut in front of it. */
  ghost predicate Opener(P: seq<int>, i: int)
    requires Links(P) && 0 <= i < |P|
  {
    P[i] < 0 || CutPoint(P, i)
  }

  /** Open nodes come first, in input order; cut circles follow, in input order of their cut points. */
  ghost function Rank(P: seq<int>, i: int): (r: int)
    requires Links(P) && 0 <= i < |P|
  {
    if P[i] < 0 then i else |P| + i
  }

  /** The k-th node opens a segment or directly follows its predecessor. */
  ghost predicate Placed(P: seq<int>, order: seq<int>, k: nat)
    requires Links(P) && Permutation(order, |P|) && k < |P|
  {
    Opener(P, order[k]) || (k > 0 && order[k - 1] == P[order[k]])
  }

  /** Every node is placed, and the segments are ranked. */
  ghost predicate ArrangedBy(P: seq<int>, order: seq<int>) {
    && Links(P)
    && Permutation(order, |P|)
    && (forall k :: 0 <= k < |P| ==> Placed(P, order, k))
    && (forall k, l :: 0 <= k < l < |P| && Opener(P, order[k]) && Opener(P, order[l]) ==>
         Rank(P, order[k]) < Rank(P, order[l]))
  }

  /** The order in which the repaired chain lists the records. */
  ghost predicate Arrangement(recs: seq<Record>, order: seq<int>) {
    ArrangedBy(KeptLinks(recs), order)
  }

  /** `previous_id` of the k-th node of the repaired chain. */
  function ChainedId(recs: seq<Record>, order: seq<int>, k: nat): nat
    requires k < |order| && forall l :: 0 <= l < |order| ==> 0 <= order[l] < |recs|
  {
    if k == 0 then 0 else recs[order[k - 1]].id
  }

  /** The repair touches the k-th node of the result: its link was dropped, its circle was cut in
      front of it, or it was appended behind a tail. */
  ghost predicate Touched(recs: seq<Record>, order: seq<int>, k: nat)
    requires Arrangement(recs, order) && k < |order|
  {
    Dropped(recs, order[k]) || (Opener(KeptLinks(recs), order[k]) && (k > 0 || CutPoint(KeptLinks(recs), order[k])))
  }

  predicate ProperIds(recs: seq<Record>) {
    && (forall i :: 0 <= i < |recs| ==> recs[i].id > 0)
    && (forall i, j :: 0 <= i < j < |recs| ==> recs[i].id != recs[j].id)
  }

  lemma {:induction false} PermutationCovers(order: seq<int>, n: nat, x: int)
    requires Permutation(order, n) && 0 <= x < n
    ensures exists k :: 0 <= k < n && order[k] == x
  {
    if x !in order {
      var a, b := Pigeonhole(seq(n, k requires 0 <= k < n => if order[k] == n - 1 then x else order[k]), n - 1);
    }
  }

  /** The arrangement is determined: there is at most one. */
  lemma {:induction false} ArrangementUnique(P: seq<int>, o1: seq<int>, o2: seq<int>)
    requires ArrangedBy(P, o1) && ArrangedBy(P, o2)
    ensures o1 == o2
  {
    var k := 0;
    while k < |P|
      invariant 0 <= k <= |P| && o1[..k] == o2[..k]
    {
      SamePosition(P, o1, o2, k);
      k := k + 1;
    }
  }

  lemma SamePosition(P: seq<int>, o1: seq<int>, o2: seq<int>, k: nat)
    requires ArrangedBy(P, o1) && ArrangedBy(P, o2)
    requires k < |P| && o1[..k] == o2[..k]
    ensures o1[k] == o2[k]
  {
    PermutationCovers(o2, |P|, o1[k]);
    PermutationCovers(o1, |P|, o2[k]);
    var i :| 0 <= i < |P| && o2[i] == o1[k];
    var j :| 0 <= j < |P| && o1[j] == o2[k];
    forall m | 0 <= m < k ensures o1[m] == o2[m] {
      assert o1[..k][m] == o2[..k][m];
    }
    assert i >= k && j >= k;
    assert Placed(P, o1, k) && Placed(P, o2, i) && Placed(P, o2, k) && Placed(P, o1, j);
  }

  // ------------------------------------------------------------------ what the repair changes

  /** The nearest opener at or before position `k`: from there to `k` the chain follows kept links. */
  lemma {:induction false} SegmentStart(P: seq<int>, order: seq<int>, k: nat) returns (a: nat)
    requires ArrangedBy(P, order) && k < |P|
    ensures a <= k && Opener(P, order[a]) && Back(P, order[k], k - a) == order[a]
    decreases k
  {
    assert Placed(P, order, k);
    if Opener(P, order[k]) {
      a := k;
    } else {
      a := SegmentStart(P, order, k - 1);
    }
  }

  /** A segment through a circle node starts at the cut point of that circle. */
  lemma CircleSegment(P: seq<int>, order: seq<int>, k: nat) returns (a: nat)
    requires ArrangedBy(P, order) && k < |P| && OnCircle(P, order[k])
    ensures a <= k && CutPoint(P, order[a]) && P[order[a]] >= 0 && Back(P, order[k], k - a) == order[a]
  {
    a := SegmentStart(P, order, k);
    BackStaysOnCircle(P, order[k], k - a);
    BackStaysOnCircle(P, order[a], 1);
    BackLast(P, order[a], 0);
  }

  /** A cut point never follows its predecessor on the circle. */
  lemma CutNotBehindPredecessor(P: seq<int>, order: seq<int>, k: nat)
    requires ArrangedBy(P, order) && 0 < k < |P| && CutPoint(P, order[k])
    ensures order[k - 1] != P[order[k]]
  {
    if order[k - 1] == P[order[k]] {
      BackLast(P, order[k], 0);
      BackStaysOnCircle(P, order[k], 1);
      var a := CircleSegment(P, order, k - 1);
      BackAdd(P, order[k], 1, k - 1 - a);
    }
  }

  /** An open node never follows a node that has a successor. */
  lemma OpenNotBehindClaimed(P: seq<int>, order: seq<int>, k: nat, j: int)
    requires ArrangedBy(P, order) && 0 < k < |P| && P[order[k]] < 0
    requires 0 <= j < |P| && P[j] >= 0
    ensures order[k - 1] != P[j]
  {
    if order[k - 1] == P[j] {
      PermutationCovers(order, |P|, j);
      var l :| 0 <= l < |P| && order[l] == j;
      assert Placed(P, order, l);
      if CutPoint(P, j) {
        BackLast(P, j, 0);
        BackStaysOnCircle(P, j, 1);
        var a := CircleSegment(P, order, k - 1);
      }
    }
  }

  lemma FirstClaimant(F: seq<int>, i: nat, p: int) returns (j: nat)
    requires i < |F| && Claims(F, i, p) && Kept(F, i) < 0
    ensures j < i && Kept(F, j) == p
  {
    var m: nat :| m < i && Claims(F, m, p);
    j := m;
    while exists m: nat :: m < j && Claims(F, m, p)
      invariant j < i && Claims(F, j, p)
      decreases j
    {
      var m: nat :| m < j && Claims(F, m, p);
      j := m;
    }
  }

  /** A touched node really changes its `previous_id`; an untouched one keeps it. */
  lemma ModifiedIffChanged(recs: seq<Record>, order: seq<int>, k: nat)
    requires Arrangement(recs, order) && ProperIds(recs) && k < |recs|
    ensures Touched(recs, order, k) <==> ChainedId(recs, order, k) != recs[order[k]].previousId
  {
    var P := KeptLinks(recs);
    var i := order[k];
    if k > 0 && Opener(P, i) && recs[i].previousId == recs[order[k - 1]].id {
      var p := order[k - 1];
      FindIsFirst(recs, recs[i].previousId, p);
      if P[i] >= 0 {
        CutNotBehindPredecessor(P, order, k);
      } else {
        var j := FirstClaimant(Named(recs), i, p);
        OpenNotBehindClaimed(P, order, k, j);
      }
    }
    assert Placed(P, order, k);
    if CutPoint(P, i) {
      BackStaysOnCircle(P, i, 1);
      BackLast(P, i, 0);
    }
  }

  // ------------------------------------------------------------------ well-formed input

  /** The records already form the chain `order`. */
  ghost predicate FormsChain(recs: seq<Record>, order: seq<int>) {
    && Permutation(order, |recs|)
    && forall k :: 0 <= k < |recs| ==> recs[order[k]].previousId == ChainedId(recs, order, k)
  }

  function Predecessor(order: seq<int>, k: nat): int
    requires k < |order|
  {
    if k == 0 then -1 else order[k - 1]
  }

  lemma ChainFind(recs: seq<Record>, order: seq<int>, k: nat)
    requires ProperIds(recs) && FormsChain(recs, order) && k < |recs|
    ensures Named(recs)[order[k]] == Predecessor(order, k)
  {
    FindIsFirst(recs, ChainedId(recs, order, k), Predecessor(order, k));
  }

  lemma ChainKept(F: seq<int>, order: seq<int>, k: nat)
    requires Permutation(order, |F|) && k < |F|
    requires forall l {:trigger Predecessor(order, l)} :: 0 <= l < |F| ==> F[order[l]] == Predecessor(order, l)
    ensures Kept(F, order[k]) == Predecessor(order, k)
  {
    var i, p := order[k], Predecessor(order, k);
    forall j | 0 <= j < i && k > 0 ensures !Claims(F, j, p) {
      PermutationCovers(order, |F|, j);
      var l :| 0 <= l < |F| && order[l] == j;
      assert F[j] == Predecessor(order, l);
    }
  }

  lemma ChainArranged(P: seq<int>, order: seq<int>)
    requires Links(P) && Permutation(order, |P|)
    requires forall k {:trigger Predecessor(order, k)} :: 0 <= k < |P| ==> P[order[k]] == Predecessor(order, k)
    ensures ArrangedBy(P, order) && !HasCircle(P)
  {
    forall i | 0 <= i < |P| ensures !OnCircle(P, i) {
      PermutationCovers(order, |P|, i);
      var k :| 0 <= k < |P| && order[k] == i;
      ChainEnds(P, order, k);
      RootedXorCircle(P, i);
    }
    forall k | 0 <= k < |P| ensures Placed(P, order, k) && (Opener(P, order[k]) <==> k == 0) {
      assert P[order[k]] == Predecessor(order, k);
    }
  }

  /** Records that form a chain, listed in any order, are arranged as that chain, have no circle,
      and nothing is touched. */
  lemma ChainIsFixed(recs: seq<Record>, order: seq<int>)
    requires ProperIds(recs) && FormsChain(recs, order)
    ensures Arrangement(recs, order) && !HasCircle(KeptLinks(recs))
    ensures forall k :: 0 <= k < |recs| ==> !Touched(recs, order, k)
  {
    var P := KeptLinks(recs);
    KeptLinksAreLinks(recs);
    forall k | 0 <= k < |recs| ensures Named(recs)[order[k]] == Predecessor(order, k) {
      ChainFind(recs, order, k);
    }
    forall k | 0 <= k < |recs| ensures P[order[k]] == Predecessor(order, k) {
      ChainKept(Named(recs), order, k);
    }
    ChainArranged(P, order);
    forall k | 0 <= k < |recs| ensures !Touched(recs, order, k) {
      ModifiedIffChanged(recs, order, k);
    }
  }

  lemma {:induction false} ChainEnds(P: seq<int>, order: seq<int>, k: nat)
    requires Links(P) && Permutation(order, |P|) && k < |P|
    requires forall k {:trigger Predecessor(order, k)} :: 0 <= k < |P| ==> P[order[k]] == Predecessor(order, k)
    ensures Back(P, order[k], k + 1) == -1
    decreases k
  {
    var p := Predecessor(order, k);
    assert Back(P, order[k], k + 1) == Back(P, p, k);
    if k > 0 {
      ChainEnds(P, order, k - 1);
    }
  }

  /** The chain written back, record by record in the input order. */
  ghost predicate WrittenBack(recs: seq<Record>, order: seq<int>, out: seq<Record>) {
    && Permutation(order, |recs|) && |out| == |recs|
    && forall k :: 0 <= k < |recs| ==> out[order[k]] == Record(recs[order[k]].id, ChainedId(recs, order, k))
  }

  /** Repairing the repaired records is the identity. */
  lemma RepairIdempotent(recs: seq<Record>, order: seq<int>, out: seq<Record>, order': seq<int>)
    requires ProperIds(recs) && Arrangement(recs, order) && WrittenBack(recs, order, out)
    requires Arrangement(out, order')
    ensures order' == order && !HasCircle(KeptLinks(out))
    ensures WrittenBack(out, order', out)
    ensures forall k :: 0 <= k < |out| ==> !Touched(out, order', k)
  {
    forall i | 0 <= i < |recs| ensures out[i].id == recs[i].id {
      PermutationCovers(order, |recs|, i);
    }
    assert FormsChain(out, order);
    ChainIsFixed(out, order);
    ArrangementUnique(KeptLinks(out), order, order');
  }

  /** Following the surviving predecessors from some record leads back to it. */
  ghost predicate Circular(recs: seq<Record>) {
    KeptLinksAreLinks(recs);
    HasCircle(KeptLinks(recs))
  }
}
