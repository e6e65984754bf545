/** The doubly linked list of the event executor as plain values (EventLoop.cpp, lines 70-84, 97-104 and
    197-204). Nodes are numbered by the order of their creation, and the pointers of all of them are kept. */
module NodeLists {
  import opened Options
  import opened Sequences

  datatype List = List(head: Option<nat>, tail: Option<nat>, next: seq<Option<nat>>, previous: seq<Option<nat>>)

  const EMPTY := List(None, None, [], [])

  function At(pointers: seq<Option<nat>>, x: nat): Option<nat> {
    if x < |pointers| then pointers[x] else None
  }

  function Put(pointers: seq<Option<nat>>, x: nat, p: Option<nat>): (r: seq<Option<nat>>)
    ensures |r| == |pointers|
    ensures forall y :: 0 <= y < |r| ==> r[y] == if y == x then p else pointers[y]
  {
    if x < |pointers| then pointers[x := p] else pointers
  }

  /** A new node becomes the last one; without a last one it becomes the only one, whatever the head was. */
  function Appended(l: List): List {
    var node := Some(|l.next|);
    match l.tail
    case Some(t) => List(l.head, node, Put(l.next, t, node) + [None], l.previous + [l.tail])
    case None => List(node, node, l.next + [None], l.previous + [None])
  }

  /** The successor of a node becomes the head. */
  function CutAt(l: List, x: nat): List {
    match At(l.next, x)
    case Some(h) => List(Some(h), l.tail, l.next, Put(l.previous, h, None))
    case None => List(None, None, l.next, l.previous)
  }

  /** A proper unlink: whatever led to the node leads past it. */
  function Unlinked(l: List, x: nat): List {
    var p, n := At(l.previous, x), At(l.next, x);
    List(
      if p.None? then n else l.head,
      if n.None? then p else l.tail,
      if p.Some? then Put(l.next, p.value, n) else l.next,
      if n.Some? then Put(l.previous, n.value, p) else l.previous)
  }

  // ------------------------------------------------------------------ chains that need not hang together

  /** A node that has been created and is not gone. */
  predicate Present(l: List, gone: set<nat>, x: nat) {
    x < |l.next| && x !in gone
  }

  /** The neighbours of a node point back at it, and exactly the last node of the list has no successor. The
      successor may be gone. */
  predicate Placed(l: List, gone: set<nat>, x: nat) {
    var n, p := At(l.next, x), At(l.previous, x);
    && (n.None? <==> l.tail == Some(x))
    && (n.Some? ==> x < n.value < |l.next| && (n.value !in gone ==> At(l.previous, n.value) == Some(x)))
    && (p.Some? ==> Present(l, gone, p.value) && At(l.next, p.value) == Some(x))
  }

  /** What all nodes keep, those that the head does not lead to included. */
  ghost predicate Shape(l: List, gone: set<nat>) {
    && |l.previous| == |l.next|
    && (l.head.Some? ==> Present(l, gone, l.head.value) && At(l.previous, l.head.value).None?)
    && (l.tail.Some? ==> Present(l, gone, l.tail.value))
    && (l.head.None? ==> l.tail.None?)
    && (forall x: nat :: Present(l, gone, x) ==> Placed(l, gone, x))
  }

  lemma AppendedShape(l: List, gone: set<nat>)
    requires Shape(l, gone) && |l.next| !in gone
    ensures Shape(Appended(l), gone)
  {
    var l' := Appended(l);
    forall x: nat | Present(l', gone, x) ensures Placed(l', gone, x) {
      if x < |l.next| {
        assert Present(l, gone, x) && Placed(l, gone, x);
      }
    }
  }

  lemma CutShape(l: List, gone: set<nat>, x: nat)
    requires Shape(l, gone) && Present(l, gone, x) && (At(l.next, x).Some? ==> At(l.next, x).value !in gone)
    ensures Shape(CutAt(l, x), gone + {x})
  {
    var l' := CutAt(l, x);
    assert Placed(l, gone, x);
    forall y: nat | Present(l', gone + {x}, y) ensures Placed(l', gone + {x}, y) {
      assert Present(l, gone, y) && Placed(l, gone, y);
    }
  }

  lemma UnlinkedShape(l: List, gone: set<nat>, x: nat)
    requires Shape(l, gone) && Present(l, gone, x) && (At(l.next, x).Some? ==> At(l.next, x).value !in gone)
    ensures Shape(Unlinked(l, x), gone + {x})
  {
    var l', n, p := Unlinked(l, x), At(l.next, x), At(l.previous, x);
    assert Placed(l, gone, x);
    assert n.Some? ==> Placed(l, gone, n.value);
    assert p.Some? ==> Placed(l, gone, p.value);
    forall y: nat | Present(l', gone + {x}, y) ensures Placed(l', gone + {x}, y) {
      assert Present(l, gone, y) && Placed(l, gone, y);
    }
  }

  // ------------------------------------------------------------------ one chain

  /** Node numbers increase towards the tail. */
  ghost predicate Ordered(q: seq<nat>) {
    forall i, j :: 0 <= i < j < |q| ==> q[i] < q[j]
  }

  function After(q: seq<nat>, i: int): Option<nat> {
    if -1 <= i < |q| - 1 then Some(q[i + 1]) else None
  }

  function Before(q: seq<nat>, i: int): Option<nat> {
    if 1 <= i <= |q| then Some(q[i - 1]) else None
  }

  ghost predicate Leads(next: seq<Option<nat>>, q: seq<nat>) {
    forall i {:trigger After(q, i)} :: 0 <= i < |q| ==> q[i] < |next| && At(next, q[i]) == After(q, i)
  }

  ghost predicate LeadsBack(previous: seq<Option<nat>>, q: seq<nat>) {
    forall i {:trigger Before(q, i)} :: 0 <= i < |q| ==> q[i] < |previous| && At(previous, q[i]) == Before(q, i)
  }

  /** The list is exactly the chain `q`. */
  ghost predicate Linked(l: List, q: seq<nat>) {
    && Ordered(q) && |l.previous| == |l.next|
    && l.head == After(q, -1) && l.tail == Before(q, |q|)
    && Leads(l.next, q) && LeadsBack(l.previous, q)
  }

  lemma AppendedOrdered(q: seq<nat>, x: nat)
    requires Ordered(q) && forall y :: y in q ==> y < x
    ensures Ordered(q + [x])
    ensures forall y: nat :: y in q + [x] <==> y in q || y == x
  {
    forall i | 0 <= i < |q| ensures q[i] < x {
      assert q[i] in q;
    }
  }

  lemma AppendedLeads(next: seq<Option<nat>>, q: seq<nat>, x: nat)
    requires Ordered(q) && Leads(next, q) && x == |next|
    ensures Leads((if q == [] then next else Put(next, q[|q| - 1], Some(x))) + [None], q + [x])
  {
    var q', after := q + [x], (if q == [] then next else Put(next, q[|q| - 1], Some(x))) + [None];
    forall i | 0 <= i < |q'| ensures q'[i] < |after| && At(after, q'[i]) == After(q', i) {
      if i < |q| {
        assert q'[i] == q[i] && At(next, q[i]) == After(q, i);
        assert i < |q| - 1 ==> q[i] < q[|q| - 1];
      }
    }
  }

  lemma AppendedLeadsBack(previous: seq<Option<nat>>, q: seq<nat>, x: nat)
    requires LeadsBack(previous, q) && x == |previous|
    ensures LeadsBack(previous + [Before(q, |q|)], q + [x])
  {
    var q', after := q + [x], previous + [Before(q, |q|)];
    forall i | 0 <= i < |q'| ensures q'[i] < |after| && At(after, q'[i]) == Before(q', i) {
      if i < |q| {
        assert q'[i] == q[i] && At(previous, q[i]) == Before(q, i);
      }
    }
  }

  lemma InRange(next: seq<Option<nat>>, q: seq<nat>)
    requires Leads(next, q)
    ensures forall x :: x in q ==> x < |next|
  {
    forall i | 0 <= i < |q| ensures q[i] < |next| {
      assert At(next, q[i]) == After(q, i);
    }
  }

  lemma AppendedLinked(l: List, q: seq<nat>)
    requires Linked(l, q)
    ensures Linked(Appended(l), q + [|l.next|])
  {
    InRange(l.next, q);
    AppendedOrdered(q, |l.next|);
    AppendedLeads(l.next, q, |l.next|);
    AppendedLeadsBack(l.previous, q, |l.next|);
  }

  lemma CutOrdered(q: seq<nat>, k: nat)
    requires Ordered(q) && k <= |q|
    ensures Ordered(q[k..])
  {
  }

  lemma BehindCut(q: seq<nat>, k: nat, i: nat)
    requires Ordered(q) && k < |q| && i < |q|
    ensures q[i] in q[k + 1..] <==> i > k
  {
    var rest := q[k + 1..];
    forall j | 0 <= j < |rest| ensures rest[j] == q[i] <==> k + 1 + j == i {
    }
    assert i > k ==> rest[i - k - 1] == q[i];
  }

  lemma CutLeads(next: seq<Option<nat>>, q: seq<nat>, k: nat)
    requires Leads(next, q) && k <= |q|
    ensures Leads(next, q[k..])
  {
    var rest := q[k..];
    forall i | 0 <= i < |rest| ensures rest[i] < |next| && At(next, rest[i]) == After(rest, i) {
      assert At(next, q[k + i]) == After(q, k + i);
    }
  }

  lemma CutLeadsBack(previous: seq<Option<nat>>, q: seq<nat>, k: nat)
    requires Ordered(q) && LeadsBack(previous, q) && k < |q|
    ensures LeadsBack(Put(previous, q[k], None), q[k..])
  {
    var rest, after := q[k..], Put(previous, q[k], None);
    forall i | 0 <= i < |rest| ensures rest[i] < |after| && At(after, rest[i]) == Before(rest, i) {
      assert At(previous, q[k + i]) == Before(q, k + i);
      assert i > 0 ==> q[k] < q[k + i];
    }
  }

  lemma CutLinked(l: List, q: seq<nat>, k: nat)
    requires Linked(l, q) && k < |q|
    ensures Linked(CutAt(l, q[k]), q[k + 1..])
  {
    assert At(l.next, q[k]) == After(q, k);
    CutOrdered(q, k + 1);
    CutLeads(l.next, q, k + 1);
    if k + 1 < |q| {
      CutLeadsBack(l.previous, q, k + 1);
    }
  }

  lemma PassedBy(next: seq<Option<nat>>, q: seq<nat>, k: nat)
    requires Ordered(q) && Leads(next, q) && k < |q|
    ensures Leads(if k > 0 then Put(next, q[k - 1], After(q, k)) else next, Without(q, k))
  {
    var q', after := Without(q, k), if k > 0 then Put(next, q[k - 1], After(q, k)) else next;
    forall i | 0 <= i < |q'| ensures q'[i] < |after| && At(after, q'[i]) == After(q', i) {
      var j := if i < k then i else i + 1;
      assert q'[i] == q[j] && At(next, q[j]) == After(q, j);
      assert k > 0 && i < k - 1 ==> q[j] < q[k - 1];
      assert k > 0 && i > k - 1 ==> q[k - 1] < q[j];
    }
  }

  lemma PassedBack(previous: seq<Option<nat>>, q: seq<nat>, k: nat)
    requires Ordered(q) && LeadsBack(previous, q) && k < |q|
    ensures LeadsBack(if k + 1 < |q| then Put(previous, q[k + 1], Before(q, k)) else previous, Without(q, k))
  {
    var q', after := Without(q, k), if k + 1 < |q| then Put(previous, q[k + 1], Before(q, k)) else previous;
    forall i | 0 <= i < |q'| ensures q'[i] < |after| && At(after, q'[i]) == Before(q', i) {
      var j := if i < k then i else i + 1;
      assert q'[i] == q[j] && At(previous, q[j]) == Before(q, j);
      assert k + 1 < |q| && i < k ==> q[j] < q[k + 1];
      assert k + 1 < |q| && i > k ==> q[k + 1] < q[j];
    }
  }

  lemma WithoutOrdered(q: seq<nat>, k: nat)
    requires Ordered(q) && k < |q|
    ensures Ordered(Without(q, k))
  {
    var q' := Without(q, k);
    assert forall i :: 0 <= i < |q'| ==> q'[i] == q[if i < k then i else i + 1];
  }

  lemma UnlinkedLinked(l: List, q: seq<nat>, k: nat)
    requires Linked(l, q) && k < |q|
    ensures Linked(Unlinked(l, q[k]), Without(q, k))
  {
    assert At(l.next, q[k]) == After(q, k) && At(l.previous, q[k]) == Before(q, k);
    PassedBy(l.next, q, k);
    PassedBack(l.previous, q, k);
    WithoutOrdered(q, k);
  }

  // ------------------------------------------------------------------ walks

  /** What a walk along the successors finds: it ends where a node has no successor or one that is gone. */
  function Chain(next: seq<Option<nat>>, gone: set<nat>, from: Option<nat>): (q: seq<nat>)
    decreases if from.Some? && from.value < |next| then |next| - from.value else 0
  {
    if from.None? || from.value >= |next| || from.value in gone then []
    else
      var n := next[from.value];
      [from.value] + if n.Some? && n.value > from.value then Chain(next, gone, n) else []
  }

  /** A walk along a chain, up to the first node that is gone, or to the end. */
  lemma {:induction false} ChainAlong(next: seq<Option<nat>>, gone: set<nat>, q: seq<nat>, i: nat, k: nat)
    requires Ordered(q) && Leads(next, q) && i <= k <= |q|
    requires (forall j :: i <= j < k ==> q[j] !in gone) && (k < |q| ==> q[k] in gone)
    ensures Chain(next, gone, After(q, i - 1)) == q[i..k]
    decreases k - i
  {
    if i < |q| {
      assert At(next, q[i]) == After(q, i);
    }
    if i < k {
      ChainAlong(next, gone, q, i + 1, k);
    }
  }

  /** Nodes in front of a walk do not matter to it. */
  lemma {:induction false} ChainIgnores(next: seq<Option<nat>>, gone: set<nat>, from: Option<nat>, x: nat)
    requires from.Some? ==> x < from.value
    ensures Chain(next, gone + {x}, from) == Chain(next, gone, from)
    decreases if from.Some? && from.value < |next| then |next| - from.value else 0
  {
    if from.Some? && from.value < |next| && from.value !in gone {
      var n := next[from.value];
      if n.Some? && n.value > from.value {
        ChainIgnores(next, gone, n, x);
      }
    }
  }

  /** A walk finds the same older nodes behind an append at any node without successor. */
  lemma {:induction false} ChainAppended(next: seq<Option<nat>>, gone: set<nat>, from: Option<nat>, t: nat, x: nat)
    requires t < |next| && next[t].None? && x < |next| && (from.Some? ==> from.value < |next|)
    requires forall y :: 0 <= y < |next| && y !in gone && next[y].Some? ==> next[y].value < |next|
    ensures x in Chain(Put(next, t, Some(|next|)) + [None], gone, from) <==> x in Chain(next, gone, from)
    decreases if from.Some? then |next| - from.value else 0
  {
    if from.Some? && from.value !in gone {
      var n, after := next[from.value], Put(next, t, Some(|next|)) + [None];
      if from.value == t {
        assert Chain(after, gone, from) == [t] + Chain(after, gone, Some(|next|));
      } else if n.Some? && n.value > from.value {
        ChainAppended(next, gone, n, t, x);
        assert Chain(after, gone, from) == [from.value] + Chain(after, gone, n);
      }
    }
  }
}
