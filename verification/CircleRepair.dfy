/** Cutting the circles that no head reaches (linked_helper.cpp, lines 52-102), in the form the code
    has today and in the form that advances along the circle. */
module CircleRepair {
  import opened LinkSpec
  import opened LinkedHelper
  import opened Sequences

  /** `W` are the nodes that are neither in `U` nor the node `x` at hand, in input order. */
  ghost predicate Unused(entries: seq<Entry>, unused: seq<Entry>, W: seq<int>, U: set<int>, x: int) {
    && Refs(entries, unused, W)
    && Increasing(W)
    && (forall i :: 0 <= i < |entries| ==> (i in W <==> i !in U && i != x))
  }

  method CollectUnused(entries: seq<Entry>, used: set<Entry>, ghost U: set<int>)
    returns (unused: seq<Entry>, ghost W: seq<int>)
    requires Marks(entries, used, U)
    ensures Unused(entries, unused, W, U, -1)
  {
    unused, W := [], [];
    for i := 0 to |entries|
      invariant Refs(entries, unused, W) && Increasing(W)
      invariant forall k :: 0 <= k < |W| ==> W[k] < i
      invariant forall j :: 0 <= j < i ==> (j in W <==> j !in U)
    {
      if entries[i] !in used {
        ghost var V := W;
        RefsAppend(entries, unused, W, i);
        unused, W := unused + [entries[i]], W + [i];
        assert W[|V|] == i && forall j :: j in V ==> j in W;
      }
    }
  }

  method IndexOf(unused: seq<Entry>, e: Entry) returns (k: int)
    ensures -1 <= k < |unused|
    ensures k >= 0 ==> unused[k] == e
    ensures k < 0 ==> e !in unused
  {
    for i := 0 to |unused|
      invariant e !in unused[..i]
    {
      if unused[i] == e {
        return i;
      }
    }
    return -1;
  }

  lemma RemoveUnused(entries: seq<Entry>, unused: seq<Entry>, W: seq<int>, U: set<int>, x: int, k: nat)
    requires Unused(entries, unused, W, U, x) && k < |unused|
    ensures Unused(entries, unused[..k] + unused[k + 1..], Without(W, k), U + (if x < 0 then {} else {x}), W[k])
  {
    var V := Without(W, k);
    forall i | 0 <= i < |entries| ensures i in V <==> i in W && i != W[k] {
      if i in W && i != W[k] {
        var j :| 0 <= j < |W| && W[j] == i;
        assert V[if j < k then j else j - 1] == i;
      }
    }
  }

  /** The predecessor map after cutting some of the circles of `P0`. */
  ghost predicate CutSome(P0: seq<int>, P: seq<int>, H: seq<int>) {
    && Links(P0) && |P| == |P0|
    && forall i :: 0 <= i < |P| ==> P[i] == P0[i] || (P[i] == -1 && CutPoint(P0, i) && i in H)
  }

  /** The node removed first is the first one of its circle. */
  lemma FirstUnusedIsCutPoint(P0: seq<int>, P: seq<int>, H: seq<int>, W: set<int>, h: int)
    requires CutSome(P0, P, H) && h in W
    requires Within(W, |P|) && forall w {:trigger P[w]} :: w in W ==> h <= w && P[w] >= 0 && P[w] in W
    ensures CutPoint(P0, h) && P0[h] >= 0
  {
    forall k: nat ensures Back(P0, h, k) >= h {
      StaysUnused(P0, P, H, W, h, k);
      assert P[Back(P0, h, k)] in W;
    }
    assert P[h] in W;
    RootedXorCircle(P0, h);
  }

  lemma {:induction false} StaysUnused(P0: seq<int>, P: seq<int>, H: seq<int>, W: set<int>, h: int, k: nat)
    requires CutSome(P0, P, H) && h in W
    requires Within(W, |P|) && forall w {:trigger P[w]} :: w in W ==> P[w] >= 0 && P[w] in W
    ensures Back(P0, h, k) in W
    decreases k
  {
    if k > 0 {
      StaysUnused(P0, P, H, W, h, k - 1);
      assert P[Back(P0, h, k - 1)] in W;
      BackLast(P0, h, k - 1);
    }
  }

  /** Heads in rank order, all of rank below the cut points still to come. */
  ghost predicate Ranked(P0: seq<int>, H: seq<int>, bound: int)
    requires Links(P0)
  {
    && (forall k :: 0 <= k < |H| ==> 0 <= H[k] < |P0|)
    && (forall k, l :: 0 <= k < l < |H| ==> Rank(P0, H[k]) < Rank(P0, H[l]))
    && (forall k :: 0 <= k < |H| ==> Rank(P0, H[k]) < |P0| + bound)
  }

  ghost predicate OpenAre(P: seq<int>, H: seq<int>) {
    && (forall k :: 0 <= k < |H| ==> 0 <= H[k] < |P| && P[H[k]] < 0)
    && (forall i :: 0 <= i < |P| && P[i] < 0 ==> i in H)
  }

  /** The state of the circle search between two circles: `U` is settled, `W` is still on circles. */
  ghost predicate Searching(P0: seq<int>, P: seq<int>, N: seq<int>, U: set<int>, W: seq<int>, H: seq<int>)
  {
    && CutSome(P0, P, H) && Mutual(P, N) && Closed(P, N, U) && Links(P) && AllRooted(P, U)
    && Increasing(W)
    && (forall i :: 0 <= i < |P| ==> (i in W <==> i !in U))
    && (forall k :: 0 <= k < |W| ==> 0 <= W[k] < |P| && P[W[k]] >= 0)
    && OpenAre(P, H) && Ranked(P0, H, if |W| > 0 then W[0] else |P0|)
  }

  ghost predicate SearchIn(P0: seq<int>, s: State, U: set<int>, W: seq<int>, H: seq<int>) {
    match s case State(P, N, _, _) => Searching(P0, P, N, U, W, H)
  }

  lemma UnusedNode(P0: seq<int>, P: seq<int>, N: seq<int>, U: set<int>, W: seq<int>, H: seq<int>, w: int)
    requires Searching(P0, P, N, U, W, H) && w in W
    ensures 0 <= W[0] <= w < |P| && P[w] >= 0 && P[w] in W
  {
    var k :| 0 <= k < |W| && W[k] == w;
    assert N[P[w]] == w;
    assert P[w] !in U;
  }

  lemma CutFound(P0: seq<int>, P: seq<int>, N: seq<int>, U: set<int>, W: seq<int>, H: seq<int>)
    requires Searching(P0, P, N, U, W, H) && |W| > 0
    ensures CutPoint(P0, W[0]) && P0[W[0]] >= 0 && P[W[0]] >= 0
  {
    var Ws := set w | w in W;
    forall w | w in Ws {
      UnusedNode(P0, P, N, U, W, H, w);
    }
    assert W[0] in W;
    FirstUnusedIsCutPoint(P0, P, H, Ws, W[0]);
  }

  lemma CutLinks(P: seq<int>, N: seq<int>, U: set<int>, h: int)
    requires Mutual(P, N) && Closed(P, N, U) && 0 <= h < |P| && h !in U && P[h] >= 0
    ensures N[P[h]] == h && Mutual(P[h := -1], N[P[h] := -1]) && Walking(P[h := -1], N[P[h] := -1], U, h)
  {
  }

  /** Opening a node outside `U` leaves the chains inside `U` alone. */
  lemma RootedTransfer(P: seq<int>, U: set<int>, h: int)
    requires Links(P) && ClosedBack(P, U) && AllRooted(P, U) && 0 <= h < |P| && h !in U
    ensures Links(P[h := -1]) && AllRooted(P[h := -1], U)
  {
    forall u | u in U ensures Rooted(P[h := -1], u) {
      var k: nat :| Back(P, u, k) == -1;
      SameBack(P, U, h, u, k);
    }
  }

  lemma {:induction false} SameBack(P: seq<int>, U: set<int>, h: int, u: int, k: nat)
    requires Links(P) && ClosedBack(P, U) && 0 <= h < |P| && h !in U && Links(P[h := -1])
    requires u in U || u == -1
    ensures Back(P[h := -1], u, k) == Back(P, u, k)
    decreases k
  {
    if k > 0 && u >= 0 {
      SameBack(P, U, h, P[u], k - 1);
    }
  }

  lemma CutHeads(P0: seq<int>, P: seq<int>, H: seq<int>, h: int)
    requires CutSome(P0, P, H) && OpenAre(P, H) && Ranked(P0, H, h)
    requires 0 <= h < |P| && P[h] >= 0 && P0[h] >= 0 && CutPoint(P0, h)
    ensures CutSome(P0, P[h := -1], H + [h]) && OpenAre(P[h := -1], H + [h]) && Ranked(P0, H + [h], h + 1)
  {
    var H', P' := H + [h], P[h := -1];
    assert H'[|H|] == h;
    forall i | i in H ensures i in H' {
      var k :| 0 <= k < |H| && H[k] == i;
      assert H'[k] == i;
    }
  }

  /** Cut the circle in front of `head`. */
  method CutHead(entries: seq<Entry>, head: Entry, ghost P: seq<int>, ghost N: seq<int>, ghost ids: seq<nat>,
    ghost mods: seq<bool>, ghost h: int)
    returns (log: seq<LogMessage>)
    requires Shape(entries, P, N) && Fields(entries, ids, mods)
    requires 0 <= h < |P| && head == entries[h] && P[h] >= 0
    modifies entries
    ensures Shape(entries, P[h := -1], N[P[h] := -1])
    ensures Fields(entries, ids[h := 0], mods[h := true])
    ensures log != []
  {
    log := [CutCircle(head.previous.entryId, head.entryId)];
    Unlink(entries, head, P, N, h);
    SetPreviousId(entries, head, 0, h, ids, mods);
  }

  method Unlink(entries: seq<Entry>, head: Entry, ghost P: seq<int>, ghost N: seq<int>, ghost h: int)
    requires Shape(entries, P, N) && 0 <= h < |P| && head == entries[h] && P[h] >= 0
    modifies entries`next, entries`previous
    ensures Shape(entries, P[h := -1], N[P[h] := -1])
  {
    if head.previous.next == head {
      head.previous.next := null;
    }
    head.previous := null;
  }

  /** The inner loop with `head = head->next` in it: follow the opened circle and take its nodes out of
      `unused`. Every node met is still unused, so the "already used" exit is never taken. */
  method FollowCircle(entries: seq<Entry>, start: Entry, unused: seq<Entry>, ghost P: seq<int>, ghost N: seq<int>,
    ghost U: set<int>, ghost W: seq<int>, ghost h: int)
    returns (ok: bool, unused': seq<Entry>, log: seq<LogMessage>, ghost U': set<int>, ghost W': seq<int>)
    requires Shape(entries, P, N) && Walking(P, N, U, h) && h >= 0 && start == entries[h]
    requires Unused(entries, unused, W, U, h)
    requires Links(P) && AllRooted(P, U) && P[h] < 0
    ensures ok && log == []
    ensures Closed(P, N, U') && U <= U' && h in U' && AllRooted(P, U')
    ensures Unused(entries, unused', W', U', -1) && |unused'| <= |unused|
  {
    var head := start;
    ghost var x := h;
    unused', log, U', W' := unused, [], U, W;
    while head.next != null
      invariant Walking(P, N, U', x) && x >= 0 && head == entries[x]
      invariant Unused(entries, unused', W', U', x) && |unused'| <= |unused|
      invariant U <= U' && (h in U' || x == h) && AllRooted(P, U')
      decreases |unused'|
    {
      var reused := ReusedNode(head.entryId);
      WalkStep(P, N, U', x);
      RootedStep(P, U', x);
      var k := IndexOf(unused', head.next);
      assert N[x] in W';
      ghost var j :| 0 <= j < |W'| && W'[j] == N[x];
      assert unused'[j] == head.next;
      if k < 0 {
        assert false;
        return false, unused', [reused], U', W';
      }
      assert W'[k] == N[x];
      RemoveUnused(entries, unused', W', U', x, k);
      unused', W' := unused'[..k] + unused'[k + 1..], Without(W', k);
      U', x := U' + {x}, N[x];
      head := head.next;
    }
    WalkStep(P, N, U', x);
    RootedStep(P, U', x);
    ok, U' := true, U' + {x};
  }

  lemma SearchResumes(P0: seq<int>, P: seq<int>, N: seq<int>, U: set<int>, W: seq<int>, H: seq<int>, P': seq<int>,
    N': seq<int>, U': set<int>, W': seq<int>)
    requires Searching(P0, P, N, U, W, H) && |W| > 0
    requires P' == P[W[0] := -1] && Mutual(P', N') && CutSome(P0, P', H + [W[0]])
    requires OpenAre(P', H + [W[0]]) && Ranked(P0, H + [W[0]], W[0] + 1)
    requires Closed(P', N', U') && U <= U' && W[0] in U' && Increasing(W')
    requires Links(P') && AllRooted(P', U')
    requires forall k :: 0 <= k < |W'| ==> 0 <= W'[k] < |P|
    requires forall i :: 0 <= i < |P| ==> (i in W' <==> i !in U')
    ensures Searching(P0, P', N', U', W', H + [W[0]])
  {
    forall k | 0 <= k < |W'| ensures P'[W'[k]] >= 0 && W'[k] > W[0] {
      assert W'[k] in W' && W'[k] !in U';
      assert W'[k] in W;
    }
  }

  /** Exactly the nodes whose link was cut since `P0` have their `previous_id` cleared and are marked. */
  ghost predicate Marked(P0: seq<int>, P: seq<int>, ids0: seq<nat>, ids: seq<nat>, mods0: seq<bool>, mods: seq<bool>) {
    && |P0| == |P| == |ids0| == |ids| == |mods0| == |mods|
    && forall i :: 0 <= i < |P| ==>
      && ids[i] == (if P[i] != P0[i] then 0 else ids0[i])
      && mods[i] == (mods0[i] || P[i] != P0[i])
  }

  lemma MarkedStep(P0: seq<int>, P: seq<int>, ids0: seq<nat>, ids: seq<nat>, mods0: seq<bool>, mods: seq<bool>, h: int)
    requires Marked(P0, P, ids0, ids, mods0, mods) && 0 <= h < |P| && P0[h] >= 0
    ensures Marked(P0, P[h := -1], ids0, ids[h := 0], mods0, mods[h := true])
  {
  }

  ghost function AfterCut(s: State, h: int): State
    requires 0 <= h < |s.P| == |s.N| == |s.ids| == |s.mods| && 0 <= s.P[h] < |s.N|
  {
    State(s.P[h := -1], s.N[s.P[h] := -1], s.ids[h := 0], s.mods[h := true])
  }

  /** The search behind the cut in front of its first unused node. */
  ghost predicate Opened(P0: seq<int>, s: State, U: set<int>, W: seq<int>, H: seq<int>)
    requires |W| > 0
  {
    match s case State(P, N, _, _) =>
      && Links(P0) && 0 <= W[0] < |P0| && CutPoint(P0, W[0]) && P0[W[0]] >= 0
      && CutSome(P0, P, H + [W[0]]) && OpenAre(P, H + [W[0]]) && Ranked(P0, H + [W[0]], W[0] + 1)
      && Links(P) && AllRooted(P, U) && Walking(P, N, U, W[0])
  }

  lemma CutOpens(P0: seq<int>, s: State, U: set<int>, W: seq<int>, H: seq<int>)
    requires SearchIn(P0, s, U, W, H) && W != []
    requires |s.P| == |s.N| == |s.ids| == |s.mods|
    ensures 0 <= W[0] < |s.P| && 0 <= s.P[W[0]] < |s.N| && Opened(P0, AfterCut(s, W[0]), U, W, H)
  {
    CutFound(P0, s.P, s.N, U, W, H);
    CutLinks(s.P, s.N, U, W[0]);
    CutHeads(P0, s.P, H, W[0]);
    RootedTransfer(s.P, U, W[0]);
  }

  lemma TakeFirst(entries: seq<Entry>, left: seq<Entry>, W: seq<int>, U: set<int>)
    requires Unused(entries, left, W, U, -1) && left != []
    ensures |W| == |left| && Unused(entries, left[1..], Without(W, 0), U, W[0])
  {
    RemoveUnused(entries, left, W, U, -1, 0);
    assert left[..0] + left[1..] == left[1..] && U + {} == U;
  }

  /** The first half of a round: take the first unused node and cut its circle in front of it. */
  method OpenCircle(entries: seq<Entry>, left: seq<Entry>, ghost P0: seq<int>, ghost s: State, ghost U: set<int>,
    ghost W: seq<int>, ghost H: seq<int>)
    returns (head: Entry, left': seq<Entry>, log: seq<LogMessage>, ghost s': State)
    requires InState(entries, s) && left != []
    requires Unused(entries, left, W, U, -1) && SearchIn(P0, s, U, W, H)
    modifies entries
    ensures s' == AfterCut(s, W[0]) && InState(entries, s') && head == entries[W[0]] && log != []
    ensures Opened(P0, s', U, W, H)
    ensures Unused(entries, left', Without(W, 0), U, W[0]) && |left'| == |left| - 1
  {
    head := left[0];
    left' := left[1..];
    CutOpens(P0, s, U, W, H);
    TakeFirst(entries, left, W, U);
    log := CutHead(entries, head, s.P, s.N, s.ids, s.mods, W[0]);
    s' := AfterCut(s, W[0]);
  }

  /** One round of the advancing circle loop. */
  method AdvancingRound(entries: seq<Entry>, left: seq<Entry>, ghost P0: seq<int>, ghost s: State, ghost U: set<int>,
    ghost W: seq<int>, ghost H: seq<int>)
    returns (ok: bool, head: Entry, left': seq<Entry>, log: seq<LogMessage>,
             ghost s': State, ghost U': set<int>, ghost W': seq<int>)
    requires InState(entries, s) && left != []
    requires Unused(entries, left, W, U, -1) && SearchIn(P0, s, U, W, H)
    modifies entries
    ensures ok && s' == AfterCut(s, W[0]) && InState(entries, s') && head == entries[W[0]] && log != []
    ensures Unused(entries, left', W', U', -1) && SearchIn(P0, s', U', W', H + [W[0]])
    ensures |left'| < |left| && P0[W[0]] >= 0
  {
    head, left', log, s' := OpenCircle(entries, left, P0, s, U, W, H);
    var more;
    ok, left', more, U', W' := FollowCircle(entries, head, left', s'.P, s'.N, U, Without(W, 0), W[0]);
    log := log + more;
    SearchResumes(P0, s.P, s.N, U, W, H, s'.P, s'.N, U', W');
  }

  /** The circle loop, advancing along each circle: it always succeeds and opens every circle. */
  method CutCirclesAdvancing(entries: seq<Entry>, unused: seq<Entry>, heads: seq<Entry>, ghost s0: State,
    ghost U0: set<int>, ghost W0: seq<int>, ghost H0: seq<int>)
    returns (ok: bool, heads': seq<Entry>, log: seq<LogMessage>, ghost s: State, ghost U: set<int>, ghost H: seq<int>)
    requires InState(entries, s0) && Refs(entries, heads, H0)
    requires Unused(entries, unused, W0, U0, -1) && SearchIn(s0.P, s0, U0, W0, H0)
    modifies entries
    ensures ok
    ensures InState(entries, s) && Refs(entries, heads', H)
    ensures SearchIn(s0.P, s, U, [], H)
    ensures Marked(s0.P, s.P, s0.ids, s.ids, s0.mods, s.mods)
    ensures log == [] <==> unused == []
  {
    var left := unused;
    heads', log, s, U, H := heads, [], s0, U0, H0;
    ghost var W := W0;
    while left != []
      invariant InState(entries, s) && Refs(entries, heads', H)
      invariant Unused(entries, left, W, U, -1) && SearchIn(s0.P, s, U, W, H)
      invariant Marked(s0.P, s.P, s0.ids, s.ids, s0.mods, s.mods)
      invariant log == [] <==> left == unused
      invariant |left| < |unused| || left == unused
      decreases |left|
    {
      CutFound(s0.P, s.P, s.N, U, W, H);
      MarkedStep(s0.P, s.P, s0.ids, s.ids, s0.mods, s.mods, W[0]);
      RefsAppend(entries, heads', H, W[0]);
      var head, messages;
      H := H + [W[0]];
      ok, head, left, messages, s, U, W := AdvancingRound(entries, left, s0.P, s, U, W, H[..|H| - 1]);
      log, heads' := log + messages, heads' + [head];
      if !ok {
        return;
      }
    }
    ok := true;
    assert W == [];
  }

  /** The inner loop as written: `head` is never advanced, so it can only end when `head` has no
      successor; otherwise the second look for the same successor fails. */
  method RecheckSuccessor(head: Entry, unused: seq<Entry>) returns (ok: bool, unused': seq<Entry>, log: seq<LogMessage>)
    ensures ok <==> head.next == null
    ensures ok ==> unused' == unused && log == []
  {
    unused' := unused;
    while head.next != null
      invariant head.next == null ==> unused' == unused
      decreases |unused'|
    {
      var k := IndexOf(unused', head.next);
      if k >= 0 {
        unused' := unused'[..k] + unused'[k + 1..];
      } else {
        return false, unused', [ReusedNode(head.entryId)];
      }
    }
    return true, unused', [];
  }

  /** A cut node that is left without any neighbour. */
  ghost predicate Isolated(P0: seq<int>, s: State, h: int)
    requires Links(P0)
  {
    0 <= h < |P0| == |s.P| == |s.N| && CutPoint(P0, h) && s.P[h] < 0 && s.N[h] < 0
  }

  /** Cutting a circle of two or more nodes never isolates one. */
  lemma NeverIsolated(P0: seq<int>, s: State, H: seq<int>, h: int)
    requires CutSome(P0, s.P, H) && Mutual(s.P, s.N) && forall i :: 0 <= i < |P0| ==> P0[i] != i
    ensures !Isolated(P0, s, h)
  {
    if Isolated(P0, s, h) {
      var n, k := CircleHasSuccessor(P0, h);
      BackLast(P0, n, 0);
    }
  }

  /** One round of the circle loop as written. */
  method WrittenRound(entries: seq<Entry>, left: seq<Entry>, ghost P0: seq<int>, ghost s: State, ghost U: set<int>,
    ghost W: seq<int>, ghost H: seq<int>)
    returns (ok: bool, head: Entry, left': seq<Entry>, log: seq<LogMessage>,
             ghost s': State, ghost U': set<int>, ghost W': seq<int>)
    requires InState(entries, s) && left != []
    requires Unused(entries, left, W, U, -1) && SearchIn(P0, s, U, W, H)
    modifies entries
    ensures s' == AfterCut(s, W[0]) && InState(entries, s') && log != []
    ensures ok ==> Isolated(P0, s', W[0]) && head == entries[W[0]]
    ensures ok ==> Unused(entries, left', W', U', -1) && SearchIn(P0, s', U', W', H + [W[0]])
    ensures ok ==> |left'| < |left|
  {
    head, left', log, s' := OpenCircle(entries, left, P0, s, U, W, H);
    var more;
    ok, left', more := RecheckSuccessor(head, left');
    log := log + more;
    U', W' := U + {W[0]}, Without(W, 0);
    if ok {
      WalkStep(s'.P, s'.N, U, W[0]);
      RootedStep(s'.P, U, W[0]);
      SearchResumes(P0, s.P, s.N, U, W, H, s'.P, s'.N, U', W');
    }
  }

  /** The circle loop as written: it fails as soon as there is any unused node. */
  method CutCirclesAsWritten(entries: seq<Entry>, unused: seq<Entry>, heads: seq<Entry>, ghost s0: State,
    ghost U0: set<int>, ghost W0: seq<int>, ghost H0: seq<int>)
    returns (ok: bool, heads': seq<Entry>, log: seq<LogMessage>, ghost s: State)
    requires InState(entries, s0) && Refs(entries, heads, H0)
    requires Unused(entries, unused, W0, U0, -1) && SearchIn(s0.P, s0, U0, W0, H0)
    requires forall i :: 0 <= i < |s0.P| ==> s0.P[i] != i
    modifies entries
    ensures ok <==> unused == []
    ensures ok ==> heads' == heads && log == [] && s == s0
    ensures InState(entries, s) && (!ok ==> log != [])
  {
    var left := unused;
    heads', log, s := heads, [], s0;
    ghost var U, W, H := U0, W0, H0;
    while left != []
      invariant InState(entries, s)
      invariant Unused(entries, left, W, U, -1) && SearchIn(s0.P, s, U, W, H)
      invariant if left == unused then s == s0 && heads' == heads && log == []
                else exists h :: Isolated(s0.P, s, h)
      decreases |left|
    {
      var head, messages;
      ghost var h, before := W[0], s;
      ok, head, left, messages, s, U, W := WrittenRound(entries, left, s0.P, s, U, W, H);
      log := log + messages;
      if !ok {
        return;
      }
      heads', H := heads' + [head], H + [h];
    }
    ok := true;
    if unused != [] {
      ghost var h :| Isolated(s0.P, s, h);
      NeverIsolated(s0.P, s, H, h);
    }
  }
}
