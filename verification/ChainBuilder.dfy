/** Joining the open chains and the whole of build_chain (linked_helper.cpp). */
module ChainBuilder {
  import opened LinkSpec
  import opened LinkedHelper
  import opened Sequences
  import opened CircleRepair

  /** `order` is a path of the predecessor map `P`, from an open node on. */
  ghost predicate Path(P: seq<int>, order: seq<int>) {
    && |order| > 0
    && (forall k :: 0 <= k < |order| ==> 0 <= order[k] < |P|)
    && (forall k {:trigger Predecessor(order, k)} :: 0 <= k < |order| ==> P[order[k]] == Predecessor(order, k))
  }

  lemma {:induction false} PathDistinct(P: seq<int>, order: seq<int>, k: nat, l: nat)
    requires Path(P, order) && k < l < |order|
    ensures order[k] != order[l]
    decreases k
  {
    assert P[order[k]] == Predecessor(order, k) && P[order[l]] == Predecessor(order, l);
    if k > 0 {
      PathDistinct(P, order, k - 1, l - 1);
    }
  }

  ghost predicate Complete(N: seq<int>, order: seq<int>)
  {
    |order| > 0 && 0 <= order[|order| - 1] < |N| && N[order[|order| - 1]] < 0
  }

  lemma PathSuccessors(P: seq<int>, N: seq<int>, order: seq<int>, k: nat)
    requires Mutual(P, N) && Path(P, order) && k + 1 < |order|
    ensures N[order[k]] == order[k + 1]
  {
    assert P[order[k + 1]] == Predecessor(order, k + 1);
  }

  lemma PathExtend(P: seq<int>, N: seq<int>, order: seq<int>)
    requires Mutual(P, N) && Path(P, order) && N[order[|order| - 1]] >= 0
    ensures Path(P, order + [N[order[|order| - 1]]])
  {
    var o := order + [N[order[|order| - 1]]];
    forall k | 0 <= k < |o| ensures P[o[k]] == Predecessor(o, k) {
      if k < |order| {
        assert P[order[k]] == Predecessor(order, k);
      }
    }
  }

  /** Follow the successors up to the entry that has none. */
  method WalkToTail(entries: seq<Entry>, start: Entry, ghost P: seq<int>, ghost N: seq<int>, ghost order: seq<int>)
    returns (tail: Entry, ghost order': seq<int>)
    requires Shape(entries, P, N) && Path(P, order) && start == entries[order[|order| - 1]]
    ensures Path(P, order') && order <= order' && Complete(N, order')
    ensures tail == entries[order'[|order'| - 1]]
  {
    tail, order' := start, order;
    while tail.next != null
      invariant Path(P, order') && order <= order' && tail == entries[order'[|order'| - 1]]
      decreases |P| - |order'|
    {
      PathExtend(P, N, order');
      PathShort(P, order' + [N[order'[|order'| - 1]]]);
      order' := order' + [N[order'[|order'| - 1]]];
      tail := tail.next;
    }
  }

  lemma PathShort(P: seq<int>, order: seq<int>)
    requires Path(P, order)
    ensures |order| <= |P|
  {
    if |order| > |P| {
      var a, b := Pigeonhole(order, |P|);
      PathDistinct(P, order, a, b);
    }
  }

  /** The open nodes of a path, in path order. */
  ghost function OpenIn(P: seq<int>, order: seq<int>): seq<int>
    requires forall k :: 0 <= k < |order| ==> 0 <= order[k] < |P|
  {
    if order == [] then []
    else
      var last := order[|order| - 1];
      OpenIn(P, order[..|order| - 1]) + if P[last] < 0 then [last] else []
  }

  lemma {:induction false} OpenInExtend(P: seq<int>, order: seq<int>, order': seq<int>)
    requires order <= order' && forall k :: 0 <= k < |order'| ==> 0 <= order'[k] < |P|
    requires forall k :: |order| < k < |order'| ==> P[order'[k]] >= 0
    requires |order| < |order'| ==> P[order'[|order|]] < 0
    ensures OpenIn(P, order') == OpenIn(P, order) + if |order| < |order'| then [order'[|order|]] else []
    decreases |order'|
  {
    if |order| < |order'| {
      var shorter := order'[..|order'| - 1];
      OpenInExtend(P, order, shorter);
    } else {
      assert order' == order;
    }
  }

  /** The open nodes of a path, by their positions. */
  lemma {:induction false} OpenInPositions(P: seq<int>, order: seq<int>, k: nat) returns (a: nat)
    requires forall l :: 0 <= l < |order| ==> 0 <= order[l] < |P|
    requires k < |order| && P[order[k]] < 0
    ensures a < |OpenIn(P, order)| && OpenIn(P, order)[a] == order[k]
    ensures a == |OpenIn(P, order[..k])|
    decreases |order|
  {
    var shorter := order[..|order| - 1];
    if k < |shorter| {
      a := OpenInPositions(P, shorter, k);
      assert shorter[..k] == order[..k];
    } else {
      a := |OpenIn(P, shorter)|;
    }
  }

  lemma {:induction false} OpenInMonotone(P: seq<int>, order: seq<int>, k: nat, l: nat)
    requires forall i :: 0 <= i < |order| ==> 0 <= order[i] < |P|
    requires k < l <= |order| && P[order[k]] < 0
    ensures |OpenIn(P, order[..k])| < |OpenIn(P, order[..l])|
    decreases l
  {
    assert order[..l][..l - 1] == order[..l - 1];
    if k < l - 1 {
      OpenInMonotone(P, order, k, l - 1);
    }
  }

  lemma {:induction false} OpenInMembers(P: seq<int>, order: seq<int>, a: nat)
    requires forall i :: 0 <= i < |order| ==> 0 <= order[i] < |P|
    requires a < |OpenIn(P, order)|
    ensures OpenIn(P, order)[a] in order && P[OpenIn(P, order)[a]] < 0
    decreases |order|
  {
    var shorter := order[..|order| - 1];
    if a < |OpenIn(P, shorter)| {
      OpenInMembers(P, shorter, a);
    }
  }

  ghost predicate HeadsOf(P: seq<int>, R: seq<int>, H: seq<int>) {
    && |R| == |P| && |H| > 0 && OpenAre(P, H)
    && forall k, l :: 0 <= k < l < |H| ==> H[k] != H[l] && R[H[k]] < R[H[l]]
  }

  /** Nodes whose predecessor was set since `P` point at it by id and are marked; all others are unchanged. */
  ghost predicate Appended(recs: seq<Record>, P: seq<int>, s0: State, s: State) {
    match s case State(Q, _, ids, mods) =>
      && |recs| == |P| == |Q| == |ids| == |mods| == |s0.ids| == |s0.mods|
      && forall i :: 0 <= i < |P| ==>
        if Q[i] == P[i] then ids[i] == s0.ids[i] && mods[i] == s0.mods[i]
        else 0 <= Q[i] < |P| && P[i] < 0 && ids[i] == recs[Q[i]].id && mods[i]
  }

  /** The first `m` heads and everything that hangs on them form the path `order`. */
  ghost predicate Joined(P: seq<int>, s: State, order: seq<int>, H: seq<int>, m: nat) {
    match s case State(Q, N, _, _) =>
      && 1 <= m <= |H| && |Q| == |P|
      && Path(Q, order) && Complete(N, order)
      && OpenIn(P, order) == H[..m]
      && (forall k :: m <= k < |H| ==> 0 <= H[k] < |P| && Q[H[k]] < 0)
  }

  /** Links set since `P` start at nodes that were open. */
  ghost predicate Extends(P: seq<int>, Q: seq<int>) {
    |P| == |Q| && forall i :: 0 <= i < |P| ==> Q[i] == P[i] || P[i] < 0 <= Q[i]
  }

  lemma FirstJoined(P: seq<int>, R: seq<int>, s: State, order: seq<int>, H: seq<int>)
    requires HeadsOf(P, R, H) && s.P == P
    requires Path(s.P, order) && Complete(s.N, order) && order[0] == H[0]
    ensures Joined(P, s, order, H, 1)
  {
    forall k | 0 < k < |order| ensures P[order[k]] >= 0 {
      assert P[order[k]] == Predecessor(order, k);
    }
    OpenInExtend(P, [], order);
    assert H[..1] == [H[0]];
  }

  /** The heads still to come are not in the path. */
  lemma HeadNotJoined(P: seq<int>, R: seq<int>, s: State, order: seq<int>, H: seq<int>, m: nat, k: nat)
    requires HeadsOf(P, R, H) && Joined(P, s, order, H, m) && m <= k < |H|
    ensures H[k] !in order
  {
    if l :| 0 <= l < |order| && order[l] == H[k] {
      var a := OpenInPositions(P, order, l);
    }
  }

  /** The nodes behind a freshly appended head are not open. */
  lemma OnlyHeadOpens(P: seq<int>, R: seq<int>, s: State, order: seq<int>, H: seq<int>, m: nat, s': State,
    order': seq<int>, k: nat)
    requires HeadsOf(P, R, H) && Joined(P, s, order, H, m) && m < |H| && Extends(P, s.P)
    requires s'.P == s.P[H[m] := order[|order| - 1]] && Path(s'.P, order')
    requires order <= order' && |order| < k < |order'| && order'[|order|] == H[m]
    ensures P[order'[k]] >= 0
  {
    assert s'.P[order'[k]] == Predecessor(order', k);
    PathDistinct(s'.P, order', |order|, k);
    if P[order'[k]] < 0 {
      assert order'[k] in H;
      var j :| 0 <= j < |H| && H[j] == order'[k];
      if j < m {
        OpenInMembers(P, order, j);
        var l :| 0 <= l < |order| && order[l] == H[j];
        PathDistinct(s'.P, order', l, k);
      }
    }
  }

  lemma NextJoined(P: seq<int>, R: seq<int>, s: State, order: seq<int>, H: seq<int>, m: nat, s': State,
    order': seq<int>)
    requires HeadsOf(P, R, H) && Joined(P, s, order, H, m) && m < |H| && Extends(P, s.P)
    requires s'.P == s.P[H[m] := order[|order| - 1]]
    requires Path(s'.P, order') && Complete(s'.N, order') && order <= order'
    requires |order'| > |order| && order'[|order|] == H[m]
    ensures Joined(P, s', order', H, m + 1)
  {
    forall k | |order| < k < |order'| ensures P[order'[k]] >= 0 {
      OnlyHeadOpens(P, R, s, order, H, m, s', order', k);
    }
    OpenInExtend(P, order, order');
    assert H[..m + 1] == H[..m] + [H[m]];
  }

  /** In the joined path the open nodes are ranked. */
  lemma JoinedRanks(P: seq<int>, R: seq<int>, s: State, order: seq<int>, H: seq<int>, k: nat, l: nat)
    requires HeadsOf(P, R, H) && Joined(P, s, order, H, |H|)
    requires k < l < |order| && P[order[k]] < 0 && P[order[l]] < 0
    ensures R[order[k]] < R[order[l]]
  {
    var a := OpenInPositions(P, order, k);
    var b := OpenInPositions(P, order, l);
    OpenInMonotone(P, order, k, l);
    assert H[..|H|] == H;
  }

  /** Everything that hangs on a joined head is in the joined path. */
  lemma {:induction false} RootedIsJoined(P: seq<int>, R: seq<int>, s: State, order: seq<int>, H: seq<int>, y: int,
    k: nat)
    requires Links(P) && HeadsOf(P, R, H) && Joined(P, s, order, H, |H|) && Mutual(s.P, s.N) && Extends(P, s.P)
    requires 0 <= y < |P| && Back(P, y, k) == -1
    ensures y in order
    decreases k
  {
    if P[y] < 0 {
      assert y in H;
      var j :| 0 <= j < |H| && H[j] == y;
      assert H[..|H|] == H;
      OpenInMembers(P, order, j);
    } else {
      RootedIsJoined(P, R, s, order, H, P[y], k - 1);
      var j :| 0 <= j < |order| && order[j] == P[y];
      assert s.N[order[j]] == y;
      if j + 1 < |order| {
        PathSuccessors(s.P, s.N, order, j);
      }
    }
  }

  lemma AllJoined(P: seq<int>, R: seq<int>, s: State, order: seq<int>, H: seq<int>)
    requires Links(P) && HeadsOf(P, R, H) && Joined(P, s, order, H, |H|) && Mutual(s.P, s.N) && Extends(P, s.P)
    requires forall y :: 0 <= y < |P| ==> Rooted(P, y)
    ensures Permutation(order, |P|)
  {
    PathShort(s.P, order);
    forall k, l | 0 <= k < l < |order| ensures order[k] != order[l] {
      PathDistinct(s.P, order, k, l);
    }
    forall y | 0 <= y < |P| ensures y in order {
      assert Rooted(P, y);
      var k: nat :| Back(P, y, k) == -1;
      RootedIsJoined(P, R, s, order, H, y, k);
    }
    if |order| < |P| {
      var f := seq(|P|, y requires 0 <= y < |P| => PositionOf(order, y));
      var a, b := Pigeonhole(f, |order|);
    }
  }

  lemma AppendedStep(recs: seq<Record>, P: seq<int>, s0: State, s: State, h: int, t: int)
    requires Appended(recs, P, s0, s) && 0 <= h < |P| && 0 <= t < |P| && P[h] < 0
    ensures Appended(recs, P, s0,
        s.(P := s.P[h := t], N := s.N, ids := s.ids[h := recs[t].id], mods := s.mods[h := true]))
  {
  }

  ghost function AfterAppend(recs: seq<Record>, s: State, h: int, t: int): State
    requires 0 <= h < |s.P| == |s.ids| == |s.mods| == |s.N| == |recs| && 0 <= t < |s.N|
  {
    State(s.P[h := t], s.N[t := h], s.ids[h := recs[t].id], s.mods[h := true])
  }

  /** Append one open begin to the current tail and walk to the new tail. */
  method AppendChain(entries: seq<Entry>, localHead: Entry, tail: Entry, ghost recs: seq<Record>, ghost s: State,
    ghost order: seq<int>, ghost h: int)
    returns (tail': Entry, log: seq<LogMessage>, ghost s': State, ghost order': seq<int>)
    requires InState(entries, s) && SameIds(entries, recs)
    requires Path(s.P, order) && Complete(s.N, order) && tail == entries[order[|order| - 1]]
    requires 0 <= h < |s.P| && localHead == entries[h] && s.P[h] < 0 && h !in order
    modifies entries
    ensures s' == AfterAppend(recs, s, h, order[|order| - 1]) && InState(entries, s')
    ensures Path(s'.P, order') && Complete(s'.N, order') && order <= order'
    ensures |order'| > |order| && order'[|order|] == h
    ensures tail' == entries[order'[|order'| - 1]] && log != []
  {
    ghost var t := order[|order| - 1];
    log := [AppendedOpenBegin(localHead.entryId, tail.entryId)];
    SetPreviousId(entries, localHead, tail.entryId, h, s.ids, s.mods);
    SetLink(entries, tail, localHead, s.P, s.N, t, h);
    s' := AfterAppend(recs, s, h, t);
    PathAfterAppend(s, s', recs, order, h);
    tail', order' := WalkToTail(entries, tail, s'.P, s'.N, order);
    NextIsHead(s'.P, s'.N, order, order', h);
  }

  /** A complete path that extends an incomplete one continues with the successor of its end. */
  lemma NextIsHead(P: seq<int>, N: seq<int>, order: seq<int>, order': seq<int>, h: int)
    requires Mutual(P, N) && Path(P, order) && Path(P, order') && order <= order' && Complete(N, order')
    requires N[order[|order| - 1]] == h >= 0
    ensures |order'| > |order| && order'[|order|] == h
  {
    assert order' != order;
    assert |order'| == |order| ==> order' == order;
    assert P[order'[|order|]] == Predecessor(order', |order|);
  }

  lemma PathAfterAppend(s: State, s': State, recs: seq<Record>, order: seq<int>, h: int)
    requires Path(s.P, order) && |s.P| == |s.N| == |s.ids| == |s.mods| == |recs|
    requires 0 <= h < |s.P| && h !in order && s' == AfterAppend(recs, s, h, order[|order| - 1])
    ensures Path(s'.P, order)
  {
    forall k | 0 <= k < |order| ensures s'.P[order[k]] == Predecessor(order, k) {
      assert s.P[order[k]] == Predecessor(order, k);
    }
  }

  /** What joining works on: the records, the state to start from, the ranks and the heads. */
  datatype Plan = Plan(recs: seq<Record>, s0: State, R: seq<int>, H: seq<int>)

  ghost predicate Sound(entries: seq<Entry>, plan: Plan) {
    match plan case Plan(recs, s0, R, H) => SameIds(entries, recs) && HeadsOf(s0.P, R, H)
  }

  /** The first `m` heads are joined to the path `order`. */
  ghost predicate JoinIn(plan: Plan, s: State, order: seq<int>, m: nat) {
    match plan case Plan(recs, s0, R, H) => Appended(recs, s0.P, s0, s) && Joined(s0.P, s, order, H, m)
  }

  /** Between two rounds: `tail` ends the path, `rest` are the heads still to be appended. */
  ghost predicate Joining(entries: seq<Entry>, rest: seq<Entry>, tail: Entry, plan: Plan, s: State, order: seq<int>)
    reads entries
  {
    match plan case Plan(recs, s0, R, H) =>
      && InState(entries, s) && Sound(entries, plan) && |rest| < |H|
      && JoinIn(plan, s, order, |H| - |rest|)
      && tail == entries[order[|order| - 1]] && order[0] == H[0]
      && LastHeads(entries, rest, H)
  }

  /** `rest` are the entries at the last indices of `H`. */
  ghost predicate LastHeads(entries: seq<Entry>, rest: seq<Entry>, H: seq<int>) {
    && |rest| <= |H| && InRange(H, |entries|)
    && forall k :: 0 <= k < |rest| ==> rest[k] == entries[H[|H| - |rest| + k]]
  }

  lemma NextHead(entries: seq<Entry>, rest: seq<Entry>, H: seq<int>)
    requires LastHeads(entries, rest, H) && rest != []
    ensures rest[0] == entries[H[|H| - |rest|]] && LastHeads(entries, rest[1..], H)
  {
  }

  /** Append the m-th head to the path. */
  method AppendHead(entries: seq<Entry>, localHead: Entry, tail: Entry, ghost plan: Plan, ghost s: State,
    ghost order: seq<int>, ghost m: nat)
    returns (tail': Entry, log: seq<LogMessage>, ghost s': State, ghost order': seq<int>)
    requires InState(entries, s) && Sound(entries, plan) && JoinIn(plan, s, order, m) && m < |plan.H|
    requires tail == entries[order[|order| - 1]] && localHead == entries[plan.H[m]]
    modifies entries
    ensures InState(entries, s') && JoinIn(plan, s', order', m + 1)
    ensures tail' == entries[order'[|order'| - 1]] && order'[0] == order[0] && log != []
  {
    ghost var s0, H := plan.s0, plan.H;
    AppendedStep(plan.recs, s0.P, s0, s, H[m], order[|order| - 1]);
    HeadNotJoined(s0.P, plan.R, s, order, H, m, m);
    tail', log, s', order' := AppendChain(entries, localHead, tail, plan.recs, s, order, H[m]);
    NextJoined(s0.P, plan.R, s, order, H, m, s', order');
  }

  /** One round of joining: append the next head. */
  method JoinRound(entries: seq<Entry>, rest: seq<Entry>, tail: Entry, ghost plan: Plan, ghost s: State,
    ghost order: seq<int>)
    returns (rest': seq<Entry>, tail': Entry, log: seq<LogMessage>, ghost s': State, ghost order': seq<int>)
    requires Joining(entries, rest, tail, plan, s, order) && rest != []
    modifies entries
    ensures Joining(entries, rest', tail', plan, s', order')
    ensures |rest'| == |rest| - 1 && log != []
  {
    NextHead(entries, rest, plan.H);
    var localHead := rest[0];
    rest' := rest[1..];
    assert |rest'| == |rest| - 1;
    tail', log, s', order' := AppendHead(entries, localHead, tail, plan, s, order, |plan.H| - |rest|);
  }

  /** Walk the chain of the first head to its tail. */
  method FirstChain(entries: seq<Entry>, heads: seq<Entry>, ghost plan: Plan)
    returns (tail: Entry, ghost order: seq<int>)
    requires InState(entries, plan.s0) && Sound(entries, plan) && Refs(entries, heads, plan.H)
    ensures Joining(entries, heads[1..], tail, plan, plan.s0, order)
  {
    ghost var s := plan.s0;
    order := [plan.H[0]];
    assert Predecessor(order, 0) == -1;
    tail, order := WalkToTail(entries, heads[0], s.P, s.N, order);
    FirstJoined(s.P, plan.R, s, order, plan.H);
  }

  /** Join all chains, in the order of `heads`, behind the first one. */
  method Concatenate(entries: seq<Entry>, heads: seq<Entry>, ghost plan: Plan)
    returns (head: Entry, log: seq<LogMessage>, ghost s: State, ghost order: seq<int>)
    requires InState(entries, plan.s0) && Sound(entries, plan) && Refs(entries, heads, plan.H)
    modifies entries
    ensures exists tail :: Joining(entries, [], tail, plan, s, order)
    ensures head == heads[0]
    ensures log == [] <==> |heads| == 1
  {
    head, log, s := heads[0], [], plan.s0;
    var rest := heads[1..];
    var tail;
    tail, order := FirstChain(entries, heads, plan);
    while rest != []
      invariant Joining(entries, rest, tail, plan, s, order)
      invariant |rest| < |heads| && (log == [] <==> |rest| == |heads| - 1)
      decreases |rest|
    {
      var messages;
      rest, tail, messages, s, order := JoinRound(entries, rest, tail, plan, s, order);
      log := log + messages;
    }
  }
}
