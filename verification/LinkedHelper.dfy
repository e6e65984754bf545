/** Repairing a channel chain in place (linked_helper.cpp): dangling, duplicate, self and circular
    predecessors are removed and everything is joined into one doubly linked list. */
module LinkedHelper {
  import opened LinkSpec
  import opened Sequences

  class Entry {
    var previous: Entry?
    var next: Entry?
    const entryId: nat
    var previousId: nat
    var modified: bool

    constructor (entryId: nat, previousId: nat)
      ensures this.entryId == entryId && this.previousId == previousId
      ensures previous == null && next == null && !modified
    {
      this.entryId, this.previousId := entryId, previousId;
      previous, next, modified := null, null, false;
    }
  }

  datatype LogMessage =
    | MissingPrevious(id: nat, previousId: nat)
    | AlreadyLinked(id: nat, nextId: nat)
    | SelfReference(id: nat)
    | ReusedNode(id: nat)
    | CutCircle(previousId: nat, id: nat)
    | NoHeads
    | AppendedOpenBegin(id: nat, tailId: nat)

  // ------------------------------------------------------------------ heap shape

  function At(entries: seq<Entry>, i: int): Entry?
    requires -1 <= i < |entries|
  {
    if i < 0 then null else entries[i]
  }

  ghost function RecordsOf(entries: seq<Entry>): (recs: seq<Record>)
    reads entries
    ensures |recs| == |entries|
    ensures forall i :: 0 <= i < |entries| ==> recs[i] == Record(entries[i].entryId, entries[i].previousId)
  {
    seq(|entries|, i requires 0 <= i < |entries| reads entries => Record(entries[i].entryId, entries[i].previousId))
  }

  /** The predecessor map `P` and the successor map `N` are inverse to each other. */
  ghost predicate Mutual(P: seq<int>, N: seq<int>) {
    && |P| == |N|
    && (forall i :: 0 <= i < |P| ==> -1 <= P[i] < |P|)
    && (forall i :: 0 <= i < |N| ==> -1 <= N[i] < |N|)
    && (forall i :: 0 <= i < |P| && P[i] >= 0 ==> N[P[i]] == i)
    && (forall i :: 0 <= i < |N| && N[i] >= 0 ==> P[N[i]] == i)
  }

  /** The pointers of the entries are exactly the maps `P` and `N`. */
  ghost predicate Shape(entries: seq<Entry>, P: seq<int>, N: seq<int>)
    reads entries`previous, entries`next
  {
    && |entries| == |P|
    && Distinct(entries)
    && Mutual(P, N)
    && (forall i :: 0 <= i < |P| ==> entries[i].previous == At(entries, P[i]))
    && (forall i :: 0 <= i < |P| ==> entries[i].next == At(entries, N[i]))
  }

  /** The remaining mutable fields. */
  ghost predicate Fields(entries: seq<Entry>, ids: seq<nat>, mods: seq<bool>)
    reads entries`previousId, entries`modified
  {
    && |ids| == |entries| == |mods|
    && forall i :: 0 <= i < |entries| ==> entries[i].previousId == ids[i] && entries[i].modified == mods[i]
  }

  /** The mutable fields of all entries: links by index, ids and flags. */
  datatype State = State(P: seq<int>, N: seq<int>, ids: seq<nat>, mods: seq<bool>)

  ghost predicate InState(entries: seq<Entry>, s: State)
    reads entries
  {
    match s case State(P, N, ids, mods) => Shape(entries, P, N) && Fields(entries, ids, mods)
  }

  /** `heads` are the entries at the indices `H`. */
  ghost predicate Refs(entries: seq<Entry>, heads: seq<Entry>, H: seq<int>) {
    InRange(H, |entries|) && heads == Picked(entries, H)
  }

  ghost predicate InRange(H: seq<int>, n: nat) {
    forall k :: 0 <= k < |H| ==> 0 <= H[k] < n
  }

  ghost function Picked(entries: seq<Entry>, H: seq<int>): (heads: seq<Entry>)
    requires InRange(H, |entries|)
    ensures |heads| == |H|
    ensures forall k :: 0 <= k < |H| ==> heads[k] == entries[H[k]]
  {
    seq(|H|, k requires 0 <= k < |H| => entries[H[k]])
  }

  lemma RefsAppend(entries: seq<Entry>, heads: seq<Entry>, H: seq<int>, i: int)
    requires Refs(entries, heads, H) && 0 <= i < |entries|
    ensures Refs(entries, heads + [entries[i]], H + [i])
  {
  }

  /** `heads` are the entries at the indices `H`: all of the open ones, each once. */
  ghost predicate Heads(entries: seq<Entry>, P: seq<int>, heads: seq<Entry>, H: seq<int>)
    requires |P| == |entries|
  {
    && Refs(entries, heads, H)
    && (forall k :: 0 <= k < |H| ==> P[H[k]] < 0)
    && (forall k, l :: 0 <= k < l < |H| ==> H[k] != H[l])
    && (forall i :: 0 <= i < |P| && P[i] < 0 ==> i in H)
  }

  /** The open nodes among the first `n`, in increasing order. */
  ghost function OpenNodes(P: seq<int>, n: nat): seq<int>
    requires n <= |P|
  {
    if n == 0 then []
    else if P[n - 1] < 0 then OpenNodes(P, n - 1) + [n - 1]
    else OpenNodes(P, n - 1)
  }

  lemma {:induction false} OpenNodesPrefix(P: seq<int>, P': seq<int>, n: nat)
    requires n <= |P| && n <= |P'| && P[..n] == P'[..n]
    ensures OpenNodes(P, n) == OpenNodes(P', n)
  {
    if n > 0 {
      assert P[..n - 1] == P[..n][..n - 1] == P'[..n][..n - 1] == P'[..n - 1];
      assert P[n - 1] == P[..n][n - 1] == P'[n - 1];
      OpenNodesPrefix(P, P', n - 1);
    }
  }

  lemma {:induction false} OpenNodesAre(P: seq<int>, n: nat, k: nat)
    requires n <= |P| && k < |OpenNodes(P, n)|
    ensures 0 <= OpenNodes(P, n)[k] < n && P[OpenNodes(P, n)[k]] < 0
    decreases n
  {
    if k < |OpenNodes(P, n - 1)| {
      OpenNodesAre(P, n - 1, k);
    }
  }

  lemma {:induction false} OpenNodesHave(P: seq<int>, n: nat, i: nat)
    requires i < n <= |P| && P[i] < 0
    ensures i in OpenNodes(P, n)
    decreases n
  {
    if i < n - 1 {
      OpenNodesHave(P, n - 1, i);
    } else {
      assert OpenNodes(P, n)[|OpenNodes(P, n - 1)|] == i;
    }
  }

  lemma {:induction false} OpenNodesIncrease(P: seq<int>, n: nat, k: nat, l: nat)
    requires n <= |P| && k < l < |OpenNodes(P, n)|
    ensures OpenNodes(P, n)[k] < OpenNodes(P, n)[l]
    decreases n
  {
    if l < |OpenNodes(P, n - 1)| {
      OpenNodesIncrease(P, n - 1, k, l);
    } else {
      OpenNodesAre(P, n - 1, k);
    }
  }

  lemma OpenNodesSpec(P: seq<int>, n: nat)
    requires n <= |P|
    ensures var H := OpenNodes(P, n);
            && (forall k :: 0 <= k < |H| ==> 0 <= H[k] < n && P[H[k]] < 0)
            && Increasing(H)
            && (forall i :: 0 <= i < n && P[i] < 0 ==> i in H)
  {
    forall k | 0 <= k < |OpenNodes(P, n)| {
      OpenNodesAre(P, n, k);
    }
    forall k, l | 0 <= k < l < |OpenNodes(P, n)| {
      OpenNodesIncrease(P, n, k, l);
    }
    forall i | 0 <= i < n && P[i] < 0 {
      OpenNodesHave(P, n, i);
    }
  }

  ghost predicate Increasing(H: seq<int>) {
    forall k, l :: 0 <= k < l < |H| ==> H[k] < H[l]
  }

  ghost predicate SameIds(entries: seq<Entry>, recs: seq<Record>) {
    |entries| == |recs| && forall i :: 0 <= i < |recs| ==> recs[i].id == entries[i].entryId
  }

  // ------------------------------------------------------------------ first pass

  method FindEntry(entries: seq<Entry>, id: nat, ghost recs: seq<Record>) returns (e: Entry?)
    requires SameIds(entries, recs)
    ensures e == At(entries, Find(recs, id))
  {
    for i := 0 to |entries|
      invariant forall j :: 0 <= j < i ==> recs[j].id != id
    {
      if entries[i].entryId == id {
        FindIsFirst(recs, id, i);
        return entries[i];
      }
    }
    FindIsFirst(recs, id, -1);
    return null;
  }

  /** Links claimed by the first `n` records: a successor is the first record that claims its place. */
  ghost predicate LinkedUpTo(F: seq<int>, P: seq<int>, N: seq<int>, n: nat) {
    && n <= |F| == |P| == |N|
    && (forall j :: n <= j < |P| ==> P[j] == -1)
    && (forall p :: 0 <= p < |N| && N[p] >= 0 ==> N[p] < n && Claims(F, N[p], p))
    && (forall p, j :: 0 <= p < |N| && 0 <= j < n && Claims(F, j, p) ==> 0 <= N[p] <= j)
  }

  /** The link set in round `i`, given the successors `N` set so far and the record `f` named by record `i`. */
  ghost function Accepted(N: seq<int>, f: int, i: int): (p: int)
    requires -1 <= f < |N|
    ensures -1 <= p < |N|
  {
    if f >= 0 && N[f] < 0 && f != i then f else -1
  }

  ghost function WithNext(N: seq<int>, p: int, i: int): seq<int>
    requires p < |N|
  {
    if p >= 0 then N[p := i] else N
  }

  lemma LinkStep(F: seq<int>, P: seq<int>, N: seq<int>, i: nat)
    requires LinkedUpTo(F, P, N, i) && i < |F| && -1 <= F[i] < |F|
    ensures var p := Accepted(N, F[i], i); LinkedUpTo(F, P[i := p], WithNext(N, p, i), i + 1)
  {
  }

  /** After the last round exactly the surviving links are set. */
  lemma AllLinked(F: seq<int>, P: seq<int>, N: seq<int>, i: nat)
    requires LinkedUpTo(F, P, N, |F|) && Mutual(P, N) && i < |F| && -1 <= F[i] < |F|
    ensures P[i] == Kept(F, i)
  {
    if P[i] >= 0 {
      assert Claims(F, N[P[i]], P[i]);
    } else if Claims(F, i, F[i]) {
      assert Claims(F, N[F[i]], F[i]);
    }
  }

  /** Make an entry the successor of another one, in both directions. */
  method SetLink(entries: seq<Entry>, previous: Entry, entry: Entry, ghost P: seq<int>, ghost N: seq<int>, ghost p: nat,
    ghost i: nat)
    requires Shape(entries, P, N) && p < |P| && i < |P|
    requires previous == entries[p] && entry == entries[i]
    requires P[i] < 0 && N[p] < 0
    modifies previous`next, entry`previous
    ensures Shape(entries, P[i := p], N[p := i])
  {
    previous.next := entry;
    entry.previous := previous;
  }

  /** Give an entry another `previous_id` and mark it as modified. */
  method SetPreviousId(entries: seq<Entry>, entry: Entry, id: nat, ghost i: nat, ghost ids: seq<nat>,
    ghost mods: seq<bool>)
    requires Distinct(entries) && i < |entries| && entry == entries[i] && Fields(entries, ids, mods)
    modifies entry`previousId, entry`modified
    ensures entry.previousId == id && entry.modified
    ensures Fields(entries, ids[i := id], mods[i := true])
  {
    entry.previousId := id;
    entry.modified := true;
  }

  /** The body of the first pass: link one entry to its predecessor, or find it open. */
  method LinkEntry(entries: seq<Entry>, i: nat, ghost recs: seq<Record>, ghost P: seq<int>, ghost N: seq<int>,
    ghost ids: seq<nat>, ghost mods: seq<bool>, ghost p: int)
    returns (open: bool, log: seq<LogMessage>)
    requires i < |entries| && SameIds(entries, recs) && |ids| == |recs|
    requires ids[i] == recs[i].previousId
    requires Shape(entries, P, N) && P[i] < 0 && Fields(entries, ids, mods)
    requires p == Accepted(N, Find(recs, recs[i].previousId), i)
    modifies entries
    ensures Shape(entries, P[i := p], WithNext(N, p, i))
    ensures open <==> p < 0
    ensures log != [] <==> p < 0 && (recs[i].previousId > 0 || Find(recs, recs[i].previousId) >= 0)
    ensures Fields(entries, if log != [] then ids[i := 0] else ids, if log != [] then mods[i := true] else mods)
  {
    log := [];
    var entry := entries[i];
    var previous := FindEntry(entries, entry.previousId, recs);
    if previous == null && entry.previousId > 0 {
      log := log + [MissingPrevious(entry.entryId, entry.previousId)];
      SetPreviousId(entries, entry, 0, i, ids, mods);
    }
    if previous != null {
      if previous.next != null && previous.next != entry {
        log := log + [AlreadyLinked(entry.entryId, previous.next.entryId)];
        SetPreviousId(entries, entry, 0, i, ids, mods);
        previous := null;
      } else if previous == entry {
        log := log + [SelfReference(entry.entryId)];
        SetPreviousId(entries, entry, 0, i, ids, mods);
        previous := null;
      }
    }
    if previous != null {
      SetLink(entries, previous, entry, P, N, p, i);
    }
    open := previous == null;
  }

  ghost predicate DroppedBy(recs: seq<Record>, F: seq<int>, p: int, i: nat)
    requires |recs| == |F| && i < |recs|
  {
    p < 0 && (recs[i].previousId > 0 || F[i] >= 0)
  }

  ghost predicate NoneDropped(recs: seq<Record>, F: seq<int>, P: seq<int>, n: nat)
    requires n <= |recs| == |F| == |P|
  {
    forall j :: 0 <= j < n ==> !DroppedBy(recs, F, P[j], j)
  }

  /** What the first `n` rounds of the first pass have done to the fields and to the list of heads. */
  ghost predicate PassDone(recs: seq<Record>, F: seq<int>, P: seq<int>, n: nat, H: seq<int>, ids: seq<nat>,
    mods: seq<bool>, mods0: seq<bool>)
  {
    && n <= |recs| == |F| == |P| == |ids| == |mods| == |mods0|
    && H == OpenNodes(P, n)
    && (forall j :: 0 <= j < n ==> ids[j] == (if P[j] < 0 then 0 else recs[j].previousId))
    && (forall j :: n <= j < |ids| ==> ids[j] == recs[j].previousId)
    && (forall j :: 0 <= j < n ==> mods[j] == (mods0[j] || DroppedBy(recs, F, P[j], j)))
    && (forall j :: n <= j < |ids| ==> mods[j] == mods0[j])
  }

  lemma PassStep(recs: seq<Record>, F: seq<int>, P: seq<int>, i: nat, H: seq<int>, ids: seq<nat>, mods: seq<bool>,
    mods0: seq<bool>, p: int)
    requires PassDone(recs, F, P, i, H, ids, mods, mods0) && i < |recs|
    ensures PassDone(recs, F, P[i := p], i + 1, if p < 0 then H + [i] else H,
              if DroppedBy(recs, F, p, i) then ids[i := 0] else ids,
              if DroppedBy(recs, F, p, i) then mods[i := true] else mods, mods0)
    ensures NoneDropped(recs, F, P[i := p], i + 1) <==> NoneDropped(recs, F, P, i) && !DroppedBy(recs, F, p, i)
  {
    if NoneDropped(recs, F, P[i := p], i + 1) {
      assert P[i := p][i] == p;
      forall j | 0 <= j < i ensures !DroppedBy(recs, F, P[j], j) {
        assert P[i := p][j] == P[j];
      }
    }
    OpenNodesPrefix(P, P[i := p], i);
  }

  /** The state of the first pass before round `n`. */
  ghost predicate PassIn(recs: seq<Record>, F: seq<int>, mods0: seq<bool>, s: State, H: seq<int>, n: nat,
    silent: bool)
  {
    match s case State(P, N, ids, mods) =>
      && LinkedUpTo(F, P, N, n) && PassDone(recs, F, P, n, H, ids, mods, mods0)
      && (silent <==> NoneDropped(recs, F, P, n))
  }

  /** What stays the same during the first pass: the records, the entries they name, and the initial marks. */
  datatype Pass = Pass(recs: seq<Record>, F: seq<int>, mods0: seq<bool>)

  /** Between two rounds: the entries are in state `s`, `heads` are the open ones among the first `n`, and the
      log is empty exactly if no link has been dropped. */
  ghost predicate Passing(entries: seq<Entry>, heads: seq<Entry>, log: seq<LogMessage>, pass: Pass, s: State,
    H: seq<int>, n: nat)
    reads entries
  {
    match pass case Pass(recs, F, mods0) =>
      InState(entries, s) && PassIn(recs, F, mods0, s, H, n, log == []) && Refs(entries, heads, H)
  }

  /** The predecessors to link are the first records with the ids in question. */
  ghost predicate Given(pass: Pass) {
    match pass case Pass(recs, F, mods0) =>
      |F| == |recs| == |mods0| && forall i :: 0 <= i < |recs| ==> F[i] == Find(recs, recs[i].previousId)
  }

  /** Nothing is linked yet. */
  ghost function Unprocessed(recs: seq<Record>, mods0: seq<bool>): State {
    State(seq(|recs|, _ => -1), seq(|recs|, _ => -1), seq(|recs|, i requires 0 <= i < |recs| => recs[i].previousId),
      mods0)
  }

  /** How far the first pass has come: the entries, the heads, and whether no link has been dropped. */
  datatype Progress = Progress(s: State, H: seq<int>, silent: bool)

  /** The progress behind `n` rounds, each of which links one entry or adds it to the heads. */
  ghost function Rounds(pass: Pass, n: nat): (r: Progress)
    requires Given(pass) && n <= |pass.recs|
    ensures PassIn(pass.recs, pass.F, pass.mods0, r.s, r.H, n, r.silent)
  {
    if n == 0 then Progress(Unprocessed(pass.recs, pass.mods0), [], true)
    else
      var r, i := Rounds(pass, n - 1), n - 1;
      var p := Accepted(r.s.N, pass.F[i], i);
      var dropped := DroppedBy(pass.recs, pass.F, p, i);
      LinkStep(pass.F, r.s.P, r.s.N, i);
      PassStep(pass.recs, pass.F, r.s.P, i, r.H, r.s.ids, r.s.mods, pass.mods0, p);
      Progress(
        State(r.s.P[i := p], WithNext(r.s.N, p, i),
          if dropped then r.s.ids[i := 0] else r.s.ids, if dropped then r.s.mods[i := true] else r.s.mods),
        if p < 0 then r.H + [i] else r.H,
        r.silent && !dropped)
  }

  ghost predicate Reached(entries: seq<Entry>, heads: seq<Entry>, log: seq<LogMessage>, r: Progress)
    reads entries
  {
    InState(entries, r.s) && Refs(entries, heads, r.H) && (r.silent <==> log == [])
  }

  ghost predicate Behind(pass: Pass, n: nat, r: Progress) {
    Given(pass) && n <= |pass.recs| && r == Rounds(pass, n)
  }

  /** One round of the first pass: link one entry, or add it to the heads. */
  method FirstRound(entries: seq<Entry>, heads: seq<Entry>, log: seq<LogMessage>, i: nat, ghost pass: Pass,
    ghost r: Progress)
    returns (heads': seq<Entry>, log': seq<LogMessage>, ghost r': Progress)
    requires SameIds(entries, pass.recs) && i < |entries| && Behind(pass, i, r) && Reached(entries, heads, log, r)
    modifies entries
    ensures Behind(pass, i + 1, r') && Reached(entries, heads', log', r')
  {
    RefsAppend(entries, heads, r.H, i);
    var open, messages :=
      LinkEntry(entries, i, pass.recs, r.s.P, r.s.N, r.s.ids, r.s.mods, Accepted(r.s.N, pass.F[i], i));
    heads' := if open then heads + [entries[i]] else heads;
    log' := log + messages;
    r' := Rounds(pass, i + 1);
  }

  /** The loop of the first pass. */
  method LinkAll(entries: seq<Entry>, ghost pass: Pass, ghost start: Progress)
    returns (heads: seq<Entry>, log: seq<LogMessage>, ghost r: Progress)
    requires SameIds(entries, pass.recs) && Behind(pass, 0, start) && Reached(entries, [], [], start)
    modifies entries
    ensures Behind(pass, |entries|, r) && Reached(entries, heads, log, r)
  {
    heads, log, r := [], [], start;
    for i := 0 to |entries|
      invariant Behind(pass, i, r) && Reached(entries, heads, log, r)
    {
      heads, log, r := FirstRound(entries, heads, log, i, pass, r);
    }
  }

  /** The first pass. */
  method FirstLinking(entries: seq<Entry>, ghost pass: Pass)
    returns (heads: seq<Entry>, log: seq<LogMessage>, ghost s: State, ghost H: seq<int>)
    requires Given(pass) && SameIds(entries, pass.recs) && InState(entries, Unprocessed(pass.recs, pass.mods0))
    modifies entries
    ensures Passing(entries, heads, log, pass, s, H, |entries|)
  {
    ghost var r;
    heads, log, r := LinkAll(entries, pass, Rounds(pass, 0));
    s, H := r.s, r.H;
    ReachedPasses(entries, heads, log, pass);
  }

  lemma ReachedPasses(entries: seq<Entry>, heads: seq<Entry>, log: seq<LogMessage>, pass: Pass)
    requires Given(pass) && |entries| == |pass.recs| && Reached(entries, heads, log, Rounds(pass, |entries|))
    ensures var r := Rounds(pass, |entries|); Passing(entries, heads, log, pass, r.s, r.H, |entries|)
  {
  }

  // ------------------------------------------------------------------ used nodes

  ghost predicate Marks(entries: seq<Entry>, used: set<Entry>, U: set<int>) {
    forall i :: 0 <= i < |entries| ==> (entries[i] in used <==> i in U)
  }

  ghost predicate Within(U: set<int>, n: nat) {
    forall u :: u in U ==> 0 <= u < n
  }

  ghost predicate ClosedBack(P: seq<int>, U: set<int>) {
    Within(U, |P|) && forall u :: u in U && P[u] >= 0 ==> P[u] in U
  }

  /** No link leaves `U`, in either direction. */
  ghost predicate Closed(P: seq<int>, N: seq<int>, U: set<int>) {
    ClosedBack(P, U) && |N| == |P| && forall u :: u in U && N[u] >= 0 ==> N[u] in U
  }

  /** `U` holds the walked part of a chain; `x` (or -1) is the node that comes next. */
  ghost predicate Walking(P: seq<int>, N: seq<int>, U: set<int>, x: int) {
    && ClosedBack(P, U) && |N| == |P| && -1 <= x < |P|
    && x !in U && (x >= 0 && P[x] >= 0 ==> P[x] in U)
    && forall u :: u in U && N[u] >= 0 ==> N[u] in U || N[u] == x
  }

  ghost predicate AllRooted(P: seq<int>, U: set<int>)
    requires Links(P)
  {
    Within(U, |P|) && forall u :: u in U ==> Rooted(P, u)
  }

  lemma WalkStep(P: seq<int>, N: seq<int>, U: set<int>, x: int)
    requires Mutual(P, N) && Walking(P, N, U, x) && x >= 0
    ensures Walking(P, N, U + {x}, N[x])
    ensures N[x] >= 0 ==> P[N[x]] >= 0
  {
  }

  lemma RootedStep(P: seq<int>, U: set<int>, x: int)
    requires Links(P) && AllRooted(P, U) && 0 <= x < |P| && (P[x] >= 0 ==> P[x] in U)
    ensures AllRooted(P, U + {x})
  {
    if P[x] >= 0 {
      var k: nat :| Back(P, P[x], k) == -1;
      assert Back(P, x, k + 1) == -1;
    } else {
      assert Back(P, P[x], 0) == -1;
      assert Back(P, x, 1) == -1;
    }
  }

  ghost predicate OpensIn(P: seq<int>, U: set<int>, opens: set<int>)
    requires Within(U, |P|)
  {
    forall u :: u in U && P[u] < 0 ==> u in opens
  }

  ghost function AllOf(entries: seq<Entry>): set<Entry> {
    set e | e in entries
  }

  /** Walk one chain from its open head and mark it. The "already used" exit is never taken. */
  method MarkChain(entries: seq<Entry>, start: Entry, used: set<Entry>, ghost P: seq<int>, ghost N: seq<int>,
    ghost U: set<int>, ghost h: int)
    returns (ok: bool, used': set<Entry>, log: seq<LogMessage>, ghost U': set<int>)
    requires Shape(entries, P, N) && Closed(P, N, U) && Marks(entries, used, U) && Links(P) && AllRooted(P, U)
    requires 0 <= h < |P| && start == entries[h] && h !in U && P[h] < 0
    ensures ok && log == []
    ensures Closed(P, N, U') && Marks(entries, used', U') && AllRooted(P, U')
    ensures U <= U' && h in U'
    ensures forall opens :: OpensIn(P, U, opens) && h in opens ==> OpensIn(P, U', opens)
  {
    ghost var x := h;
    var head: Entry? := start;
    used', U' := used, U;
    while head != null
      invariant Walking(P, N, U', x) && head == At(entries, x) && Marks(entries, used', U')
      invariant U <= U' && (h in U' || x == h)
      invariant AllRooted(P, U')
      invariant forall opens :: OpensIn(P, U, opens) && h in opens ==> OpensIn(P, U', opens)
      invariant x >= 0 && P[x] < 0 ==> x == h
      decreases AllOf(entries) - used'
    {
      var reused := ReusedNode(head.entryId);
      if head in used' {
        assert false;
        return false, used', [reused], U';
      }
      assert head in AllOf(entries) - used';
      WalkStep(P, N, U', x);
      RootedStep(P, U', x);
      MarkStep(entries, used', U', x);
      used', U' := used' + {head}, U' + {x};
      head, x := head.next, N[x];
    }
    return true, used', [], U';
  }

  lemma MarkStep(entries: seq<Entry>, used: set<Entry>, U: set<int>, x: int)
    requires Distinct(entries) && Marks(entries, used, U) && 0 <= x < |entries|
    ensures Marks(entries, used + {entries[x]}, U + {x})
  {
  }

  /** Mark everything that hangs on a head; what stays unmarked lies on circles. */
  method MarkUsed(entries: seq<Entry>, heads: seq<Entry>, ghost P: seq<int>, ghost N: seq<int>, ghost H: seq<int>)
    returns (ok: bool, used: set<Entry>, log: seq<LogMessage>, ghost U: set<int>)
    requires Shape(entries, P, N) && Links(P) && Heads(entries, P, heads, H)
    ensures ok && log == []
    ensures Closed(P, N, U) && Marks(entries, used, U)
    ensures forall i :: 0 <= i < |P| ==> (i in U <==> Rooted(P, i))
  {
    used, U, log := {}, {}, [];
    for m := 0 to |heads|
      invariant Closed(P, N, U) && Marks(entries, used, U) && log == []
      invariant AllRooted(P, U) && OpensIn(P, U, set k | 0 <= k < m :: H[k])
      invariant forall k :: 0 <= k < m ==> H[k] in U
    {
      ok, used, log, U := MarkChain(entries, heads[m], used, P, N, U, H[m]);
      if !ok {
        return;
      }
    }
    ok := true;
    assert H[..|H|] == H;
    forall i | 0 <= i < |P| && P[i] < 0 ensures i in U {
      assert i in H;
    }
    forall i | 0 <= i < |P| && Rooted(P, i) ensures i in U {
      var k: nat :| Back(P, i, k) == -1;
      RootReached(P, N, U, i, k);
    }
  }

  lemma {:induction false} RootReached(P: seq<int>, N: seq<int>, U: set<int>, i: int, k: nat)
    requires Mutual(P, N) && Links(P) && Closed(P, N, U) && 0 <= i < |P| && Back(P, i, k) == -1
    requires forall j :: 0 <= j < |P| && P[j] < 0 ==> j in U
    ensures i in U
    decreases k
  {
    if P[i] >= 0 {
      RootReached(P, N, U, P[i], k - 1);
    }
  }
}
