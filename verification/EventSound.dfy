/** What the runs of the event executor keep: its list under either form of `cancel`, and order and
    conservation of the events where `cancel` unlinks its node. */
module EventSound {
  import opened EventExecutor
  import opened NodeLists
  import opened Options
  import opened Sequences

  // ------------------------------------------------------------------ the list, under either form

  /** The live entries point exactly at their nodes that are not gone. */
  ghost predicate PointersMeet(s: State) {
    && (forall e :: e in s.ptr ==> e in s.live && s.ptr[e] < |s.entryOf| && s.entryOf[s.ptr[e]] == e)
    && (forall e :: e in s.ptr ==> s.ptr[e] !in Gone(s))
    && (forall x: nat :: Present(s.list, Gone(s), x) && x < |s.entryOf| && s.entryOf[x] in s.live ==>
          s.entryOf[x] in s.ptr && s.ptr[s.entryOf[x]] == x)
  }

  /** Only a node deleted by cancel can still have a predecessor. */
  ghost predicate OnlyCancelCuts(s: State) {
    forall x: nat :: Present(s.list, Gone(s), x) && At(s.list.next, x).Some? && At(s.list.next, x).value in Gone(s) ==>
      At(s.list.next, x).value in s.cancelled
  }

  ghost predicate ListSound(s: State) {
    && |s.list.next| == |s.entryOf| && (forall x :: x in Gone(s) ==> x < |s.entryOf|)
    && Shape(s.list, Gone(s)) && OnlyCancelCuts(s) && PointersMeet(s)
  }

  /** Nothing leads to the head. */
  lemma HeadOpens(s: State)
    requires ListSound(s) && s.list.head.Some?
    ensures Present(s.list, Gone(s), s.list.head.value) && Placed(s.list, Gone(s), s.list.head.value)
    ensures forall x: nat :: Present(s.list, Gone(s), x) ==> At(s.list.next, x) != s.list.head
  {
    forall x: nat | Present(s.list, Gone(s), x) ensures At(s.list.next, x) != s.list.head {
      assert Placed(s.list, Gone(s), x);
    }
  }

  lemma TakenCuts(s: State, t: nat)
    requires ListSound(s) && t < |s.threads| && s.list.head.Some?
    ensures Gone(TakeHead(s, t)) == Gone(s) + {s.list.head.value} && OnlyCancelCuts(TakeHead(s, t))
  {
    var s' := TakeHead(s, t);
    HeadOpens(s);
    assert Gone(s') == Gone(s) + {s.list.head.value};
    forall x: nat | Present(s'.list, Gone(s'), x)
      ensures Present(s.list, Gone(s), x) && At(s.list.next, x) != s.list.head
    {
    }
  }

  lemma TakenMeet(s: State, t: nat)
    requires ListSound(s) && t < |s.threads| && s.list.head.Some?
    requires Gone(TakeHead(s, t)) == Gone(s) + {s.list.head.value}
    ensures PointersMeet(TakeHead(s, t))
  {
    var s' := TakeHead(s, t);
    HeadOpens(s);
    forall x: nat | Present(s'.list, Gone(s'), x) ensures Present(s.list, Gone(s), x) && Some(x) != s.list.head {
    }
  }

  lemma TakenListSound(s: State, t: nat)
    requires ListSound(s) && t < |s.threads| && (s.list.head.Some? ==> Intact(s, s.list.head.value))
    ensures ListSound(TakeHead(s, t))
  {
    if s.list.head.Some? {
      HeadOpens(s);
      TakenCuts(s, t);
      TakenMeet(s, t);
      CutShape(s.list, Gone(s), s.list.head.value);
    }
  }

  lemma CancelListSound(form: CancelForm, s: State, e: nat)
    requires ListSound(s) && Enabled(s, Cancel(e)) && e in s.ptr && Intact(s, s.ptr[e])
    ensures ListSound(Next(form, s, Cancel(e)))
  {
    var node, s' := s.ptr[e], Next(form, s, Cancel(e));
    assert Present(s.list, Gone(s), node) && Placed(s.list, Gone(s), node);
    assert Gone(s') == Gone(s) + {node};
    CutShape(s.list, Gone(s), node);
    UnlinkedShape(s.list, Gone(s), node);
    forall x: nat | Present(s'.list, Gone(s'), x) ensures Present(s.list, Gone(s), x) && x != node {
    }
  }

  lemma ScheduledMeet(form: CancelForm, s: State, e: nat, woken: Option<nat>)
    requires ListSound(s) && Enabled(s, Schedule(e, woken)) && e !in s.ptr
    ensures PointersMeet(Next(form, s, Schedule(e, woken)))
  {
    var s' := Next(form, s, Schedule(e, woken));
    assert Gone(s') == Gone(s);
    forall x: nat | Present(s'.list, Gone(s'), x) && x < |s.entryOf| ensures Present(s.list, Gone(s), x) {
    }
  }

  lemma ScheduleListSound(form: CancelForm, s: State, e: nat, woken: Option<nat>)
    requires ListSound(s) && Enabled(s, Schedule(e, woken))
    ensures ListSound(Next(form, s, Schedule(e, woken)))
  {
    if e !in s.ptr {
      var s' := Next(form, s, Schedule(e, woken));
      assert Gone(s') == Gone(s);
      AppendedShape(s.list, Gone(s));
      ScheduledMeet(form, s, e, woken);
      forall x: nat | Present(s'.list, Gone(s'), x) && x < |s.entryOf| ensures Present(s.list, Gone(s), x) {
      }
    }
  }

  predicate ThreadsOnly(st: Step) {
    st.Resize? || st.Spurious? || st.Finish? || st.BeginShutdown? || st.EndShutdown? || st.Spawn?
  }

  lemma ThreadsOnlyKeeps(form: CancelForm, s: State, st: Step)
    requires Enabled(s, st) && ThreadsOnly(st)
    ensures SameQueue(s, Next(form, s, st))
  {
    match st
    case Resize(n) =>
    case Spurious(t) =>
    case Finish(t) =>
    case BeginShutdown =>
    case EndShutdown =>
    case Spawn =>
  }

  lemma SameListSound(s: State, s': State)
    requires ListSound(s) && SameQueue(s, s')
    ensures ListSound(s')
  {
  }

  /** A look that takes nothing leaves the list alone. */
  lemma IdleLook(s: State, t: nat)
    requires t < |s.threads| && !Takes(s)
    ensures SameQueue(s, Looked(s, t))
  {
  }

  /** A look that takes the head does nothing else to the list. */
  lemma TakingLook(s: State, t: nat)
    requires t < |s.threads| && Takes(s)
    ensures Looked(s, t) == TakeHead(s.(shouldAdjust := false), t)
  {
  }

  /** Every step that uses no deleted node keeps the list, in either form. */
  lemma StepListSound(form: CancelForm, s: State, st: Step)
    requires ListSound(s) && Enabled(s, st) && Defined(s, st)
    ensures ListSound(Next(form, s, st))
  {
    if ThreadsOnly(st) {
      ThreadsOnlyKeeps(form, s, st);
      SameListSound(s, Next(form, s, st));
    } else {
      match st
      case Schedule(e, woken) => ScheduleListSound(form, s, e, woken);
      case Cancel(e) =>
        if e in s.ptr {
          CancelListSound(form, s, e);
        }
      case Turn(t) =>
        if Takes(s) {
          TakingLook(s, t);
          SameListSound(s, s.(shouldAdjust := false));
          TakenListSound(s.(shouldAdjust := false), t);
        } else {
          IdleLook(s, t);
          SameListSound(s, Looked(s, t));
        }
      case Create(e) =>
      case Destroy(e) =>
    }
  }

  lemma {:induction false} RunListSound(form: CancelForm, s: State, sts: seq<Step>, s': State)
    requires ListSound(s) && Run(form, s, sts, s')
    ensures ListSound(s')
    decreases |sts|
  {
    if sts != [] {
      StepListSound(form, s, sts[0]);
      RunListSound(form, Next(form, s, sts[0]), sts[1..], s');
    }
  }

  /** The assertions of the source where a node leaves at the front (lines 99, 102, 199, 202, 213). */
  predicate FrontAsserted(l: List, x: nat) {
    match At(l.next, x)
    case Some(h) => At(l.previous, h) == Some(x)
    case None => l.tail == Some(x)
  }

  predicate Asserted(s: State, st: Step) {
    match st
    case Cancel(e) => e in s.ptr ==> FrontAsserted(s.list, s.ptr[e])
    case Turn(t) =>
      Takes(s) ==>
        var x := s.list.head.value;
        FrontAsserted(s.list, x) && x < |s.entryOf| &&
        (s.entryOf[x] in s.live ==> s.entryOf[x] in s.ptr && s.ptr[s.entryOf[x]] == x)
    case _ => true
  }

  /** None of the assertions fails, as long as no deleted node is used, however `cancel` tears the list. */
  lemma AssertionsHold(s: State, st: Step)
    requires ListSound(s) && Enabled(s, st) && Defined(s, st)
    ensures Asserted(s, st)
  {
    match st
    case Cancel(e) =>
      if e in s.ptr {
        assert Present(s.list, Gone(s), s.ptr[e]) && Placed(s.list, Gone(s), s.ptr[e]);
      }
    case Turn(t) =>
      if Takes(s) {
        assert Present(s.list, Gone(s), s.list.head.value) && Placed(s.list, Gone(s), s.list.head.value);
      }
    case _ =>
  }

  // ------------------------------------------------------------------ one queue, in order and complete

  /** `_event_ptr` of a live entry is set exactly while its node is queued, and points at that node. */
  ghost predicate PointersExact(s: State, q: seq<nat>) {
    && (forall e :: e in s.ptr ==> e in s.live && s.ptr[e] < |s.entryOf| && s.entryOf[s.ptr[e]] == e)
    && (forall e :: e in s.ptr ==> s.ptr[e] in q)
    && (forall x :: x in q && x < |s.entryOf| && s.entryOf[x] in s.live ==>
         s.entryOf[x] in s.ptr && s.ptr[s.entryOf[x]] == x)
  }

  /** Nodes leave from the head in the order in which they were scheduled. */
  ghost predicate Fifo(s: State, q: seq<nat>) {
    && Ordered(q) && Ordered(s.left)
    && (forall x, y :: x in s.left && y in q ==> x < y)
    && (forall x :: x in s.left || x in q ==> x < |s.entryOf|)
  }

  /** In how many of the four places a node is. */
  function Places(s: State, q: seq<nat>, x: nat): nat {
    (if x in q then 1 else 0) + (if x in s.ran then 1 else 0) +
    (if x in s.expired then 1 else 0) + (if x in s.cancelled then 1 else 0)
  }

  /** Every scheduled node is in exactly one of: queued, executed, expired, cancelled. */
  ghost predicate Conserved(s: State, q: seq<nat>) {
    && (forall x: nat :: x < |s.entryOf| ==> Places(s, q, x) == 1)
    && (forall x: nat :: x >= |s.entryOf| ==> Places(s, q, x) == 0)
  }

  ghost predicate SoundAs(s: State, q: seq<nat>) {
    && Linked(s.list, q) && |s.list.next| == |s.entryOf|
    && PointersExact(s, q) && Fifo(s, q) && Conserved(s, q)
  }

  /** The list is the queue, pointers are exact, order is kept and no node is lost. */
  ghost predicate QueueSound(s: State) {
    SoundAs(s, Queue(s))
  }

  lemma SoundAsQueue(s: State, q: seq<nat>)
    requires SoundAs(s, q)
    ensures Queue(s) == q && QueueSound(s)
  {
    forall i | 0 <= i < |q| ensures q[i] !in Gone(s) {
      assert q[i] in q && Places(s, q, q[i]) == 1;
    }
    ChainAlong(s.list.next, Gone(s), q, 0, |q|);
  }

  lemma QueuedOrGone(s: State, x: nat)
    requires QueueSound(s)
    ensures Present(s.list, Gone(s), x) <==> x in Queue(s)
  {
    assert if x < |s.entryOf| then Places(s, Queue(s), x) == 1 else Places(s, Queue(s), x) == 0;
  }

  lemma QueuedPlaced(s: State, x: nat)
    requires QueueSound(s) && x in Queue(s)
    ensures Placed(s.list, Gone(s), x)
    ensures At(s.list.next, x).Some? ==> At(s.list.next, x).value in Queue(s)
  {
    var q, l := Queue(s), s.list;
    var i :| 0 <= i < |q| && q[i] == x;
    assert At(l.next, q[i]) == After(q, i) && At(l.previous, q[i]) == Before(q, i);
    if i > 0 {
      QueuedOrGone(s, q[i - 1]);
      assert At(l.next, q[i - 1]) == After(q, i - 1);
    }
    if i < |q| - 1 {
      QueuedOrGone(s, q[i + 1]);
      assert At(l.previous, q[i + 1]) == Before(q, i + 1);
    }
  }

  /** A sound queue is a sound list, and every step from it is defined, in either form. */
  lemma SoundIsListSound(s: State)
    requires QueueSound(s)
    ensures ListSound(s)
    ensures forall st :: Enabled(s, st) ==> Defined(s, st)
  {
    forall x: nat ensures Present(s.list, Gone(s), x) <==> x in Queue(s) {
      QueuedOrGone(s, x);
    }
    forall x: nat | x in Queue(s)
      ensures Placed(s.list, Gone(s), x) && (At(s.list.next, x).Some? ==> At(s.list.next, x).value in Queue(s))
    {
      QueuedPlaced(s, x);
    }
    SoundHead(s);
    assert forall x :: x in Gone(s) ==> Places(s, Queue(s), x) > 0;
  }

  lemma SoundHead(s: State)
    requires QueueSound(s)
    ensures s.list.head.Some? ==> s.list.head.value in Queue(s) && At(s.list.previous, s.list.head.value).None?
    ensures s.list.tail.Some? ==> s.list.tail.value in Queue(s)
    ensures s.list.head.None? <==> Queue(s) == []
    ensures s.list.tail.None? <==> Queue(s) == []
  {
    var q := Queue(s);
    if q != [] {
      assert At(s.list.previous, q[0]) == Before(q, 0);
    }
  }

  // ------------------------------------------------------------------ the steps

  lemma HeadSplit(q: seq<nat>)
    requires q != [] && Ordered(q)
    ensures Ordered(q[1..]) && q[0] !in q[1..]
    ensures forall x: nat :: x in q <==> x == q[0] || x in q[1..]
    ensures forall x :: x in q[1..] ==> q[0] < x
  {
    assert q == [q[0]] + q[1..];
  }

  lemma WithoutSplit(q: seq<nat>, k: nat)
    requires k < |q| && Ordered(q)
    ensures Ordered(Without(q, k)) && q[k] !in Without(q, k)
    ensures forall x: nat :: x in q <==> x == q[k] || x in Without(q, k)
  {
    assert q == q[..k] + [q[k]] + q[k + 1..];
  }

  lemma TakeHeadFifo(s: State, q: seq<nat>, t: nat)
    requires q != [] && s.list.head == Some(q[0]) && Fifo(s, q) && t < |s.threads|
    ensures Fifo(TakeHead(s, t), q[1..])
  {
    HeadSplit(q);
    AppendedOrdered(s.left, q[0]);
  }

  lemma TakeHeadPointers(s: State, q: seq<nat>, t: nat)
    requires q != [] && s.list.head == Some(q[0]) && PointersExact(s, q) && Fifo(s, q) && t < |s.threads|
    ensures PointersExact(TakeHead(s, t), q[1..])
  {
    HeadSplit(q);
    var s' := TakeHead(s, t);
    forall e | e in s'.ptr ensures s'.ptr[e] in q[1..] {
      assert s.ptr[e] in q;
    }
  }

  lemma TakeHeadConserved(s: State, q: seq<nat>, t: nat)
    requires q != [] && s.list.head == Some(q[0]) && Conserved(s, q) && Fifo(s, q) && t < |s.threads|
    ensures Conserved(TakeHead(s, t), q[1..])
  {
    HeadSplit(q);
    var s', node := TakeHead(s, t), q[0];
    assert node in q && Places(s, q, node) == 1;
    assert node !in s.ran && node !in s.expired && node !in s.cancelled;
    assert s'.entryOf == s.entryOf && s'.cancelled == s.cancelled;
    forall x: nat ensures Places(s', q[1..], x) == Places(s, q, x) {
      assert x in q <==> x == node || x in q[1..];
    }
  }

  lemma TakeHeadSound(s: State, q: seq<nat>, t: nat)
    requires SoundAs(s, q) && q != [] && t < |s.threads|
    ensures SoundAs(TakeHead(s, t), q[1..])
  {
    CutLinked(s.list, q, 0);
    TakeHeadFifo(s, q, t);
    TakeHeadPointers(s, q, t);
    TakeHeadConserved(s, q, t);
  }

  lemma CancelPointers(s: State, q: seq<nat>, e: nat, k: nat)
    requires PointersExact(s, q) && Fifo(s, q) && Enabled(s, Cancel(e)) && e in s.ptr && k < |q| && q[k] == s.ptr[e]
    ensures PointersExact(Next(Unlinking, s, Cancel(e)), Without(q, k))
    ensures Fifo(Next(Unlinking, s, Cancel(e)), Without(q, k))
  {
    WithoutSplit(q, k);
    var s' := Next(Unlinking, s, Cancel(e));
    forall x | x in s'.ptr ensures s'.ptr[x] in Without(q, k) {
      assert s.ptr[x] in q;
    }
  }

  lemma CancelConserved(s: State, q: seq<nat>, e: nat, k: nat)
    requires Conserved(s, q) && Ordered(q) && Enabled(s, Cancel(e)) && e in s.ptr && k < |q| && q[k] == s.ptr[e]
    ensures Conserved(Next(Unlinking, s, Cancel(e)), Without(q, k))
  {
    WithoutSplit(q, k);
    var s', node := Next(Unlinking, s, Cancel(e)), q[k];
    assert node in q && Places(s, q, node) == 1;
    assert node !in s.ran && node !in s.expired && node !in s.cancelled;
    forall x: nat ensures Places(s', Without(q, k), x) == Places(s, q, x) {
      assert x in q <==> x == node || x in Without(q, k);
    }
  }

  /** cancel with a proper unlink takes exactly the node of the entry out of the queue. */
  lemma CancelSound(s: State, e: nat)
    requires QueueSound(s) && Enabled(s, Cancel(e)) && e in s.ptr
    ensures s.ptr[e] in Queue(s)
    ensures QueueSound(Next(Unlinking, s, Cancel(e)))
    ensures Queue(Next(Unlinking, s, Cancel(e))) == Without(Queue(s), PositionOf(Queue(s), s.ptr[e]))
  {
    var q := Queue(s);
    assert s.ptr[e] in q;
    var k := PositionOf(q, s.ptr[e]);
    UnlinkedLinked(s.list, q, k);
    CancelPointers(s, q, e, k);
    CancelConserved(s, q, e, k);
    SoundAsQueue(Next(Unlinking, s, Cancel(e)), Without(q, k));
  }

  lemma ScheduleConserved(form: CancelForm, s: State, q: seq<nat>, e: nat, woken: Option<nat>)
    requires Conserved(s, q) && Enabled(s, Schedule(e, woken)) && e !in s.ptr
    ensures Conserved(Next(form, s, Schedule(e, woken)), q + [|s.entryOf|])
  {
    var node, s' := |s.entryOf|, Next(form, s, Schedule(e, woken));
    assert Places(s, q, node) == 0;
    forall x: nat ensures Places(s', q + [node], x) == if x == node then 1 else Places(s, q, x) {
    }
  }

  lemma SchedulePointers(form: CancelForm, s: State, q: seq<nat>, e: nat, woken: Option<nat>)
    requires PointersExact(s, q) && Fifo(s, q) && Enabled(s, Schedule(e, woken)) && e !in s.ptr
    ensures PointersExact(Next(form, s, Schedule(e, woken)), q + [|s.entryOf|])
  {
    var node, s' := |s.entryOf|, Next(form, s, Schedule(e, woken));
    AppendedOrdered(q, node);
    forall x | x in q + [node] && x < |s'.entryOf| && s'.entryOf[x] in s'.live
      ensures s'.entryOf[x] in s'.ptr && s'.ptr[s'.entryOf[x]] == x
    {
      if x != node {
        assert x in q && x < |s.entryOf| && s'.entryOf[x] == s.entryOf[x];
      }
    }
  }

  lemma ScheduledAs(form: CancelForm, s: State, q: seq<nat>, e: nat, woken: Option<nat>)
    requires SoundAs(s, q) && Enabled(s, Schedule(e, woken)) && e !in s.ptr
    ensures SoundAs(Next(form, s, Schedule(e, woken)), q + [|s.entryOf|])
  {
    AppendedLinked(s.list, q);
    AppendedOrdered(q, |s.entryOf|);
    ScheduleConserved(form, s, q, e, woken);
    SchedulePointers(form, s, q, e, woken);
  }

  /** schedule appends a node for an entry that is not queued. */
  lemma ScheduleSound(form: CancelForm, s: State, e: nat, woken: Option<nat>)
    requires QueueSound(s) && Enabled(s, Schedule(e, woken))
    ensures QueueSound(Next(form, s, Schedule(e, woken)))
    ensures Queue(Next(form, s, Schedule(e, woken))) == Queue(s) + if e in s.ptr then [] else [|s.entryOf|]
  {
    if e !in s.ptr {
      ScheduledAs(form, s, Queue(s), e, woken);
      SoundAsQueue(Next(form, s, Schedule(e, woken)), Queue(s) + [|s.entryOf|]);
    } else {
      assert Queue(s) + [] == Queue(s);
    }
  }

  lemma SamePlaces(s: State, s': State)
    requires QueueSound(s) && SameQueue(s, s')
    ensures QueueSound(s') && Queue(s') == Queue(s)
  {
    forall x: nat ensures Places(s', Queue(s), x) == Places(s, Queue(s), x) {
    }
  }

  /** A look takes the head of the queue or nothing. */
  lemma TurnSound(s: State, t: nat)
    requires QueueSound(s) && t < |s.threads|
    ensures QueueSound(Looked(s, t))
    ensures Queue(Looked(s, t)) == if Takes(s) then Queue(s)[1..] else Queue(s)
  {
    if Takes(s) {
      var s1 := s.(shouldAdjust := false);
      SamePlaces(s, s1);
      TakingLook(s, t);
      TakeHeadSound(s1, Queue(s), t);
      SoundAsQueue(TakeHead(s1, t), Queue(s)[1..]);
    } else {
      IdleLook(s, t);
      SamePlaces(s, Looked(s, t));
    }
  }

  /** The node that a look takes is run by that executor exactly if its entry lives; otherwise it expires. The
      history says so, and the entry is released. */
  lemma TurnRuns(s: State, t: nat)
    requires QueueSound(s) && t < |s.threads| && Takes(s)
    ensures s.list.head.value < |s.entryOf|
    ensures var s', x := Looked(s, t), s.list.head.value;
      && s'.left == s.left + [x]
      && (if s.entryOf[x] in s.live then
            s'.threads[t] == Running(x) && s'.ran == s.ran + {x} && s'.expired == s.expired && s.entryOf[x] !in s'.ptr
          else s'.threads[t] == Ready && s'.ran == s.ran && s'.expired == s.expired + {x} && s'.ptr == s.ptr)
      && s'.live == s.live && forall e :: e in s.ptr && e != s.entryOf[x] ==> e in s'.ptr && s'.ptr[e] == s.ptr[e]
  {
    SoundHead(s);
    assert s.list.head.value in Queue(s);
    if s.entryOf[s.list.head.value] !in s.live {
      assert forall e :: e in s.ptr ==> e in s.live;
    }
  }

  /** Only looks run or expire nodes, and only cancels delete them otherwise. */
  lemma HistoryGrows(form: CancelForm, s: State, st: Step)
    requires Enabled(s, st)
    ensures var s' := Next(form, s, st);
      && (!st.Turn? ==> s'.left == s.left && s'.ran == s.ran && s'.expired == s.expired)
      && s'.cancelled == if st.Cancel? && st.e in s.ptr then s.cancelled + {s.ptr[st.e]} else s.cancelled
  {
    if ThreadsOnly(st) {
      ThreadsOnlyKeeps(form, s, st);
    }
  }

  lemma LifeSound(form: CancelForm, s: State, st: Step)
    requires QueueSound(s) && Enabled(s, st) && (st.Create? || st.Destroy?)
    ensures QueueSound(Next(form, s, st))
  {
    var s', q := Next(form, s, st), Queue(s);
    forall x: nat ensures Places(s', q, x) == Places(s, q, x) {
    }
    SoundAsQueue(s', q);
  }

  /** Every step but a cancel keeps the queue sound, in either form. */
  lemma OtherStepSound(form: CancelForm, s: State, st: Step)
    requires QueueSound(s) && Enabled(s, st) && !(st.Cancel? && st.e in s.ptr)
    ensures QueueSound(Next(form, s, st))
  {
    if ThreadsOnly(st) {
      ThreadsOnlyKeeps(form, s, st);
      SamePlaces(s, Next(form, s, st));
    } else {
      match st
      case Schedule(e, woken) => ScheduleSound(form, s, e, woken);
      case Turn(t) => TurnSound(s, t);
      case Create(e) => LifeSound(form, s, st);
      case Destroy(e) => LifeSound(form, s, st);
      case Cancel(e) =>
    }
  }

  /** Every step keeps the queue sound, with `cancel` unlinking its node. */
  lemma StepSound(s: State, st: Step)
    requires QueueSound(s) && Enabled(s, st)
    ensures QueueSound(Next(Unlinking, s, st))
  {
    if st.Cancel? && st.e in s.ptr {
      CancelSound(s, st.e);
    } else {
      OtherStepSound(Unlinking, s, st);
    }
  }

  lemma {:induction false} RunSound(s: State, sts: seq<Step>, s': State)
    requires QueueSound(s) && Run(Unlinking, s, sts, s')
    ensures QueueSound(s')
    decreases |sts|
  {
    if sts != [] {
      StepSound(s, sts[0]);
      RunSound(Next(Unlinking, s, sts[0]), sts[1..], s');
    }
  }

  /** From a sound queue no cancel fills an empty one. */
  lemma SoundNeverFills(form: CancelForm, s: State, st: Step)
    requires QueueSound(s)
    ensures !FillsUnseen(form, s, st)
  {
    SoundHead(s);
  }

  lemma StepWakes(s: State, st: Step)
    requires QueueSound(s) && WakeUp(s) && Enabled(s, st)
    ensures WakeUp(Next(Unlinking, s, st))
  {
    SoundNeverFills(Unlinking, s, st);
    StepWakesIff(Unlinking, s, st);
  }

  /** With a `cancel` that unlinks its node nobody ever sleeps through anything. */
  lemma {:induction false} RunWakes(s: State, sts: seq<Step>, s': State)
    requires QueueSound(s) && WakeUp(s) && Run(Unlinking, s, sts, s')
    ensures WakeUp(s')
    decreases |sts|
  {
    if sts != [] {
      StepSound(s, sts[0]);
      StepWakes(s, sts[0]);
      RunWakes(Next(Unlinking, s, sts[0]), sts[1..], s');
    }
  }

  /** Everything starts well, whatever the number of executors. */
  lemma InitializedSound(n: nat)
    ensures WakeUp(Initialized(n)) && QueueSound(Initialized(n))
  {
    SoundAsQueue(Initialized(n), []);
  }
}
