/** The event executor as interleaved steps (EventLoop.cpp): every lock-held region is one step, the
    threads blocked on the condition variable form the wait set, and the two forms of `cancel` differ
    in how they take a node out of the list. */
module EventExecutor {
  import opened NodeLists
  import opened Options

  datatype Thread =
    | Waiting             // in the wait set of the condition variable
    | Ready               // about to take the lock and look
    | Running(node: nat)  // executing an event without the lock
    | Exited

  /** `cancel` as it is written, or with a proper unlink. */
  datatype CancelForm = AsWritten | Unlinking

  datatype State = State(
    list: List,              // all nodes with their pointers
    entryOf: seq<nat>,       // the entry each node was created for
    ptr: map<nat, nat>,      // _event_ptr of the live entries that have one
    live: set<nat>,          // entries that still exist
    threads: seq<Thread>,
    handles: set<nat>,       // _threads
    shouldShutdown: bool,
    shouldAdjust: bool,
    target: nat,
    left: seq<nat>,          // history: nodes taken from the head, in order
    ran: set<nat>,           // history: nodes whose event was executed
    expired: set<nat>,       // history: nodes taken from the head whose entry was gone
    cancelled: set<nat>)     // history: nodes deleted by cancel

  datatype Step =
    | Create(e: nat)                        // a new entry comes into existence
    | Destroy(e: nat)                       // the last reference to an entry goes away
    | Schedule(e: nat, woken: Option<nat>)  // notify_one wakes some waiting thread, if there is one
    | Cancel(e: nat)
    | Resize(n: nat)
    | Spurious(t: nat)                      // a wait may end without a notification
    | Turn(t: nat)                          // one look under the lock by an executor
    | Finish(t: nat)                        // an event has been executed
    | BeginShutdown
    | EndShutdown
    | Spawn                                 // one more executor, as in initialize

  /** The nodes that nobody may use any more. A node whose event is being executed is deleted behind that. */
  function Gone(s: State): set<nat> {
    s.cancelled + s.ran + s.expired
  }

  /** The nodes the head leads to. */
  function Queue(s: State): seq<nat> {
    Chain(s.list.next, Gone(s), s.list.head)
  }

  // ------------------------------------------------------------------ steps

  function NotifyAll(ts: seq<Thread>): (r: seq<Thread>)
    ensures |r| == |ts|
    ensures forall i :: 0 <= i < |ts| ==> r[i] == if ts[i].Waiting? then Ready else ts[i]
  {
    seq(|ts|, i requires 0 <= i < |ts| => if ts[i].Waiting? then Ready else ts[i])
  }

  predicate AnyWaiting(ts: seq<Thread>) {
    exists i :: 0 <= i < |ts| && ts[i].Waiting?
  }

  /** The ids `from` .. `from + n - 1`. */
  function Ids(from: nat, n: nat): (r: set<nat>)
    ensures |r| == n
    ensures forall i: nat :: i in r <==> from <= i < from + n
  {
    if n == 0 then {} else Ids(from, n - 1) + {from + n - 1}
  }

  /** The nodes, the entries and the history are the same in both states. */
  predicate SameQueue(s: State, r: State) {
    && r.list == s.list && r.entryOf == s.entryOf && r.ptr == s.ptr && r.live == s.live
    && r.left == s.left && r.ran == s.ran && r.expired == s.expired && r.cancelled == s.cancelled
  }

  /** Start `n` executors. */
  function Spawned(s: State, n: nat): (r: State)
    ensures SameQueue(s, r)
  {
    s.(threads := s.threads + seq(n, _ => Ready),
       handles := s.handles + Ids(|s.threads|, n))
  }

  function AfterCancel(form: CancelForm, l: List, x: nat): List {
    match form
    case AsWritten => CutAt(l, x)
    case Unlinking => Unlinked(l, x)
  }

  function WithThread(s: State, t: nat, th: Thread): State
    requires t < |s.threads|
  {
    s.(threads := s.threads[t := th])
  }

  /** The part of a look that takes the head of the queue. */
  function TakeHead(s: State, t: nat): State
    requires t < |s.threads|
  {
    if s.list.head.None? then WithThread(s, t, Ready)
    else
      var node := s.list.head.value;
      var s1 := s.(list := CutAt(s.list, node), left := s.left + [node]);
      if node < |s.entryOf| && s.entryOf[node] in s.live then
        WithThread(s1, t, Running(node)).(
          ptr := map e | e in s.ptr && e != s.entryOf[node] :: s.ptr[e],
          ran := s.ran + {node})
      else
        WithThread(s1, t, Ready).(expired := s.expired + {node})
  }

  /** One pass through the loop of `_executor` with the lock held. */
  function Looked(s: State, t: nat): State
    requires t < |s.threads|
  {
    if !s.shouldShutdown && !s.shouldAdjust && s.list.head.None? then WithThread(s, t, Waiting)
    else if s.shouldShutdown then WithThread(s, t, Exited)
    else if s.shouldAdjust then
      if |s.handles| > s.target then
        WithThread(s, t, Exited).(handles := s.handles - {t}, shouldAdjust := |s.handles| - 1 != s.target)
      else TakeHead(s.(shouldAdjust := false), t)
    else TakeHead(s, t)
  }

  /** Everybody has to look whether the pool is too large. */
  function Marked(s: State): (r: State)
    ensures SameQueue(s, r)
  {
    s.(shouldAdjust := true, threads := NotifyAll(s.threads))
  }

  /** Mark the pool if it is larger than `n`. */
  function Rechecked(s: State, n: nat): (r: State)
    ensures SameQueue(s, r)
  {
    if |s.handles| > n then Marked(s) else s
  }

  /** threads(n) behind its equality check. */
  function Resized(s: State, n: nat): (r: State)
    ensures SameQueue(s, r)
  {
    Rechecked(Spawned(s.(target := n), if |s.handles| < n then n - |s.handles| else 0), n)
  }

  predicate Enabled(s: State, st: Step) {
    match st
    case Create(e) => e !in s.live && e !in s.ptr && forall i :: 0 <= i < |s.entryOf| ==> s.entryOf[i] != e
    case Destroy(e) => e in s.live
    case Schedule(e, woken) =>
      && e in s.live
      && (woken.None? ==> !AnyWaiting(s.threads))
      && (woken.Some? ==> woken.value < |s.threads| && s.threads[woken.value].Waiting?)
    case Cancel(e) => e in s.live
    case Resize(n) => true
    case Spurious(t) => t < |s.threads| && s.threads[t].Waiting?
    case Turn(t) => t < |s.threads| && s.threads[t].Ready?
    case Finish(t) => t < |s.threads| && s.threads[t].Running?
    case BeginShutdown => true
    case EndShutdown => s.shouldShutdown && forall t :: t in s.handles && t < |s.threads| ==> s.threads[t].Exited?
    case Spawn => true
  }

  function Next(form: CancelForm, s: State, st: Step): State
    requires Enabled(s, st)
  {
    match st
    case Create(e) => s.(live := s.live + {e})
    case Destroy(e) => s.(live := s.live - {e}, ptr := map x | x in s.ptr && x != e :: s.ptr[x])
    case Schedule(e, woken) =>
      if e in s.ptr then s
      else
        var node := |s.entryOf|;
        s.(list := Appended(s.list), entryOf := s.entryOf + [e], ptr := s.ptr[e := node],
           threads := if woken.Some? then s.threads[woken.value := Ready] else s.threads)
    case Cancel(e) =>
      if e !in s.ptr then s
      else
        s.(list := AfterCancel(form, s.list, s.ptr[e]),
           ptr := map x | x in s.ptr && x != e :: s.ptr[x],
           cancelled := s.cancelled + {s.ptr[e]})
    case Resize(n) => if s.target == n then s else Resized(s, n)
    case Spurious(t) => WithThread(s, t, Ready)
    case Turn(t) => Looked(s, t)
    case Finish(t) => WithThread(s, t, Ready)
    case BeginShutdown => s.(shouldShutdown := true, threads := NotifyAll(s.threads))
    case EndShutdown => s.(shouldShutdown := false)
    case Spawn => Spawned(s, 1)
  }

  /** A look that takes the head. */
  predicate Takes(s: State) {
    s.list.head.Some? && !s.shouldShutdown && !(s.shouldAdjust && |s.handles| > s.target)
  }

  /** The successor of a node has not been deleted by cancel. */
  predicate Intact(s: State, x: nat) {
    At(s.list.next, x).Some? ==> At(s.list.next, x).value !in s.cancelled
  }

  /** The step uses no deleted node. Behind one that does, nothing can be said about the code. */
  predicate Defined(s: State, st: Step) {
    match st
    case Cancel(e) => e in s.ptr ==> Intact(s, s.ptr[e])
    case Turn(t) => Takes(s) ==> Intact(s, s.list.head.value)
    case _ => true
  }

  predicate Run(form: CancelForm, s: State, sts: seq<Step>, s': State)
    decreases |sts|
  {
    if sts == [] then s' == s
    else Enabled(s, sts[0]) && Defined(s, sts[0]) && Run(form, Next(form, s, sts[0]), sts[1..], s')
  }

  /** A run may go on. */
  lemma {:induction false} RunOn(form: CancelForm, s: State, sts: seq<Step>, s1: State, st: Step)
    requires Run(form, s, sts, s1) && Enabled(s1, st) && Defined(s1, st)
    ensures Run(form, s, sts + [st], Next(form, s1, st))
    decreases |sts|
  {
    if sts != [] {
      RunOn(form, Next(form, s, sts[0]), sts[1..], s1, st);
      assert (sts + [st])[1..] == sts[1..] + [st];
    }
  }

  // ------------------------------------------------------------------ no lost wake-up

  predicate Executing(s: State) {
    exists t :: 0 <= t < |s.threads| && !s.threads[t].Exited?
  }

  predicate SomeoneAwake(s: State) {
    exists t :: 0 <= t < |s.threads| && !s.threads[t].Exited? && !s.threads[t].Waiting?
  }

  /** Nobody sleeps through a shutdown or a resize, and no node waits at the head while everybody sleeps. */
  ghost predicate WakeUp(s: State) {
    && (s.shouldAdjust || s.shouldShutdown ==> !AnyWaiting(s.threads))
    && (s.list.head.Some? && Executing(s) ==> SomeoneAwake(s))
  }

  lemma AwakeUnlessAllWait(s: State)
    requires Executing(s) && !AnyWaiting(s.threads)
    ensures SomeoneAwake(s)
  {
    var t :| 0 <= t < |s.threads| && !s.threads[t].Exited?;
    assert !s.threads[t].Waiting?;
  }

  lemma ScheduleWakes(form: CancelForm, s: State, e: nat, woken: Option<nat>)
    requires WakeUp(s) && Enabled(s, Schedule(e, woken))
    ensures WakeUp(Next(form, s, Schedule(e, woken)))
  {
    var s' := Next(form, s, Schedule(e, woken));
    if e !in s.ptr {
      if woken.Some? {
        assert s'.threads[woken.value].Ready?;
      } else if Executing(s) {
        AwakeUnlessAllWait(s);
      }
    }
  }

  lemma TurnWakes(form: CancelForm, s: State, t: nat)
    requires WakeUp(s) && Enabled(s, Turn(t))
    ensures WakeUp(Next(form, s, Turn(t)))
  {
    var s' := Next(form, s, Turn(t));
    assert SomeoneAwake(s);
    forall i | 0 <= i < |s'.threads| && i != t ensures s'.threads[i] == s.threads[i] {
    }
    if s'.list.head.Some? && Executing(s') {
      if s'.threads[t].Exited? {
        assert !AnyWaiting(s.threads);
        assert !AnyWaiting(s'.threads);
        AwakeUnlessAllWait(s');
      } else {
        assert !s'.threads[t].Waiting?;
      }
    }
  }

  lemma ResizeWakes(form: CancelForm, s: State, n: nat)
    requires WakeUp(s)
    ensures WakeUp(Next(form, s, Resize(n)))
  {
    if s.target != n {
      ResizedWakes(s, n);
    }
  }

  lemma ResizedWakes(s: State, n: nat)
    requires WakeUp(s)
    ensures WakeUp(Resized(s, n))
  {
    var k := if |s.handles| < n then n - |s.handles| else 0;
    SpawnWakes(s.(target := n), k);
    RecheckedWakes(Spawned(s.(target := n), k), n);
  }

  lemma RecheckedWakes(s: State, n: nat)
    requires WakeUp(s)
    ensures WakeUp(Rechecked(s, n))
  {
    NotifyWakes(s);
  }

  lemma NotifyWakes(s: State)
    ensures WakeUp(Marked(s))
    ensures WakeUp(s.(shouldShutdown := true, threads := NotifyAll(s.threads)))
  {
    var s1 := s.(threads := NotifyAll(s.threads));
    if Executing(s1) {
      AwakeUnlessAllWait(s1);
      var t :| 0 <= t < |s1.threads| && !s1.threads[t].Exited? && !s1.threads[t].Waiting?;
      assert SomeoneAwake(Marked(s));
      assert SomeoneAwake(s.(shouldShutdown := true, threads := NotifyAll(s.threads)));
    }
  }

  lemma SpawnWakes(s: State, n: nat)
    requires WakeUp(s)
    ensures WakeUp(Spawned(s, n))
  {
    var s' := Spawned(s, n);
    forall i | 0 <= i < |s'.threads| && s'.threads[i].Waiting? ensures i < |s.threads| && s.threads[i].Waiting? {
    }
    if n > 0 {
      assert s'.threads[|s.threads|].Ready?;
    } else if Executing(s') && s.list.head.Some? {
      assert s'.threads == s.threads;
    }
  }

  /** Cancelling a node makes some node the head of an empty queue. */
  predicate Refills(form: CancelForm, l: List, x: nat) {
    l.head.None? && At(l.next, x).Some? && (form.Unlinking? ==> At(l.previous, x).None?)
  }

  /** A cancel that fills the queue while all executors sleep. It notifies nobody. */
  predicate FillsUnseen(form: CancelForm, s: State, st: Step) {
    st.Cancel? && st.e in s.ptr && Refills(form, s.list, s.ptr[st.e]) && Executing(s) && !SomeoneAwake(s)
  }

  lemma CancelWakesIff(form: CancelForm, s: State, e: nat)
    requires WakeUp(s) && Enabled(s, Cancel(e))
    ensures WakeUp(Next(form, s, Cancel(e))) <==> !FillsUnseen(form, s, Cancel(e))
  {
    var s' := Next(form, s, Cancel(e));
    assert s'.threads == s.threads;
  }

  /** A step keeps everybody who is needed awake exactly if it does not fill the queue unseen. */
  lemma StepWakesIff(form: CancelForm, s: State, st: Step)
    requires WakeUp(s) && Enabled(s, st)
    ensures WakeUp(Next(form, s, st)) <==> !FillsUnseen(form, s, st)
  {
    match st
    case Schedule(e, woken) => ScheduleWakes(form, s, e, woken);
    case Turn(t) => TurnWakes(form, s, t);
    case Resize(n) => ResizeWakes(form, s, n);
    case Spawn => SpawnWakes(s, 1);
    case Spurious(t) => ReadyWakes(s, t);
    case Finish(t) => ReadyWakes(s, t);
    case BeginShutdown => NotifyWakes(s);
    case Cancel(e) => CancelWakesIff(form, s, e);
    case _ =>
  }

  lemma ReadyWakes(s: State, t: nat)
    requires WakeUp(s) && t < |s.threads|
    ensures WakeUp(WithThread(s, t, Ready))
  {
    var s' := WithThread(s, t, Ready);
    assert s'.threads[t].Ready?;
    forall i | 0 <= i < |s'.threads| && i != t ensures s'.threads[i] == s.threads[i] {
    }
  }

  ghost predicate AwakeThroughout(form: CancelForm, s: State, sts: seq<Step>)
    decreases |sts|
  {
    WakeUp(s) && (sts != [] && Enabled(s, sts[0]) ==> AwakeThroughout(form, Next(form, s, sts[0]), sts[1..]))
  }

  predicate NeverFillsUnseen(form: CancelForm, s: State, sts: seq<Step>)
    decreases |sts|
  {
    sts != [] && Enabled(s, sts[0]) ==>
      !FillsUnseen(form, s, sts[0]) && NeverFillsUnseen(form, Next(form, s, sts[0]), sts[1..])
  }

  /** Nobody sleeps through anything in any state of a run exactly if no cancel of the run fills the queue
      unseen. */
  lemma {:induction false} RunWakesIff(form: CancelForm, s: State, sts: seq<Step>, s': State)
    requires WakeUp(s) && Run(form, s, sts, s')
    ensures AwakeThroughout(form, s, sts) <==> NeverFillsUnseen(form, s, sts)
    decreases |sts|
  {
    if sts != [] {
      StepWakesIff(form, s, sts[0]);
      if !FillsUnseen(form, s, sts[0]) {
        RunWakesIff(form, Next(form, s, sts[0]), sts[1..], s');
      }
    }
  }

  // ------------------------------------------------------------------ pool size

  /** The handles are exactly the executors that have not exited, and no shutdown is under way. */
  ghost predicate HandlesLive(s: State) {
    && !s.shouldShutdown
    && (forall t :: t in s.handles ==> t < |s.threads|)
    && (forall t :: 0 <= t < |s.threads| ==> (t in s.handles <==> !s.threads[t].Exited?))
  }

  /** After the first effective resize the pool is never too small, and one that is too large is marked. */
  ghost predicate Sized(s: State) {
    && HandlesLive(s)
    && |s.handles| >= s.target
    && (|s.handles| > s.target ==> s.shouldAdjust)
  }

  predicate NoShutdown(st: Step) {
    !st.BeginShutdown? && !st.EndShutdown? && !st.Spawn?
  }

  lemma LookSize(s: State, t: nat)
    requires Sized(s) && t < |s.threads| && s.threads[t].Ready?
    ensures Sized(Looked(s, t)) && Looked(s, t).target == s.target
    ensures |Looked(s, t).handles| == if |s.handles| > s.target then |s.handles| - 1 else |s.handles|
  {
    // the executor finds its own handle
    assert t in s.handles;
  }

  lemma SpawnedLive(s: State, n: nat)
    requires HandlesLive(s)
    ensures HandlesLive(Spawned(s, n)) && |Spawned(s, n).handles| == |s.handles| + n
    ensures Spawned(s, n).target == s.target
  {
    assert s.handles !! Ids(|s.threads|, n);
  }

  /** The target is what was asked for. */
  lemma ResizeTargets(form: CancelForm, s: State, n: nat)
    ensures Next(form, s, Resize(n)).target == n
  {
  }

  /** An effective resize brings the pool into the sized regime from any state without shutdown. A pool that is too
      small grows to the size asked for at once; one that is too large keeps its size for the time being. */
  lemma ResizeSizes(form: CancelForm, s: State, n: nat)
    requires HandlesLive(s) && s.target != n
    ensures Sized(Next(form, s, Resize(n))) && Next(form, s, Resize(n)).target == n
    ensures |Next(form, s, Resize(n)).handles| == Max(n, |s.handles|)
  {
    ResizedSizes(s, n);
  }

  lemma ResizedSizes(s: State, n: nat)
    requires HandlesLive(s)
    ensures Sized(Resized(s, n)) && Resized(s, n).target == n && |Resized(s, n).handles| == Max(n, |s.handles|)
  {
    var k := if |s.handles| < n then n - |s.handles| else 0;
    var s1 := Spawned(s.(target := n), k);
    SpawnedLive(s.(target := n), k);
    NotifiedLive(s1);
    assert Resized(s, n) == if |s1.handles| > n then Marked(s1) else s1;
    assert Sized(Marked(s1));
  }

  lemma NotifiedLive(s: State)
    requires HandlesLive(s)
    ensures HandlesLive(Marked(s)) && Marked(s).shouldAdjust
    ensures Marked(s).handles == s.handles && Marked(s).target == s.target
  {
  }

  lemma StepSized(form: CancelForm, s: State, st: Step)
    requires Sized(s) && Enabled(s, st) && NoShutdown(st)
    ensures Sized(Next(form, s, st))
  {
    match st
    case Turn(t) => LookSize(s, t);
    case Resize(n) =>
      if s.target != n {
        ResizeSizes(form, s, n);
      }
    case _ =>
  }

  function Turns(sts: seq<Step>): nat {
    if sts == [] then 0 else (if sts[0].Turn? then 1 else 0) + Turns(sts[1..])
  }

  function Max(a: int, b: int): int {
    if a > b then a else b
  }

  /** The exact law of shrinking: without further resizes every look of an executor takes one thread off
      an oversize pool, until the target is met, and never one more. */
  lemma {:induction false} PoolSettles(form: CancelForm, s: State, sts: seq<Step>, s': State)
    requires Sized(s) && Run(form, s, sts, s')
    requires forall i :: 0 <= i < |sts| ==> NoShutdown(sts[i]) && !sts[i].Resize?
    ensures Sized(s') && s'.target == s.target
    ensures |s'.handles| == Max(s.target, |s.handles| - Turns(sts))
    decreases |sts|
  {
    if sts != [] {
      var s1 := Next(form, s, sts[0]);
      StepSized(form, s, sts[0]);
      if sts[0].Turn? {
        LookSize(s, sts[0].t);
      }
      PoolSettles(form, s1, sts[1..], s');
    }
  }

  lemma {:induction false} RunSized(form: CancelForm, s: State, sts: seq<Step>, s': State)
    requires Sized(s) && Run(form, s, sts, s') && forall i :: 0 <= i < |sts| ==> NoShutdown(sts[i])
    ensures Sized(s')
    decreases |sts|
  {
    if sts != [] {
      StepSized(form, s, sts[0]);
      RunSized(form, Next(form, s, sts[0]), sts[1..], s');
    }
  }

  /** From a sized pool without resizes exactly the target is left as soon as executors have looked as often as
      there were executors too many. */
  lemma Settles(form: CancelForm, s: State, sts: seq<Step>, s': State)
    requires Sized(s) && Run(form, s, sts, s')
    requires forall i :: 0 <= i < |sts| ==> NoShutdown(sts[i]) && !sts[i].Resize?
    ensures |s'.handles| == s'.target <==> Turns(sts) >= |s.handles| - s.target
    ensures s'.target == s.target
  {
    PoolSettles(form, s, sts, s');
  }

  /** threads(n): the pool gets exactly `n` executors, as soon as executors have looked as often as there were
      executors too many. */
  lemma ResizeSettles(form: CancelForm, s: State, n: nat, s1: State, sts: seq<Step>, s': State)
    requires HandlesLive(s) && s.target != n && s1 == Next(form, s, Resize(n)) && Run(form, s1, sts, s')
    requires forall i :: 0 <= i < |sts| ==> NoShutdown(sts[i]) && !sts[i].Resize?
    ensures s'.target == n && (|s'.handles| == n <==> Turns(sts) >= |s.handles| - n)
  {
    ResizeSizes(form, s, n);
    Settles(form, s1, sts, s');
  }

  /** The mark goes away with the look that finds or makes the pool the right size, and nothing is done with it
      otherwise. */
  lemma LookUnmarks(s: State, t: nat)
    requires Sized(s) && t < |s.threads| && s.threads[t].Ready?
    ensures Looked(s, t).shouldAdjust <==> |Looked(s, t).handles| > s.target
    ensures Looked(s, t).threads[t].Exited? <==> |s.handles| > s.target
  {
    assert t in s.handles;
  }

  /** An executor goes to sleep exactly if it finds nothing to do: no shutdown, no mark, and no node. */
  lemma LookSleepsIff(s: State, t: nat)
    requires t < |s.threads|
    ensures Looked(s, t).threads[t].Waiting? <==> !s.shouldShutdown && !s.shouldAdjust && s.list.head.None?
    ensures forall u :: 0 <= u < |s.threads| && u != t ==> Looked(s, t).threads[u] == s.threads[u]
  {
  }

  /** A wait that ends and an event that has been executed are followed by a look. */
  lemma LooksAgain(form: CancelForm, s: State, t: nat)
    ensures Enabled(s, Spurious(t)) ==> Enabled(Next(form, s, Spurious(t)), Turn(t))
    ensures Enabled(s, Finish(t)) ==> Enabled(Next(form, s, Finish(t)), Turn(t))
  {
  }

  // ------------------------------------------------------------------ shutdown

  /** Behind the start of a shutdown nobody sleeps, and every look of an executor is its last. */
  lemma ShutdownBegins(form: CancelForm, s: State)
    ensures var s' := Next(form, s, BeginShutdown);
      && s'.shouldShutdown && s'.handles == s.handles && |s'.threads| == |s.threads|
      && (forall t :: 0 <= t < |s.threads| ==> !s'.threads[t].Waiting?)
  {
  }

  /** During a shutdown a look ends the executor and takes nothing, and nobody who has ended comes back. */
  lemma ShutdownStep(form: CancelForm, s: State, st: Step, t: nat)
    requires s.shouldShutdown && Enabled(s, st) && !st.EndShutdown? && t < |s.threads|
    requires s.threads[t].Exited? || st == Turn(t)
    ensures var s' := Next(form, s, st);
      && s'.shouldShutdown && t < |s'.threads| && s'.threads[t].Exited?
      && (st.Turn? ==> s'.list == s.list && s'.left == s.left && s'.ran == s.ran)
  {
  }

  predicate LooksIn(sts: seq<Step>, t: nat) {
    exists i :: 0 <= i < |sts| && sts[i] == Turn(t)
  }

  lemma {:induction false} ShutdownEnds(form: CancelForm, s: State, sts: seq<Step>, s': State, t: nat)
    requires s.shouldShutdown && Run(form, s, sts, s') && forall i :: 0 <= i < |sts| ==> !sts[i].EndShutdown?
    requires t < |s.threads| && (s.threads[t].Exited? || LooksIn(sts, t))
    ensures s'.shouldShutdown && t < |s'.threads| && s'.threads[t].Exited?
    decreases |sts|
  {
    if sts != [] {
      var s1 := Next(form, s, sts[0]);
      if s.threads[t].Exited? || sts[0] == Turn(t) {
        ShutdownStep(form, s, sts[0], t);
      } else {
        var i :| 0 <= i < |sts| && sts[i] == Turn(t);
        assert sts[1..][i - 1] == Turn(t);
        ShutdownGoesOn(form, s, sts[0]);
      }
      ShutdownEnds(form, s1, sts[1..], s', t);
    }
  }

  lemma ShutdownGoesOn(form: CancelForm, s: State, st: Step)
    requires s.shouldShutdown && Enabled(s, st) && !st.EndShutdown?
    ensures Next(form, s, st).shouldShutdown && |Next(form, s, st).threads| >= |s.threads|
  {
  }

  /** A shutdown that starts no executors can end once everybody has looked. */
  lemma ShutdownCanEnd(form: CancelForm, s: State, sts: seq<Step>, s': State)
    requires s.shouldShutdown && Run(form, s, sts, s') && s'.handles <= s.handles
    requires forall i :: 0 <= i < |sts| ==> !sts[i].EndShutdown?
    requires forall t :: t in s.handles && t < |s.threads| ==> s.threads[t].Exited? || LooksIn(sts, t)
    requires forall t :: t in s.handles ==> t < |s.threads|
    ensures Enabled(s', EndShutdown) && !Next(form, s', EndShutdown).shouldShutdown
  {
    forall t | t in s'.handles ensures t < |s'.threads| && s'.threads[t].Exited? {
      ShutdownEnds(form, s, sts, s', t);
    }
    KeepsShutdown(form, s, sts, s');
  }

  lemma {:induction false} KeepsShutdown(form: CancelForm, s: State, sts: seq<Step>, s': State)
    requires s.shouldShutdown && Run(form, s, sts, s') && forall i :: 0 <= i < |sts| ==> !sts[i].EndShutdown?
    ensures s'.shouldShutdown
    decreases |sts|
  {
    if sts != [] {
      ShutdownGoesOn(form, s, sts[0]);
      KeepsShutdown(form, Next(form, s, sts[0]), sts[1..], s');
    }
  }

  /** While the pool is too large some executor is able to act: it is awake. */
  lemma OversizeProgress(s: State)
    requires Sized(s) && WakeUp(s) && |s.handles| > s.target
    ensures SomeoneAwake(s)
  {
    var t :| t in s.handles;
    assert !s.threads[t].Exited?;
    AwakeUnlessAllWait(s);
  }

  /** The state behind `initialize(n)`: the target is not set. */
  function Initialized(n: nat): State {
    State(EMPTY, [], map[], {}, seq(n, _ => Ready), Ids(0, n), false, false, 0, [], {}, {}, {})
  }

  lemma InitializedLive(n: nat)
    ensures HandlesLive(Initialized(n)) && |Initialized(n).handles| == n
  {
  }

  /** A resize to zero directly behind `initialize(n)` is taken for no change; every other resize works. */
  lemma ResizeAfterInitialize(form: CancelForm, n: nat, size: nat)
    ensures Sized(Next(form, Initialized(n), Resize(size))) <==> size > 0 || n == 0
    ensures size == 0 ==> Next(form, Initialized(n), Resize(size)) == Initialized(n)
  {
    InitializedLive(n);
    if size > 0 {
      ResizeSizes(form, Initialized(n), size);
    }
  }
}
