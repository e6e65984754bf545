/** What `cancel` as it is written does: it makes the successor of the cancelled node the head, wherever the
    node was. Nodes in front stay behind, torn off the list, and later cancels may put them back. */
module EventLoss {
  import opened EventExecutor
  import opened EventSound
  import opened NodeLists
  import opened Options
  import opened Sequences

  // ------------------------------------------------------------------ one cancel in a sound queue

  /** Making the successor of a node the head is the removal of the node exactly if it is the head. */
  lemma CutIsUnlinkIffHead(l: List, q: seq<nat>, k: nat)
    requires Linked(l, q) && k < |q|
    ensures CutAt(l, q[k]) == Unlinked(l, q[k]) <==> k == 0
  {
    assert At(l.next, q[k]) == After(q, k) && At(l.previous, q[k]) == Before(q, k);
    assert k > 0 && k + 1 < |q| ==> q[0] < q[k + 1];
  }

  lemma SoundRange(s: State, i: nat, k: nat)
    requires QueueSound(s) && i < |Queue(s)| && k < |Queue(s)|
    ensures Queue(s)[i] !in Gone(s) && Queue(s)[i] < |s.entryOf| && (Queue(s)[i] == Queue(s)[k] <==> i == k)
  {
    assert Queue(s)[i] in Queue(s);
    QueuedOrGone(s, Queue(s)[i]);
  }

  lemma CutChain(s: State, q: seq<nat>, gone: set<nat>, k: nat)
    requires Linked(s.list, q) && k < |q| && forall i :: k < i < |q| ==> q[i] !in gone
    ensures Chain(s.list.next, gone, CutAt(s.list, q[k]).head) == q[k + 1..]
  {
    assert At(s.list.next, q[k]) == After(q, k);
    ChainAlong(s.list.next, gone, q, k + 1, |q|);
  }

  /** The queue behind a cancel is what was behind the node. */
  lemma CutQueue(s: State, e: nat, k: nat)
    requires QueueSound(s) && Enabled(s, Cancel(e)) && e in s.ptr && k < |Queue(s)| && Queue(s)[k] == s.ptr[e]
    ensures Gone(Next(AsWritten, s, Cancel(e))) == Gone(s) + {s.ptr[e]}
    ensures Queue(Next(AsWritten, s, Cancel(e))) == Queue(s)[k + 1..]
  {
    var q, s' := Queue(s), Next(AsWritten, s, Cancel(e));
    assert Gone(s') == Gone(s) + {s.ptr[e]};
    forall i: nat | k < i < |q| ensures q[i] !in Gone(s') {
      SoundRange(s, i, k);
    }
    CutChain(s, q, Gone(s'), k);
  }

  lemma FormsAgreeIff(s: State, e: nat)
    requires Enabled(s, Cancel(e)) && e in s.ptr
    ensures Next(AsWritten, s, Cancel(e)) == Next(Unlinking, s, Cancel(e)) <==>
      CutAt(s.list, s.ptr[e]) == Unlinked(s.list, s.ptr[e])
  {
    var s1, s2 := Next(AsWritten, s, Cancel(e)), Next(Unlinking, s, Cancel(e));
    assert s1.list == CutAt(s.list, s.ptr[e]) && s2.list == Unlinked(s.list, s.ptr[e]);
    assert s1 == s2.(list := s1.list);
  }

  /** As written, `cancel` of the node at position k keeps `q[k+1..]`. That is the removal of the node
      exactly if it is the head. */
  lemma CancelAsWrittenKeeps(s: State, e: nat)
    requires QueueSound(s) && Enabled(s, Cancel(e)) && e in s.ptr
    ensures s.ptr[e] in Queue(s)
    ensures var k := PositionOf(Queue(s), s.ptr[e]);
            && Queue(Next(AsWritten, s, Cancel(e))) == Queue(s)[k + 1..]
            && (Next(AsWritten, s, Cancel(e)) == Next(Unlinking, s, Cancel(e)) <==> k == 0)
  {
    CancelSound(s, e);
    var q, k := Queue(s), PositionOf(Queue(s), s.ptr[e]);
    CutQueue(s, e, k);
    CutIsUnlinkIffHead(s.list, q, k);
    FormsAgreeIff(s, e);
  }

  lemma FirstHasNoPlace(s: State, q: seq<nat>, e: nat, k: nat)
    requires Conserved(s, q) && Ordered(q) && Enabled(s, Cancel(e)) && e in s.ptr && 0 < k < |q| && q[k] == s.ptr[e]
    ensures !Conserved(Next(AsWritten, s, Cancel(e)), q[k + 1..])
  {
    var s', first := Next(AsWritten, s, Cancel(e)), q[0];
    BehindCut(q, k, 0);
    assert first in q && first != q[k] && Places(s, q, first) == 1;
    assert s'.ran == s.ran && s'.expired == s.expired && s'.cancelled == s.cancelled + {q[k]};
    assert Places(s', q[k + 1..], first) == 0 && first < |s'.entryOf|;
  }

  /** Every node keeps a place exactly if the cancelled one was the head. */
  lemma CancelAsWrittenConserves(s: State, e: nat)
    requires QueueSound(s) && Enabled(s, Cancel(e)) && e in s.ptr
    ensures var s' := Next(AsWritten, s, Cancel(e));
            Conserved(s', Queue(s')) <==> s.list.head == Some(s.ptr[e])
  {
    CancelAsWrittenKeeps(s, e);
    var q, k := Queue(s), PositionOf(Queue(s), s.ptr[e]);
    SoundRange(s, 0, k);
    if k == 0 {
      CancelSound(s, e);
    } else {
      FirstHasNoPlace(s, q, e, k);
    }
  }

  lemma CutPointers(s: State, q: seq<nat>, e: nat, k: nat)
    requires PointersExact(s, q) && Ordered(q) && Enabled(s, Cancel(e)) && e in s.ptr && k < |q| && q[k] == s.ptr[e]
    requires forall i :: 0 <= i < k ==> q[i] < |s.entryOf| && s.entryOf[q[i]] !in s.live
    ensures PointersExact(Next(AsWritten, s, Cancel(e)), q[k + 1..])
  {
    var s' := Next(AsWritten, s, Cancel(e));
    forall c | c in s'.ptr ensures s'.ptr[c] in q[k + 1..] {
      assert s.ptr[c] in q;
      var i: nat :| i < |q| && q[i] == s.ptr[c];
      BehindCut(q, k, i);
    }
    BehindCut(q, k, k);
    forall x | x in q[k + 1..] ensures x in q && x != q[k] {
    }
  }

  lemma LeftPointing(s: State, q: seq<nat>, e: nat, k: nat, i: nat)
    requires PointersExact(s, q) && Ordered(q) && Enabled(s, Cancel(e)) && e in s.ptr && k < |q| && q[k] == s.ptr[e]
    requires i < k && q[i] < |s.entryOf| && s.entryOf[q[i]] in s.live
    ensures !PointersExact(Next(AsWritten, s, Cancel(e)), q[k + 1..])
  {
    BehindCut(q, k, i);
    assert q[i] in q && Next(AsWritten, s, Cancel(e)).ptr[s.entryOf[q[i]]] == q[i];
  }

  /** The pointers are exact behind it exactly if no live entry was queued in front. */
  lemma ExactAfterCut(s: State, e: nat)
    requires QueueSound(s) && Enabled(s, Cancel(e)) && e in s.ptr && s.ptr[e] in Queue(s)
    ensures var s', k := Next(AsWritten, s, Cancel(e)), PositionOf(Queue(s), s.ptr[e]);
            PointersExact(s', Queue(s')) <==>
            forall i :: 0 <= i < k ==> Queue(s)[i] < |s.entryOf| && s.entryOf[Queue(s)[i]] !in s.live
  {
    CancelAsWrittenKeeps(s, e);
    ExactBehind(s, Queue(s), e, PositionOf(Queue(s), s.ptr[e]));
  }

  lemma ExactBehind(s: State, q: seq<nat>, e: nat, k: nat)
    requires PointersExact(s, q) && Fifo(s, q) && Enabled(s, Cancel(e)) && e in s.ptr && k < |q| && q[k] == s.ptr[e]
    ensures PointersExact(Next(AsWritten, s, Cancel(e)), q[k + 1..]) <==>
            forall i :: 0 <= i < k ==> q[i] < |s.entryOf| && s.entryOf[q[i]] !in s.live
  {
    forall i | 0 <= i < k ensures q[i] < |s.entryOf| {
      assert q[i] in q;
    }
    if i: nat :| i < k && s.entryOf[q[i]] in s.live {
      LeftPointing(s, q, e, k, i);
    } else {
      CutPointers(s, q, e, k);
    }
  }

  // ------------------------------------------------------------------ lost entries

  /** The entry lives and is marked as queued, but its node is not in the queue. */
  predicate Lost(s: State, e: nat) {
    e in s.live && e in s.ptr && s.ptr[e] !in Queue(s)
  }

  /** `cancel` as it is written loses every live entry that was queued in front. */
  lemma CancelLoses(s: State, e: nat, other: nat)
    requires QueueSound(s) && Enabled(s, Cancel(e)) && e in s.ptr && other in s.ptr
    requires s.ptr[e] in Queue(s) && s.ptr[other] in Queue(s)
    requires PositionOf(Queue(s), s.ptr[other]) < PositionOf(Queue(s), s.ptr[e])
    ensures Lost(Next(AsWritten, s, Cancel(e)), other)
  {
    var q, k, j := Queue(s), PositionOf(Queue(s), s.ptr[e]), PositionOf(Queue(s), s.ptr[other]);
    CancelAsWrittenKeeps(s, e);
    BehindCut(q, k, j);
  }

  /** Cancelling one of the lost entries next uses a deleted node exactly if it was queued directly in front
      of the cancelled one. Otherwise it makes the queue what was between the two. */
  lemma CutOffComesBack(s: State, e: nat, k: nat, c: nat, j: nat)
    requires QueueSound(s) && Enabled(s, Cancel(e)) && e in s.ptr && c in s.ptr
    requires j < k < |Queue(s)| && Queue(s)[k] == s.ptr[e] && Queue(s)[j] == s.ptr[c]
    ensures var s1 := Next(AsWritten, s, Cancel(e));
            && Enabled(s1, Cancel(c))
            && (Defined(s1, Cancel(c)) <==> j < k - 1)
            && (j < k - 1 ==> Queue(Next(AsWritten, s1, Cancel(c))) == Queue(s)[j + 1..k])
  {
    var q, s1 := Queue(s), Next(AsWritten, s, Cancel(e));
    var s2 := Next(AsWritten, s1, Cancel(c));
    CutQueue(s, e, k);
    assert Gone(s2) == Gone(s) + {q[k], q[j]};
    SoundRange(s, j + 1, k);
    assert At(s.list.next, q[j]) == After(q, j);
    forall i: nat | j < i < k ensures q[i] !in Gone(s2) {
      SoundRange(s, i, k);
      SoundRange(s, i, j);
    }
    ChainAlong(s.list.next, Gone(s2), q, j + 1, k);
  }

  // ------------------------------------------------------------------ torn lists

  /** A node that is still there is followed by a deleted one. */
  ghost predicate Torn(s: State) {
    exists x: nat :: TornAt(s, x)
  }

  predicate TornAt(s: State, x: nat) {
    Present(s.list, Gone(s), x) && At(s.list.next, x).Some? && At(s.list.next, x).value in s.cancelled
  }

  lemma SoundIsNotTorn(s: State)
    requires QueueSound(s)
    ensures !Torn(s)
  {
    forall x: nat ensures !TornAt(s, x) {
      QueuedOrGone(s, x);
      if x in Queue(s) {
        QueuedPlaced(s, x);
        if At(s.list.next, x).Some? {
          QueuedOrGone(s, At(s.list.next, x).value);
        }
      }
    }
  }

  lemma TornInFront(s: State, q: seq<nat>, e: nat, k: nat)
    requires Linked(s.list, q) && Enabled(s, Cancel(e)) && e in s.ptr && 0 < k < |q| && q[k] == s.ptr[e]
    requires q[k - 1] !in Gone(s)
    ensures TornAt(Next(AsWritten, s, Cancel(e)), q[k - 1])
  {
    var s' := Next(AsWritten, s, Cancel(e));
    assert At(s.list.next, q[k - 1]) == After(q, k - 1);
    assert s'.list.next == s.list.next && Gone(s') == Gone(s) + {q[k]};
  }

  lemma LossyCancelTears(s: State, e: nat)
    requires QueueSound(s) && Enabled(s, Cancel(e)) && e in s.ptr && s.list.head != Some(s.ptr[e])
    ensures Torn(Next(AsWritten, s, Cancel(e)))
  {
    CancelSound(s, e);
    var k := PositionOf(Queue(s), s.ptr[e]);
    SoundRange(s, k - 1, k);
    TornInFront(s, Queue(s), e, k);
  }

  /** No step that uses no deleted node mends a torn list. */
  lemma StepKeepsTorn(s: State, st: Step, x: nat)
    requires ListSound(s) && Enabled(s, st) && Defined(s, st) && TornAt(s, x)
    ensures TornAt(Next(AsWritten, s, st), x)
  {
    assert Placed(s.list, Gone(s), x);
    if ThreadsOnly(st) {
      ThreadsOnlyKeeps(AsWritten, s, st);
    } else {
      match st
      case Turn(t) =>
        if Takes(s) {
          TakingLook(s, t);
        } else {
          IdleLook(s, t);
        }
      case Cancel(e) =>
      case Schedule(e, woken) =>
        if s.list.tail.Some? {
          assert Placed(s.list, Gone(s), s.list.tail.value);
        }
      case Create(e) =>
      case Destroy(e) =>
    }
  }

  lemma {:induction false} RunKeepsTorn(s: State, sts: seq<Step>, s': State, x: nat)
    requires ListSound(s) && Run(AsWritten, s, sts, s') && TornAt(s, x)
    ensures TornAt(s', x)
    decreases |sts|
  {
    if sts != [] {
      StepListSound(AsWritten, s, sts[0]);
      StepKeepsTorn(s, sts[0], x);
      RunKeepsTorn(Next(AsWritten, s, sts[0]), sts[1..], s', x);
    }
  }

  /** The cancel of a queued entry whose node is not the head. */
  predicate Misses(s: State, st: Step) {
    st.Cancel? && st.e in s.ptr && s.list.head != Some(s.ptr[st.e])
  }

  predicate HitsHead(s: State, sts: seq<Step>)
    decreases |sts|
  {
    sts != [] && Enabled(s, sts[0]) ==> !Misses(s, sts[0]) && HitsHead(Next(AsWritten, s, sts[0]), sts[1..])
  }

  lemma StepAsWrittenSound(s: State, st: Step)
    requires QueueSound(s) && Enabled(s, st) && !Misses(s, st)
    ensures QueueSound(Next(AsWritten, s, st))
  {
    if st.Cancel? && st.e in s.ptr {
      CancelAsWrittenKeeps(s, st.e);
      SoundRange(s, 0, PositionOf(Queue(s), s.ptr[st.e]));
      CancelSound(s, st.e);
    } else {
      OtherStepSound(AsWritten, s, st);
    }
  }

  /** A run with `cancel` as it is written ends with a sound queue exactly if every cancel of a queued entry
      hit the head: what one cancel tears, no later step mends. */
  lemma {:induction false} RunSoundIff(s: State, sts: seq<Step>, s': State)
    requires QueueSound(s) && Run(AsWritten, s, sts, s')
    ensures QueueSound(s') <==> HitsHead(s, sts)
    decreases |sts|
  {
    if sts != [] {
      var s1 := Next(AsWritten, s, sts[0]);
      if Misses(s, sts[0]) {
        LossyCancelTears(s, sts[0].e);
        var x: nat :| TornAt(s1, x);
        SoundIsListSound(s);
        StepListSound(AsWritten, s, sts[0]);
        RunKeepsTorn(s1, sts[1..], s', x);
        if QueueSound(s') {
          SoundIsNotTorn(s');
        }
      } else {
        StepAsWrittenSound(s, sts[0]);
        RunSoundIff(s1, sts[1..], s');
      }
    }
  }

  /** As long as every cancel hits the head, nobody sleeps through anything. */
  lemma {:induction false} HeadCancelsWake(s: State, sts: seq<Step>, s': State)
    requires QueueSound(s) && WakeUp(s) && Run(AsWritten, s, sts, s') && HitsHead(s, sts)
    ensures AwakeThroughout(AsWritten, s, sts)
    decreases |sts|
  {
    if sts != [] {
      SoundNeverFills(AsWritten, s, sts[0]);
      StepWakesIff(AsWritten, s, sts[0]);
      StepAsWrittenSound(s, sts[0]);
      HeadCancelsWake(Next(AsWritten, s, sts[0]), sts[1..], s');
    }
  }

  // ------------------------------------------------------------------ the fate of a lost entry

  /** The entry is neither cancelled nor destroyed. */
  predicate Spares(st: Step, e: nat) {
    !(st.Destroy? && st.e == e) && !(st.Cancel? && st.e == e)
  }

  /** The cancel of an entry whose node leads to that of `e`. */
  predicate Revives(s: State, st: Step, e: nat) {
    && st.Cancel? && st.e in s.ptr && e in s.ptr
    && s.ptr[e] in Chain(s.list.next, Gone(s), At(s.list.next, s.ptr[st.e]))
  }

  /** Nothing that ran since was a node of the entry. */
  ghost predicate NotRun(s: State, s': State, e: nat) {
    s.entryOf <= s'.entryOf && forall x :: x in s'.ran && x !in s.ran ==> x < |s'.entryOf| && s'.entryOf[x] != e
  }

  lemma CancelLostIff(s: State, c: nat, e: nat)
    requires ListSound(s) && Lost(s, e) && Enabled(s, Cancel(c)) && c != e
    ensures Lost(Next(AsWritten, s, Cancel(c)), e) <==> !Revives(s, Cancel(c), e)
  {
    if c in s.ptr {
      var s', x := Next(AsWritten, s, Cancel(c)), s.ptr[c];
      assert Placed(s.list, Gone(s), x);
      assert Gone(s') == Gone(s) + {x};
      ChainIgnores(s.list.next, Gone(s), At(s.list.next, x), x);
    }
  }

  lemma TakeHeadKeepsLost(s: State, t: nat, e: nat)
    requires ListSound(s) && Lost(s, e) && t < |s.threads| && s.list.head.Some?
    ensures Lost(TakeHead(s, t), e) && NotRun(s, TakeHead(s, t), e)
  {
    var s', h := TakeHead(s, t), s.list.head.value;
    assert Placed(s.list, Gone(s), h) && h in Queue(s);
    assert Gone(s') == Gone(s) + {h};
    ChainIgnores(s.list.next, Gone(s), At(s.list.next, h), h);
    assert Queue(s) == [h] + Queue(s');
  }

  lemma ScheduleKeepsLost(s: State, c: nat, woken: Option<nat>, e: nat)
    requires ListSound(s) && Lost(s, e) && Enabled(s, Schedule(c, woken))
    ensures Lost(Next(AsWritten, s, Schedule(c, woken)), e)
  {
    if c !in s.ptr {
      var s', next := Next(AsWritten, s, Schedule(c, woken)), s.list.next;
      assert Gone(s') == Gone(s);
      if s.list.tail.Some? {
        assert Placed(s.list, Gone(s), s.list.tail.value) && Present(s.list, Gone(s), s.list.head.value);
        forall y | 0 <= y < |next| && y !in Gone(s) && next[y].Some? ensures next[y].value < |next| {
          assert Placed(s.list, Gone(s), y);
        }
        ChainAppended(next, Gone(s), s.list.head, s.list.tail.value, s.ptr[e]);
      }
    }
  }

  /** A lost entry that is spared by a step stays lost exactly if the step does not revive it, and does not run
      in that step. */
  lemma StepLostIff(s: State, st: Step, e: nat)
    requires ListSound(s) && Lost(s, e) && Enabled(s, st) && Defined(s, st) && Spares(st, e)
    ensures Lost(Next(AsWritten, s, st), e) <==> !Revives(s, st, e)
    ensures NotRun(s, Next(AsWritten, s, st), e)
  {
    if ThreadsOnly(st) {
      ThreadsOnlyKeeps(AsWritten, s, st);
    } else {
      match st
      case Cancel(c) => CancelLostIff(s, c, e);
      case Turn(t) =>
        if Takes(s) {
          TakingLook(s, t);
          SameListSound(s, s.(shouldAdjust := false));
          TakeHeadKeepsLost(s.(shouldAdjust := false), t, e);
        } else {
          IdleLook(s, t);
        }
      case Schedule(c, woken) => ScheduleKeepsLost(s, c, woken, e);
      case Create(c) =>
      case Destroy(c) =>
    }
  }

  predicate LostThroughout(s: State, sts: seq<Step>, e: nat)
    decreases |sts|
  {
    Lost(s, e) && (sts != [] && Enabled(s, sts[0]) ==> LostThroughout(Next(AsWritten, s, sts[0]), sts[1..], e))
  }

  predicate NeverRevived(s: State, sts: seq<Step>, e: nat)
    decreases |sts|
  {
    sts != [] && Enabled(s, sts[0]) ==>
      !Revives(s, sts[0], e) && NeverRevived(Next(AsWritten, s, sts[0]), sts[1..], e)
  }

  /** A lost entry that is neither cancelled nor destroyed stays lost exactly as long as no entry whose node
      leads to its own is cancelled, and it does not run as long: its pointer stays set, so scheduling it does
      nothing. */
  lemma {:induction false} LostUnlessRevived(s: State, sts: seq<Step>, s': State, e: nat)
    requires ListSound(s) && Lost(s, e) && Run(AsWritten, s, sts, s')
    requires forall i :: 0 <= i < |sts| ==> Spares(sts[i], e)
    ensures LostThroughout(s, sts, e) <==> NeverRevived(s, sts, e)
    ensures NeverRevived(s, sts, e) ==> Lost(s', e) && NotRun(s, s', e)
    decreases |sts|
  {
    if sts != [] {
      var s1 := Next(AsWritten, s, sts[0]);
      StepLostIff(s, sts[0], e);
      StepListSound(AsWritten, s, sts[0]);
      if !Revives(s, sts[0], e) {
        LostUnlessRevived(s1, sts[1..], s', e);
        if NeverRevived(s1, sts[1..], e) {
          NotRunTransitive(s, s1, s', e);
        }
      }
    }
  }

  lemma NotRunTransitive(s: State, s1: State, s': State, e: nat)
    requires NotRun(s, s1, e) && NotRun(s1, s', e)
    ensures NotRun(s, s', e)
  {
  }

  // ------------------------------------------------------------------ runs from the start

  /** `n` entries come into existence and are scheduled, one after the other. */
  function Filling(n: nat): seq<Step> {
    if n == 0 then [] else Filling(n - 1) + [Create(n - 1)] + [Schedule(n - 1, None)]
  }

  function FilledList(n: nat): (l: List)
    ensures |l.next| == n
  {
    if n == 0 then EMPTY else Appended(FilledList(n - 1))
  }

  function Numbers(n: nat): (r: seq<nat>)
    ensures |r| == n && forall x :: x in r ==> x < n
  {
    if n == 0 then [] else Numbers(n - 1) + [n - 1]
  }

  function Pointers(n: nat): (r: map<nat, nat>)
    ensures forall x :: x in r ==> x < n
  {
    if n == 0 then map[] else Pointers(n - 1)[n - 1 := n - 1]
  }

  /** The state behind that, with one executor. */
  function Filled(n: nat): State {
    Initialized(1).(list := FilledList(n), entryOf := Numbers(n), ptr := Pointers(n), live := Ids(0, n))
  }

  lemma OneMoreFilled(form: CancelForm, n: nat)
    ensures Enabled(Filled(n), Create(n))
    ensures Enabled(Next(form, Filled(n), Create(n)), Schedule(n, None))
    ensures Next(form, Next(form, Filled(n), Create(n)), Schedule(n, None)) == Filled(n + 1)
  {
    assert forall i :: 0 <= i < n ==> Numbers(n)[i] in Numbers(n);
  }

  lemma {:induction false} FilledReached(form: CancelForm, n: nat)
    ensures Run(form, Initialized(1), Filling(n), Filled(n))
  {
    if n > 0 {
      FilledReached(form, n - 1);
      OneMoreFilled(form, n - 1);
      RunOn(form, Initialized(1), Filling(n - 1), Filled(n - 1), Create(n - 1));
      var s := Next(form, Filled(n - 1), Create(n - 1));
      RunOn(form, Initialized(1), Filling(n - 1) + [Create(n - 1)], s, Schedule(n - 1, None));
    }
  }

  /** The shortest run that loses an event: the second of two scheduled entries is cancelled. */
  lemma FirstEntryLost()
    ensures Run(AsWritten, Initialized(1), Filling(2), Filled(2)) && Enabled(Filled(2), Cancel(1))
    ensures Lost(Next(AsWritten, Filled(2), Cancel(1)), 0)
    ensures !Lost(Next(Unlinking, Filled(2), Cancel(1)), 0)
  {
    FilledReached(AsWritten, 2);
    assert 0 in Queue(Next(Unlinking, Filled(2), Cancel(1)));
  }

  // Three entries; the last one is cancelled; the only executor goes to sleep; the first one is cancelled.

  const THREE_TORN := Initialized(1).(
    list := List(None, None, [Some(1), Some(2), None], [None, Some(0), Some(1)]),
    entryOf := [0, 1, 2], ptr := map[0 := 0, 1 := 1], live := {0, 1, 2}, cancelled := {2})

  const THREE_ASLEEP := THREE_TORN.(
    list := List(Some(1), None, [Some(1), Some(2), None], [None, None, Some(1)]),
    ptr := map[1 := 1], cancelled := {0, 2}, threads := [Waiting])

  lemma ThreeFilled()
    ensures Filled(3).list == List(Some(0), Some(2), [Some(1), Some(2), None], [None, Some(0), Some(1)])
    ensures Filled(3).entryOf == [0, 1, 2] && Filled(3).live == {0, 1, 2}
    ensures Filled(3).ptr == map[0 := 0, 1 := 1, 2 := 2]
  {
  }

  lemma ThreeTorn()
    ensures Enabled(Filled(3), Cancel(2)) && Defined(Filled(3), Cancel(2))
    ensures Next(AsWritten, Filled(3), Cancel(2)) == THREE_TORN
  {
    ThreeFilled();
  }

  lemma ThreeAsleep()
    ensures var s := THREE_TORN.(threads := [Waiting]);
      Enabled(THREE_TORN, Turn(0)) && Defined(THREE_TORN, Turn(0)) && Next(AsWritten, THREE_TORN, Turn(0)) == s &&
      Enabled(s, Cancel(0)) && Defined(s, Cancel(0)) && Next(AsWritten, s, Cancel(0)) == THREE_ASLEEP
  {
  }

  lemma ThreeAsleepFacts()
    ensures Queue(THREE_ASLEEP) == [1] && THREE_ASLEEP.list.tail.None? && !WakeUp(THREE_ASLEEP)
  {
    assert !THREE_ASLEEP.threads[0].Exited?;
  }

  /** The second entry is now queued, nobody is awake, and the list has no tail. */
  lemma AsleepBesideEvent() returns (sts: seq<Step>)
    ensures sts == Filling(3) + [Cancel(2)] + [Turn(0)] + [Cancel(0)]
    ensures Run(AsWritten, Initialized(1), sts, THREE_ASLEEP)
    ensures Queue(THREE_ASLEEP) == [1] && THREE_ASLEEP.list.tail.None? && !WakeUp(THREE_ASLEEP)
  {
    var s, asleep := Initialized(1), THREE_TORN.(threads := [Waiting]);
    sts := Filling(3);
    FilledReached(AsWritten, 3);
    ThreeTorn();
    RunOn(AsWritten, s, sts, Filled(3), Cancel(2));
    sts := sts + [Cancel(2)];
    ThreeAsleep();
    RunOn(AsWritten, s, sts, THREE_TORN, Turn(0));
    sts := sts + [Turn(0)];
    RunOn(AsWritten, s, sts, asleep, Cancel(0));
    sts := sts + [Cancel(0)];
    ThreeAsleepFacts();
  }

  // Four entries; the last one is cancelled, which loses the second one; the first one is cancelled.

  const FOUR_TORN := Initialized(1).(
    list := List(None, None, [Some(1), Some(2), Some(3), None], [None, Some(0), Some(1), Some(2)]),
    entryOf := [0, 1, 2, 3], ptr := map[0 := 0, 1 := 1, 2 := 2], live := {0, 1, 2, 3}, cancelled := {3})

  const FOUR_BACK := FOUR_TORN.(
    list := List(Some(1), None, [Some(1), Some(2), Some(3), None], [None, None, Some(1), Some(2)]),
    ptr := map[1 := 1, 2 := 2], cancelled := {0, 3})

  lemma FourFilled()
    ensures Filled(4).list ==
      List(Some(0), Some(3), [Some(1), Some(2), Some(3), None], [None, Some(0), Some(1), Some(2)])
    ensures Filled(4).entryOf == [0, 1, 2, 3] && Filled(4).live == {0, 1, 2, 3}
    ensures Filled(4).ptr == map[0 := 0, 1 := 1, 2 := 2, 3 := 3]
  {
  }

  lemma FourTorn()
    ensures Enabled(Filled(4), Cancel(3)) && Defined(Filled(4), Cancel(3))
    ensures Next(AsWritten, Filled(4), Cancel(3)) == FOUR_TORN
  {
    FourFilled();
  }

  lemma FourBack()
    ensures Enabled(FOUR_TORN, Cancel(0)) && Defined(FOUR_TORN, Cancel(0))
    ensures Next(AsWritten, FOUR_TORN, Cancel(0)) == FOUR_BACK
  {
  }

  lemma FourFacts()
    ensures Lost(FOUR_TORN, 1) && Enabled(FOUR_BACK, Turn(0)) && Defined(FOUR_BACK, Turn(0))
    ensures FOUR_BACK.entryOf[1] == 1 && 1 !in FOUR_BACK.ran && 1 in Next(AsWritten, FOUR_BACK, Turn(0)).ran
  {
  }

  /** The second entry runs nevertheless, as soon as an executor looks. */
  lemma LostEntryRuns() returns (sts: seq<Step>)
    ensures sts == Filling(4) + [Cancel(3)]
    ensures Run(AsWritten, Initialized(1), sts, FOUR_TORN) && Lost(FOUR_TORN, 1)
    ensures Run(AsWritten, Initialized(1), sts + [Cancel(0)], FOUR_BACK)
    ensures Enabled(FOUR_BACK, Turn(0)) && Defined(FOUR_BACK, Turn(0))
    ensures FOUR_BACK.entryOf[1] == 1 && 1 !in FOUR_BACK.ran && 1 in Next(AsWritten, FOUR_BACK, Turn(0)).ran
  {
    sts := Filling(4);
    FilledReached(AsWritten, 4);
    FourTorn();
    RunOn(AsWritten, Initialized(1), sts, Filled(4), Cancel(3));
    sts := sts + [Cancel(3)];
    FourBack();
    RunOn(AsWritten, Initialized(1), sts, FOUR_TORN, Cancel(0));
    FourFacts();
  }
}
