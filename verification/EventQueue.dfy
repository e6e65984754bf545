/** The queue of the event executor on the heap (EventLoop.cpp, lines 65-108 and 193-214): nodes linked both
    ways, and back pointers from the entries to their nodes. Its operations do what the steps of the event
    executor do, whatever a `cancel` has torn off the list before. */
module EventQueues {
  import opened EventSound
  import opened NodeLists
  import opened Options
  import opened Sequences
  import E = EventExecutor

  class EventEntry {
    var eventPtr: LinkedEntry?
    var alive: bool

    constructor ()
      ensures eventPtr == null && alive
    {
      eventPtr, alive := null, true;
    }
  }

  class LinkedEntry {
    var previous: LinkedEntry?
    var next: LinkedEntry?
    const entry: EventEntry  // a weak reference: the entry may be gone
    const scheduled: nat

    constructor (entry: EventEntry, scheduled: nat)
      ensures this.entry == entry && this.scheduled == scheduled && previous == null && next == null
    {
      this.entry, this.scheduled := entry, scheduled;
      previous, next := null, null;
    }
  }

  predicate Created(all: seq<LinkedEntry>, x: Option<nat>) {
    x.Some? ==> x.value < |all|
  }

  /** A pointer to a node, and the number of the node. */
  ghost predicate Names(all: seq<LinkedEntry>, n: LinkedEntry?, x: Option<nat>) {
    Created(all, x) && n == if x.None? then null else all[x.value]
  }

  ghost predicate AllNext(all: seq<LinkedEntry>, next: seq<Option<nat>>)
    reads all`next
  {
    |next| == |all| && forall i :: 0 <= i < |all| ==> Names(all, all[i].next, next[i])
  }

  ghost predicate AllPrevious(all: seq<LinkedEntry>, previous: seq<Option<nat>>)
    reads all`previous
  {
    |previous| == |all| && forall i :: 0 <= i < |all| ==> Names(all, all[i].previous, previous[i])
  }

  /** The entries are named, and every node belongs to the entry of its number. */
  ghost predicate Named(all: seq<LinkedEntry>, names: map<EventEntry, nat>, s: E.State) {
    && (forall e, f :: e in names && f in names && names[e] == names[f] ==> e == f)
    && |s.entryOf| == |all|
    && forall i :: 0 <= i < |all| ==> all[i].entry in names && names[all[i].entry] == s.entryOf[i]
  }

  function Pointer(s: E.State, name: nat): Option<nat> {
    if name in s.ptr then Some(s.ptr[name]) else None
  }

  /** The entry lives, and points at its node, as the state says. */
  ghost predicate Points(all: seq<LinkedEntry>, e: EventEntry, name: nat, s: E.State)
    reads e
  {
    (e.alive <==> name in s.live) && (e.alive ==> Names(all, e.eventPtr, Pointer(s, name)))
  }

  /** The pointer of one entry is set, or cleared; the rest of what a heap shows is as before. */
  ghost predicate Repointed(s: E.State, s': E.State, name: nat, x: Option<nat>) {
    && s'.live == s.live && Pointer(s', name) == x
    && forall other: nat :: other != name ==> Pointer(s', other) == Pointer(s, other)
  }

  lemma ScheduledState(form: E.CancelForm, s: E.State, name: nat, woken: Option<nat>)
    requires E.Enabled(s, E.Step.Schedule(name, woken)) && Pointer(s, name).None?
    ensures var s' := E.Next(form, s, E.Step.Schedule(name, woken));
      && Repointed(s, s', name, Some(|s.entryOf|))
      && s'.list == Appended(s.list) && s'.entryOf == s.entryOf + [name]
  {
  }

  lemma CancelledState(form: E.CancelForm, s: E.State, name: nat)
    requires E.Enabled(s, E.Step.Cancel(name)) && Pointer(s, name).Some?
    ensures var s' := E.Next(form, s, E.Step.Cancel(name));
      && Repointed(s, s', name, None)
      && s'.list == E.AfterCancel(form, s.list, s.ptr[name]) && s'.entryOf == s.entryOf
  {
  }

  /** A step for an entry that is not in the right state. */
  lemma IdleStep(form: E.CancelForm, s: E.State, name: nat, woken: Option<nat>)
    ensures E.Enabled(s, E.Step.Schedule(name, woken)) && Pointer(s, name).Some? ==>
      E.Next(form, s, E.Step.Schedule(name, woken)) == s
    ensures E.Enabled(s, E.Step.Cancel(name)) && Pointer(s, name).None? ==> E.Next(form, s, E.Step.Cancel(name)) == s
  {
  }

  lemma TakenState(form: E.CancelForm, s: E.State, t: nat)
    requires E.Enabled(s, E.Turn(t)) && E.Takes(s) && s.list.head.value < |s.entryOf|
    ensures var s', name := E.Next(form, s, E.Turn(t)), s.entryOf[s.list.head.value];
      && (if name in s.live then Repointed(s, s', name, None) else s'.live == s.live && s'.ptr == s.ptr)
      && s'.list == CutAt(s.list, s.list.head.value) && s'.entryOf == s.entryOf
  {
  }

  lemma NamedMore(all: seq<LinkedEntry>, names: map<EventEntry, nat>, s: E.State, s': E.State, linked: LinkedEntry)
    requires Named(all, names, s) && linked.entry in names && s'.entryOf == s.entryOf + [names[linked.entry]]
    ensures Named(all + [linked], names, s')
  {
  }

  /** An entry that is not concerned still lives and points as the state says. */
  lemma StillPoints(all: seq<LinkedEntry>, all': seq<LinkedEntry>, e: EventEntry, name: nat, s: E.State, s': E.State)
    requires Points(all, e, name, s) && all <= all' && s'.live == s.live && Pointer(s', name) == Pointer(s, name)
    ensures Points(all', e, name, s')
  {
  }

  class EventQueue {
    var head: LinkedEntry?
    var tail: LinkedEntry?
    ghost var all: seq<LinkedEntry>  // every node that was ever created, by number

    /** The nodes and their pointers are those of `l`. */
    ghost predicate Shows(l: List)
      reads this, all`next, all`previous
    {
      && Distinct(all) && Names(all, head, l.head) && Names(all, tail, l.tail)
      && AllNext(all, l.next) && AllPrevious(all, l.previous)
    }

    /** Nodes, entries and pointers are those of a state of the event executor. */
    ghost predicate Represents(names: map<EventEntry, nat>, s: E.State)
      reads this, all`next, all`previous, names.Keys
    {
      Shows(s.list) && Named(all, names, s) && forall e :: e in names ==> Points(all, e, names[e], s)
    }

    constructor ()
      ensures Shows(EMPTY) && all == []
      ensures forall n: nat :: Represents(map[], E.Initialized(n))
    {
      head, tail, all := null, null, [];
    }

    // ---------------------------------------------------------------- list surgery

    /** Lines 73-82: a node becomes the last one. */
    method Append(linked: LinkedEntry, ghost l: List)
      requires Shows(l) && linked !in all && linked.next == null
      modifies this, all`next, linked`previous
      ensures all == old(all) + [linked] && Shows(Appended(l))
    {
      ghost var before := all;
      linked.previous := tail;
      assert AllPrevious(before, l.previous);
      if tail != null {
        tail.next := linked;
        tail := linked;
      } else {
        head := linked;
        tail := linked;
      }
      all := before + [linked];
    }

    /** Lines 97-104 and 197-204: the successor of a node becomes the head. */
    method MakeHead(linked: LinkedEntry, ghost l: List, ghost x: nat)
      requires Shows(l) && x < |all| && all[x] == linked
      requires FrontAsserted(l, x)
      modifies `head, `tail, all`previous
      ensures Shows(CutAt(l, x))
    {
      head := linked.next;
      if head != null {
        assert head.previous == linked;
        head.previous := null;
      } else {
        assert tail == linked;
        tail := null;
      }
    }

    /** The first half of a proper unlink: whatever led to the node leads past it. */
    method BypassForward(linked: LinkedEntry, ghost l: List, ghost x: nat)
      requires Shows(l) && x < |all| && all[x] == linked
      modifies `head, all`next
      ensures Names(all, head, Unlinked(l, x).head) && AllNext(all, Unlinked(l, x).next)
      ensures linked.next == old(linked.next)
    {
      if linked.previous != null {
        linked.previous.next := linked.next;
      } else {
        head := linked.next;
      }
    }

    /** The second half: whatever led back to the node leads back past it. */
    method BypassBackward(linked: LinkedEntry, next: LinkedEntry?, ghost l: List, ghost x: nat)
      requires Distinct(all) && x < |all| && all[x] == linked
      requires AllPrevious(all, l.previous) && Names(all, tail, l.tail)
      requires x < |l.next| && Names(all, next, l.next[x])
      modifies `tail, all`previous
      ensures Names(all, tail, Unlinked(l, x).tail) && AllPrevious(all, Unlinked(l, x).previous)
    {
      if next != null {
        next.previous := linked.previous;
      } else {
        tail := linked.previous;
      }
    }

    /** A proper unlink. */
    method Unlink(linked: LinkedEntry, ghost l: List, ghost x: nat)
      requires Shows(l) && x < |all| && all[x] == linked
      modifies `head, `tail, all`previous, all`next
      ensures Shows(Unlinked(l, x))
    {
      BypassForward(linked, l, x);
      BypassBackward(linked, linked.next, l, x);
    }

    // ---------------------------------------------------------------- operations

    /** Lines 70-85: a new node for an entry becomes the last one. */
    method Enqueue(entry: EventEntry, now: nat, ghost l: List) returns (linked: LinkedEntry)
      requires Shows(l)
      modifies this, all`next, entry`eventPtr
      ensures fresh(linked) && linked.entry == entry && linked.scheduled == now && entry.eventPtr == linked
      ensures all == old(all) + [linked] && Shows(Appended(l))
    {
      linked := new LinkedEntry(entry, now);
      Append(linked, l);
      entry.eventPtr := linked;
    }

    /** Append a node for an entry that has none; do nothing for one that has. */
    method Schedule(entry: EventEntry, now: nat, ghost names: map<EventEntry, nat>, ghost form: E.CancelForm,
      ghost s: E.State, ghost woken: Option<nat>)
      requires Represents(names, s) && entry in names && entry.alive
      requires E.Enabled(s, E.Step.Schedule(names[entry], woken))
      modifies this, all`next, entry`eventPtr
      ensures Represents(names, E.Next(form, s, E.Step.Schedule(names[entry], woken)))
      ensures old(entry.eventPtr) != null ==> entry.eventPtr == old(entry.eventPtr) && all == old(all)
      ensures old(entry.eventPtr) == null ==>
        && entry.eventPtr != null && fresh(entry.eventPtr) && all == old(all) + [entry.eventPtr]
        && entry.eventPtr.entry == entry && entry.eventPtr.scheduled == now
    {
      ghost var before, s' := all, E.Next(form, s, E.Step.Schedule(names[entry], woken));
      assert Points(all, entry, names[entry], s);
      IdleStep(form, s, names[entry], woken);
      if entry.eventPtr != null {
        return;
      }
      ScheduledState(form, s, names[entry], woken);
      var linked := Enqueue(entry, now, s.list);
      NamedMore(before, names, s, s', linked);
      forall e | e in names && e != entry ensures Points(all, e, names[e], s') {
        StillPoints(before, all, e, names[e], s, s');
      }
    }

    /** Lines 196-214: take the head and release a live entry from it. */
    method Pop(ghost names: map<EventEntry, nat>, ghost form: E.CancelForm, ghost s: E.State, ghost t: nat)
      returns (node: LinkedEntry)
      requires Represents(names, s) && head != null
      requires E.Enabled(s, E.Turn(t)) && E.Takes(s) && Asserted(s, E.Turn(t))
      modifies `head, `tail, all`previous, head.entry`eventPtr
      ensures node == old(head) && Represents(names, E.Next(form, s, E.Turn(t)))
    {
      ghost var x, s' := s.list.head.value, E.Next(form, s, E.Turn(t));
      TakenState(form, s, t);
      node := head;
      assert Points(all, node.entry, s.entryOf[x], s);
      MakeHead(node, s.list, x);
      if node.entry.alive {
        assert node.entry.eventPtr == node;
        node.entry.eventPtr := null;
        forall e | e in names && e != node.entry ensures Points(all, e, names[e], s') {
          StillPoints(all, all, e, names[e], s, s');
        }
      } else {
        forall e | e in names ensures Points(all, e, names[e], s') {
          StillPoints(all, all, e, names[e], s, s');
        }
      }
    }

    /** Lines 94-104. */
    method ReleaseHead(entry: EventEntry, ghost l: List, ghost x: nat)
      requires Shows(l) && x < |all| && all[x] == entry.eventPtr && FrontAsserted(l, x)
      modifies `head, `tail, all`previous, entry`eventPtr
      ensures Shows(CutAt(l, x)) && entry.eventPtr == null
    {
      var linked := entry.eventPtr;
      entry.eventPtr := null;
      MakeHead(linked, l, x);
    }

    /** The same with an unlink. */
    method ReleaseUnlinked(entry: EventEntry, ghost l: List, ghost x: nat)
      requires Shows(l) && x < |all| && all[x] == entry.eventPtr
      modifies `head, `tail, all`previous, all`next, entry`eventPtr
      ensures Shows(Unlinked(l, x)) && entry.eventPtr == null
    {
      var linked := entry.eventPtr;
      entry.eventPtr := null;
      Unlink(linked, l, x);
    }

    /** `cancel` with a proper unlink. */
    method Cancel(entry: EventEntry, ghost names: map<EventEntry, nat>, ghost s: E.State) returns (found: bool)
      requires Represents(names, s) && entry in names && entry.alive
      modifies `head, `tail, all`previous, all`next, entry`eventPtr
      ensures E.Enabled(s, E.Step.Cancel(names[entry]))
      ensures Represents(names, E.Next(E.Unlinking, s, E.Step.Cancel(names[entry])))
      ensures found == (old(entry.eventPtr) != null)
    {
      assert Points(all, entry, names[entry], s);
      IdleStep(E.Unlinking, s, names[entry], None);
      if entry.eventPtr == null {
        return false;
      }
      CancelledState(E.Unlinking, s, names[entry]);
      ReleaseUnlinked(entry, s.list, s.ptr[names[entry]]);
      ghost var s' := E.Next(E.Unlinking, s, E.Step.Cancel(names[entry]));
      forall e | e in names && e != entry ensures Points(all, e, names[e], s') {
        StillPoints(all, all, e, names[e], s, s');
      }
      return true;
    }

    /** `cancel` as it is written. */
    method CancelAsWritten(entry: EventEntry, ghost names: map<EventEntry, nat>, ghost s: E.State)
      returns (found: bool)
      requires Represents(names, s) && entry in names && entry.alive
      requires Asserted(s, E.Step.Cancel(names[entry]))
      modifies `head, `tail, all`previous, entry`eventPtr
      ensures E.Enabled(s, E.Step.Cancel(names[entry]))
      ensures Represents(names, E.Next(E.AsWritten, s, E.Step.Cancel(names[entry])))
      ensures found == (old(entry.eventPtr) != null)
    {
      assert Points(all, entry, names[entry], s);
      IdleStep(E.AsWritten, s, names[entry], None);
      if entry.eventPtr == null {
        return false;
      }
      CancelledState(E.AsWritten, s, names[entry]);
      ReleaseHead(entry, s.list, s.ptr[names[entry]]);
      ghost var s' := E.Next(E.AsWritten, s, E.Step.Cancel(names[entry]));
      forall e | e in names && e != entry ensures Points(all, e, names[e], s') {
        StillPoints(all, all, e, names[e], s, s');
      }
      return true;
    }
  }
}
