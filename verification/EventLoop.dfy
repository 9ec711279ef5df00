/** The event loop's own bookkeeping: the list of pending events and the sweep over expired timers. */
module EventLoop {
  import opened Heap

  const UINT32_MAX: nat := 0xFFFF_FFFF

  /** Conversion to uint64_t. */
  function U64(x: int): (r: nat)
    ensures 0 <= x < 0x1_0000_0000_0000_0000 ==> r == x
  {
    x % 0x1_0000_0000_0000_0000
  }

  // ---------- the pending list ----------

  predicate NoRepeats<T(==)>(s: seq<T>) {
    forall i, j :: 0 <= i < j < |s| ==> s[i] != s[j]
  }

  /** What must follow position `i` of a list. */
  function Follower(queue: seq<Timer>, i: nat): Timer? {
    if i + 1 < |queue| then queue[i + 1] else null
  }

  ghost predicate Chained(queue: seq<Timer>)
    reads queue`next
  {
    forall i :: 0 <= i < |queue| ==> queue[i].next == Follower(queue, i)
  }

  /** `head` is the first of a linked list that visits exactly `queue`, each member flagged as pending. */
  ghost predicate Linked(head: Timer?, queue: seq<Timer>)
    reads queue`next, queue`pending
  {
    && head == (if queue == [] then null else queue[0])
    && Chained(queue)
    && (forall i :: 0 <= i < |queue| ==> queue[i].pending)
    && NoRepeats(queue)
  }

  /** The members of a queue that have a callback, in order. */
  function WithCallback(queue: seq<Timer>): seq<Timer>
  {
    if queue == [] then []
    else (if queue[0].hasCallback then [queue[0]] else []) + WithCallback(queue[1..])
  }

  lemma {:induction false} WithCallbackSnoc(queue: seq<Timer>, ev: Timer)
    ensures WithCallback(queue + [ev]) == WithCallback(queue) + (if ev.hasCallback then [ev] else [])
    decreases |queue|
  {
    var last := if ev.hasCallback then [ev] else [];
    if queue == [] {
      assert queue + [ev] == [ev] && [ev][1..] == [];
    } else {
      var first := if queue[0].hasCallback then [queue[0]] else [];
      assert (queue + [ev])[0] == queue[0] && (queue + [ev])[1..] == queue[1..] + [ev];
      WithCallbackSnoc(queue[1..], ev);
      assert first + (WithCallback(queue[1..]) + last) == first + WithCallback(queue[1..]) + last;
    }
  }

  /** Halfway through the list: the first `i` members have been dealt with. */
  ghost predicate Visited(q: seq<Timer>, i: nat)
    reads q
  {
    forall j :: 0 <= j < |q| ==>
      q[j].pending == (j >= i || !q[j].hasCallback) && (j < i && q[j].hasCallback ==> !q[j].destory)
  }

  lemma NoneVisited(q: seq<Timer>)
    requires forall j :: 0 <= j < |q| ==> q[j].pending
    ensures Visited(q, 0)
  {
  }

  lemma AllVisited(q: seq<Timer>)
    requires Visited(q, |q|)
    ensures forall e :: e in q ==> e.pending == !e.hasCallback && (e.hasCallback ==> !e.destory)
  {
  }

  lemma NoMembers(q: seq<Timer>)
    requires q == []
    ensures Linked(null, q)
  {
  }

  lemma StartOf(head: Timer?, q: seq<Timer>)
    requires Linked(head, q)
    ensures head == (if q == [] then null else q[0]) && Chained(q) && NoRepeats(q)
    ensures forall j :: 0 <= j < |q| ==> q[j].pending
  {
  }

  lemma NextOf(q: seq<Timer>, i: nat)
    requires Chained(q) && i < |q|
    ensures q[i].next == Follower(q, i)
  {
  }

  lemma MembersPending(head: Timer?, queue: seq<Timer>)
    requires Linked(head, queue)
    ensures forall t :: t in queue ==> t.pending
  {
  }

  lemma NothingToCall(queue: seq<Timer>)
    requires queue == []
    ensures WithCallback(queue) == []
  {
  }

  /** What a run of event_pending calls makes of the queue: the newest first, and no event twice. */
  function Queued<T(==)>(queue: seq<T>, evs: seq<T>): seq<T>
    decreases |evs|
  {
    if evs == [] then queue else Queued(if evs[0] in queue then queue else [evs[0]] + queue, evs[1..])
  }

  /** Every event is queued once, the events queued before keep their places, and the others come in front. */
  lemma {:induction false} QueuedOnce<T>(queue: seq<T>, evs: seq<T>) returns (newer: seq<T>)
    requires NoRepeats(queue)
    ensures var r := Queued(queue, evs);
      && NoRepeats(r) && r == newer + queue
      && forall e :: e in r <==> e in queue || e in evs
    decreases |evs|
  {
    newer := [];
    if evs == [] {
      assert [] + queue == queue;
    } else {
      assert evs == [evs[0]] + evs[1..];
      if evs[0] in queue {
        newer := QueuedOnce(queue, evs[1..]);
      } else {
        var q := [evs[0]] + queue;
        newer := QueuedOnce(q, evs[1..]);
        assert newer + q == newer + [evs[0]] + queue;
        newer := newer + [evs[0]];
      }
    }
  }

  // ---------- the loop ----------

  class EventLoop {
    const timers: Heap
    var timersNum: nat
    var curMs: nat
    /** The head of the list of pending events, and the events on it. */
    var pending: Timer?
    ghost var queue: seq<Timer>
    /** The events whose callback was called so far. */
    var called: seq<Timer>

    constructor (capacity: nat, curMs: nat)
      ensures timers.Valid() && timers.size == 0 && Linked(pending, queue) && queue == []
      ensures timersNum == 0 && called == [] && this.curMs == curMs
      ensures fresh(timers) && fresh(timers.slots) && timers.slots.Length == capacity
    {
      timers := new Heap(capacity);
      timersNum, this.curMs, pending, queue, called := 0, curMs, null, [], [];
    }

    /** event_pending */
    method EventPending(ev: Timer)
      requires Linked(pending, queue)
      modifies this`pending, this`queue, ev`pending, ev`next
      ensures Linked(pending, queue) && ev.pending
      ensures queue == if old(ev.pending) then old(queue) else [ev] + old(queue)
    {
      if !ev.pending {
        ev.pending := true;
        ev.next := pending;
        pending := ev;
        queue := [ev] + queue;
        ghost var q := old(queue);
        forall i | 0 <= i < |queue|
          ensures queue[i].next == Follower(queue, i) && queue[i].pending
        {
          if i > 0 {
            var j := i - 1;
            assert queue[i] == q[j] && q[j] != ev;
            assert j + 1 < |q| ==> queue[i + 1] == q[j + 1];
          }
        }
      }
    }

    /** Queueing a member of the list again once the list has been processed: an event without a callback has kept
        its flag, so it is taken for queued, and is never called or linked again. */
    method QueueAgain(ev: Timer)
      requires Linked(pending, queue) && ev in queue
      modifies this`pending, this`queue, this`called, queue`pending, queue`destory, queue`next
      ensures Linked(pending, queue) && ev.pending
      ensures queue == if ev.hasCallback then [ev] else []
    {
      hide WithCallback, Linked;
      ProcessPending();
      EventPending(ev);
    }

    /** A run of event_pending calls. */
    method QueueEach(evs: seq<Timer>)
      requires Linked(pending, queue) && forall e :: e in evs ==> (e.pending <==> e in queue)
      modifies this`pending, this`queue, evs`pending, evs`next
      ensures Linked(pending, queue) && queue == Queued(old(queue), evs)
    {
      hide Linked;
      var i := 0;
      while i < |evs|
        invariant 0 <= i <= |evs| && Linked(pending, queue)
        invariant forall e :: e in evs ==> (e.pending <==> e in queue)
        invariant Queued(queue, evs[i..]) == Queued(old(queue), evs)
      {
        assert evs[i..][0] == evs[i] && evs[i..][1..] == evs[i + 1..];
        EventPending(evs[i]);
        i := i + 1;
      }
    }

    /** One member of the list: its callback, its flag, and event_del if it was marked. */
    method Call(cur: Timer, ghost q: seq<Timer>, ghost i: nat)
      requires i < |q| && q[i] == cur && NoRepeats(q) && Visited(q, i)
      modifies this`called, cur`pending, cur`destory
      ensures called == old(called) + (if cur.hasCallback then [cur] else [])
      ensures Visited(q, i + 1)
    {
      if cur.hasCallback {
        called := called + [cur];
        cur.pending := false;
        if cur.destory {
          // event_del, which also frees it
          cur.destory := false;
        }
      }
    }

    /** process_pending_event, with callbacks that queue nothing: every member's callback is called once,
        the newest first, and the list is empty. An event without a callback keeps its flags. */
    method ProcessPending()
      requires Linked(pending, queue)
      modifies this`pending, this`queue, this`called, queue`pending, queue`destory
      ensures pending == null && queue == [] && Linked(pending, queue)
      ensures called == old(called) + WithCallback(old(queue))
      ensures forall e :: e in old(queue) ==> e.pending == !e.hasCallback
      ensures forall e :: e in old(queue) && e.hasCallback ==> !e.destory
    {
      hide WithCallback, Visited, NoRepeats, Chained, Linked;
      StartOf(pending, queue);
      ghost var q := queue;
      ghost var i := 0;
      var cur := pending;
      NothingToCall(q[..i]);
      NoneVisited(q);
      while cur != null
        invariant 0 <= i <= |q| && cur == (if i < |q| then q[i] else null)
        invariant called == old(called) + WithCallback(q[..i])
        invariant Visited(q, i) && Chained(q)
        decreases |q| - i
      {
        var next := cur.next;
        WithCallbackSnoc(q[..i], cur);
        assert q[..i + 1] == q[..i] + [cur];
        NextOf(q, i);
        Call(cur, q, i);
        cur := next;
        i := i + 1;
      }
      assert q[..i] == q;
      AllVisited(q);
      pending := null;
      queue := [];
      NoMembers(queue);
    }

    // ---------- timers ----------

    /** The heap holds exactly the timers of `start`, each once, and `start` records their state. */
    ghost predicate Recorded(start: map<Timer, State>)
      requires timers.Ok()
      reads timers, timers.slots, start.Keys
    {
      timers.Contents() == multiset(start.Keys) && forall t :: t in start ==> StateOf(t) == start[t]
    }

    /** del_timer pops the root, whichever timer it is given, so it deletes the right one exactly if that is the
        root, or if there is none. The counter is a uint32_t. */
    method DelTimer(timer: Timer)
      requires timers.Valid()
      modifies this`timersNum, timers`size, timers.slots
      ensures timers.Valid() && timersNum == if old(timersNum) == 0 then UINT32_MAX else old(timersNum) - 1
      ensures if old(timers.size) == 0 then timers.size == 0 && timers.Contents() == old(timers.Contents())
              else timers.size == old(timers.size) - 1
                   && timers.Contents() == old(timers.Contents()) - multiset{old(timers.slots[0])}
      ensures timers.Contents() == old(timers.Contents()) - multiset{timer}
         <==> old(timers.size) == 0 || old(timers.slots[0]) == timer
    {
      hide Heap.Valid, Heap.Keys, Heap.Contents, Heap.Nodes, OrderedAround;
      timersNum := if timersNum == 0 then UINT32_MAX else timersNum - 1;
      timers.ReadyToPop();
      timers.RootInside();
      ghost var all, root := timers.Contents(), if timers.size > 0 then timers.slots[0] else timer;
      timers.Pop();
      if timer != root {
        assert (all - multiset{root})[root] != (all - multiset{timer})[root];
      }
    }

    /** The last repetition. */
    method FireLast(timer: Timer)
      requires timers.Valid() && timers.size > 0 && timers.slots[0] == timer && timersNum > 0
      requires Linked(pending, queue) && !timer.pending && timer !in queue
      modifies this`timersNum, this`pending, this`queue, timers`size, timers.slots
      modifies timer`destory, timer`pending, timer`next
      ensures timers.Valid() && timers.Contents() == old(timers.Contents()) - multiset{timer}
      ensures timers.size == old(timers.size) - 1 && timersNum == old(timersNum) - 1
      ensures Linked(pending, queue) && queue == [timer] + old(queue) && timer.destory && timer.pending
    {
      hide Heap.Keys, Heap.Contents, Heap.Nodes, Ordered, Linked;
      DelTimer(timer);
      ghost var k := timers.Keys();
      timer.destory := true;
      EventPending(timer);
      assert timers.Keys() == k;
    }

    /** The root gets a new deadline while it is in the heap. */
    method SetDeadline(timer: Timer)
      requires timers.Valid() && timers.size > 0 && timers.slots[0] == timer && timers.Contents()[timer] == 1
      modifies timer`nextTimeout
      ensures timers.Ok() && OrderedAround(timers.Keys(), 0) && timers.Contents() == old(timers.Contents())
      ensures timer.nextTimeout == curMs + timer.timeout
    {
      hide Heap.Contents, Heap.Nodes, OrderedAround, Ordered;
      ghost var k := timers.Keys();
      timers.RootOnce();
      timer.nextTimeout := curMs + timer.timeout;
      RootRekeyed(k, timers.Keys());
    }

    /** Another repetition: the root gets a new deadline, is popped and inserted again, and is called. */
    method Rearm(timer: Timer)
      requires timers.Valid() && timers.size > 0 && timers.slots[0] == timer && timers.Contents()[timer] == 1
      modifies this`called, timers`size, timers.slots, timer`nextTimeout
      ensures timers.Valid() && timers.Contents() == old(timers.Contents()) && timers.size == old(timers.size)
      ensures timer.nextTimeout == curMs + timer.timeout
      ensures called == old(called) + (if timer.hasCallback then [timer] else [])
    {
      hide Heap.Keys, Heap.Contents, Heap.Nodes, OrderedAround, Ordered;
      ghost var all := timers.Contents();
      SetDeadline(timer);
      timers.Pop();
      timers.Insert(timer);
      assert all - multiset{timer} + multiset{timer} == all;
      if timer.hasCallback {
        called := called + [timer];
      }
    }

    /** The sweep has dealt with the timers in `done`: `fired` were called, `last` were queued. */
    ghost predicate Progress(start: map<Timer, State>, done: set<Timer>, fired: seq<Timer>, last: seq<Timer>)
      requires timers.Ok()
      reads this`curMs, timers, timers.slots, start.Keys
    {
      && Tally(start, done, fired, last, curMs)
      && timers.Contents() == multiset(start.Keys - Gone(start, done, curMs))
      && (forall t :: t in start ==> InStep(t, start[t], t in done, curMs))
    }

    /** `timer->repeat--`, unless it repeats for ever. */
    method CountDown(timer: Timer)
      requires timers.Valid() && 1 <= timer.repeat <= UINT32_MAX
      modifies timer`repeat
      ensures timers.Valid() && timers.Contents() == old(timers.Contents())
      ensures timer.repeat == if old(timer.repeat) == UINT32_MAX then UINT32_MAX else old(timer.repeat) - 1
    {
      hide Heap.Keys, Heap.Contents, Heap.Nodes, Ordered;
      ghost var k := timers.Keys();
      if timer.repeat != UINT32_MAX {
        timer.repeat := timer.repeat - 1;
      }
      assert timers.Keys() == k;
    }

    /** An expired root has not been dealt with yet. */
    lemma RootUntouched(start: map<Timer, State>, done: set<Timer>, fired: seq<Timer>, last: seq<Timer>)
      requires timers.Ok() && timers.size > 0 && timers.slots[0].nextTimeout <= curMs
      requires Countable(start) && Progress(start, done, fired, last)
      ensures var t := timers.slots[0];
        && t in start && t !in done && timers.Contents()[t] == 1 && StateOf(t) == start[t] && !t.pending && t !in last
    {
      hide NoRepeats;
      var t := timers.slots[0];
      timers.InContents(0);
      assert t in start.Keys - Gone(start, done, curMs);
      assert InStep(t, start[t], t in done, curMs);
      assert t in last ==> t in Elements(last);
    }

    /** What process_timer does with an expired root. */
    method Expire(timer: Timer)
      requires timers.Valid() && timers.size > 0 && timers.slots[0] == timer && timers.Contents()[timer] == 1
      requires timersNum > 0 && 1 <= timer.repeat <= UINT32_MAX
      requires Linked(pending, queue) && !timer.pending && timer !in queue
      modifies this`timersNum, this`pending, this`queue, this`called, timers`size, timers.slots
      modifies timer`repeat, timer`nextTimeout, timer`destory, timer`pending, timer`next
      ensures timers.Valid() && Linked(pending, queue)
      ensures timersNum - timers.size == old(timersNum - timers.size)
      ensures if old(timer.repeat) == 1 then
                && timers.Contents() == old(timers.Contents()) - multiset{timer} && timers.size == old(timers.size) - 1
                && queue == [timer] + old(queue) && called == old(called)
                && timer.repeat == 0 && timer.nextTimeout == old(timer.nextTimeout) && timer.destory && timer.pending
              else
                && timers.Contents() == old(timers.Contents()) && timers.size == old(timers.size)
                && queue == old(queue) && called == old(called) + (if timer.hasCallback then [timer] else [])
                && timer.repeat == (if old(timer.repeat) == UINT32_MAX then UINT32_MAX else old(timer.repeat) - 1)
                && timer.nextTimeout == curMs + timer.timeout && !timer.pending
    {
      hide Heap.Keys, Heap.Contents, Heap.Nodes, Ordered, Linked;
      CountDown(timer);
      if timer.repeat == 0 {
        FireLast(timer);
      } else {
        Rearm(timer);
      }
    }

    /** Only `timer` may be out of step. */
    ghost predicate OthersInStep(start: map<Timer, State>, done: set<Timer>, timer: Timer)
      reads this`curMs, start.Keys
    {
      forall t :: t in start && t != timer ==> InStep(t, start[t], t in done, curMs)
    }

    /** One round of the loop: the root moves to the timers that have been dealt with. */
    method SweepOne(timer: Timer, ghost start: map<Timer, State>, ghost done: set<Timer>,
                    ghost fired: seq<Timer>, ghost last: seq<Timer>)
      requires timers.Valid() && timers.size > 0 && timers.slots[0] == timer && timersNum >= timers.size
      requires Countable(start) && Progress(start, done, fired, last) && timer.nextTimeout <= curMs
      requires Linked(pending, queue)
      modifies this`timersNum, this`pending, this`queue, this`called, timers`size, timers.slots
      modifies timer
      ensures timers.Valid() && Linked(pending, queue) && timersNum - timers.size == old(timersNum - timers.size)
      ensures timer in start && timer !in done
      ensures if Leaves(start[timer], curMs) then
                Progress(start, done + {timer}, fired, [timer] + last) && queue == [timer] + old(queue) && called == old(called)
              else
                var call := if timer.hasCallback then [timer] else [];
                Progress(start, done + {timer}, fired + call, last) && queue == old(queue) && called == old(called) + call
    {
      hide Heap.Keys, Heap.Contents, Heap.Nodes, Ordered, Linked, Tally, Gone, Elements, InStep;
      RootUntouched(start, done, fired, last);
      ghost var before := timers.Contents();
      MembersPending(pending, queue);
      Expire(timer);
      StepDone(timer, start[timer], curMs);
      assert OthersInStep(start, done, timer);
      hide OthersInStep;
      if Leaves(start[timer], curMs) {
        ProgressLast(timer, start, done, fired, last, before);
      } else {
        ProgressRearm(timer, start, done, fired, last);
      }
    }

    lemma ProgressLast(timer: Timer, start: map<Timer, State>, done: set<Timer>, fired: seq<Timer>,
                       last: seq<Timer>, before: multiset<Timer>)
      requires timers.Ok() && Tally(start, done, fired, last, curMs)
      requires before == multiset(start.Keys - Gone(start, done, curMs))
      requires timer in start && timer !in done && Leaves(start[timer], curMs) && timers.Contents() == before - multiset{timer}
      requires OthersInStep(start, done, timer) && InStep(timer, start[timer], true, curMs)
      ensures Progress(start, done + {timer}, fired, [timer] + last)
    {
      hide Heap.Ok, Heap.Contents, Tally, Gone, Elements, InStep;
      TallyLast(start, done, fired, last, curMs, timer);
    }

    lemma ProgressRearm(timer: Timer, start: map<Timer, State>, done: set<Timer>, fired: seq<Timer>, last: seq<Timer>)
      requires timers.Ok() && Tally(start, done, fired, last, curMs)
      requires timers.Contents() == multiset(start.Keys - Gone(start, done, curMs))
      requires timer in start && timer !in done && Rearms(start[timer], curMs)
      requires OthersInStep(start, done, timer) && InStep(timer, start[timer], true, curMs)
      ensures Progress(start, done + {timer}, fired + (if timer.hasCallback then [timer] else []), last)
    {
      hide Heap.Ok, Heap.Contents, Tally, Gone, Elements, InStep;
      TallyRearm(start, done, fired, last, curMs, timer);
    }

    /** The sweep is over: every timer has been dealt with, and what is in the heap lies in the future. */
    ghost predicate SweptAll(start: map<Timer, State>, fired: seq<Timer>, last: seq<Timer>)
      requires timers.Ok()
      reads this`curMs, timers, timers.slots, start.Keys
    {
      && timers.Contents() == multiset(set t | t in start && !Leaves(start[t], curMs))
      && (forall t :: t in start ==> StateOf(t) == Swept(start[t], curMs))
      && (forall t :: t in start && !Leaves(start[t], curMs) ==> t.nextTimeout > curMs)
      && NoRepeats(fired) && Elements(fired) == (set t | t in start && Rearms(start[t], curMs) && t.hasCallback)
      && NoRepeats(last) && Elements(last) == (set t | t in start && Leaves(start[t], curMs))
      && (forall t :: t in start ==> t.pending == Leaves(start[t], curMs) && (t.pending ==> t.destory))
    }

    /** Nothing expired is left when the root is not. */
    lemma NothingExpired(start: map<Timer, State>, done: set<Timer>, fired: seq<Timer>, last: seq<Timer>)
      requires timers.Valid() && timers.size > 0 && timers.slots[0].nextTimeout > curMs
      requires Countable(start) && Progress(start, done, fired, last)
      ensures SweptAll(start, fired, last)
    {
      hide Heap.Keys, Heap.Contents, Heap.Nodes, Ordered, NoRepeats, Elements;
      timers.RootLeast();
      forall t | t in start && t !in done ensures start[t].nextTimeout > curMs {
        assert t in timers.Contents();
        assert InStep(t, start[t], t in done, curMs);
      }
      forall t | t in start
        ensures StateOf(t) == Swept(start[t], curMs) && t.pending == Leaves(start[t], curMs) && (t.pending ==> t.destory)
      {
        assert InStep(t, start[t], t in done, curMs);
      }
      assert Gone(start, done, curMs) == (set t | t in start && Leaves(start[t], curMs));
      assert start.Keys - Gone(start, done, curMs) == (set t | t in start && !Leaves(start[t], curMs));
      assert (set t | t in done && Rearms(start[t], curMs) && t.hasCallback)
          == (set t | t in start && Rearms(start[t], curMs) && t.hasCallback);
    }

    lemma NothingDone(start: map<Timer, State>)
      requires timers.Ok() && Recorded(start) && forall t :: t in start ==> !t.pending
      ensures Progress(start, {}, [], [])
    {
      assert start.Keys - Gone(start, {}, curMs) == start.Keys;
      forall t | t in start ensures InStep(t, start[t], false, curMs) {
      }
    }

    /** The heap has run empty: every timer has left it. */
    lemma RunEmpty(start: map<Timer, State>, done: set<Timer>, fired: seq<Timer>, last: seq<Timer>)
      requires timers.Valid() && timers.size == 0 && Countable(start) && Progress(start, done, fired, last)
      ensures SweptAll(start, fired, last) && forall t :: t in start ==> Leaves(start[t], curMs)
    {
      hide NoRepeats, Elements, Ordered, Heap.Keys;
      forall t | t in start ensures t in done && Leaves(start[t], curMs) {
        assert timers.Contents() == multiset{};
        assert t !in start.Keys - Gone(start, done, curMs);
      }
      assert done == start.Keys;
      forall t | t in start
        ensures StateOf(t) == Swept(start[t], curMs) && t.pending == Leaves(start[t], curMs) && (t.pending ==> t.destory)
      {
        assert InStep(t, start[t], t in done, curMs);
      }
      assert Gone(start, done, curMs) == (set t | t in start && Leaves(start[t], curMs));
      assert start.Keys - Gone(start, done, curMs) == (set t | t in start && !Leaves(start[t], curMs));
      assert (set t | t in done && Rearms(start[t], curMs) && t.hasCallback)
          == (set t | t in start && Rearms(start[t], curMs) && t.hasCallback);
    }

    /** The root is a survivor. */
    lemma RootSurvives(start: map<Timer, State>, done: set<Timer>, fired: seq<Timer>, last: seq<Timer>)
      requires timers.Valid() && timers.size > 0 && Progress(start, done, fired, last) && SweptAll(start, fired, last)
      ensures exists t :: t in start && !Leaves(start[t], curMs)
    {
      hide NoRepeats, Elements, Ordered, InStep, StateOf, Swept;
      timers.InContents(0);
      assert timers.slots[0] in (set t | t in start && !Leaves(start[t], curMs));
    }

    /** One test of the root and, if it has expired, one round. `calls` and `queued` are what the sweep found. */
    method SweepRoot(ghost start: map<Timer, State>, ghost done: set<Timer>, ghost fired: seq<Timer>, ghost last: seq<Timer>,
                     ghost calls: seq<Timer>, ghost queued: seq<Timer>)
      returns (more: bool, ghost done': set<Timer>, ghost fired': seq<Timer>, ghost last': seq<Timer>)
      requires timers.Valid() && timers.size > 0 && timersNum >= timers.size
      requires Countable(start) && Progress(start, done, fired, last) && Linked(pending, queue)
      requires called == calls + fired && queue == last + queued
      modifies this`timersNum, this`pending, this`queue, this`called, timers`size, timers.slots, start.Keys
      ensures timers.Valid() && Progress(start, done', fired', last') && Linked(pending, queue)
      ensures timersNum - timers.size == old(timersNum - timers.size)
      ensures called == calls + fired' && queue == last' + queued
      ensures if more then done < done' <= start.Keys
              else timers.size > 0 && timers.slots[0].nextTimeout > curMs && done' == done
    {
      hide Heap.Keys, Heap.Contents, Heap.Nodes, Ordered, Linked, Progress, Countable, InStep, StateOf;
      done', fired', last' := done, fired, last;
      var timer: Timer := timers.slots[0];
      if timer.nextTimeout > curMs {
        return false, done', fired', last';
      }
      RootUntouched(start, done, fired, last);
      SweepOne(timer, start, done, fired, last);
      if Leaves(start[timer], curMs) {
        assert [timer] + (last + queued) == [timer] + last + queued;
        last' := [timer] + last;
      } else {
        ghost var call := if timer.hasCallback then [timer] else [];
        assert calls + fired + call == calls + (fired + call);
        fired' := fired + call;
      }
      done' := done + {timer};
      ProgressDone(start, done', fired', last');
      more := true;
    }

    lemma ProgressDone(start: map<Timer, State>, done: set<Timer>, fired: seq<Timer>, last: seq<Timer>)
      requires timers.Ok() && Progress(start, done, fired, last)
      ensures done <= start.Keys
    {
      hide InStep, NoRepeats, Elements;
    }

    /** process_timer, with callbacks that leave the heap alone. `start` records the heap's timers. Every expired
        timer is called or queued exactly once, and the sweep ends with every remaining timer in the future. But the
        loop looks at the root without testing the size: `fault` is the read of a slot that holds no timer, and it
        happens if and only if no timer survives. */
    method ProcessTimer(ghost start: map<Timer, State>) returns (fault: bool, ghost fired: seq<Timer>, ghost last: seq<Timer>)
      requires timers.Valid() && Recorded(start) && Countable(start) && timersNum >= timers.size
      requires Linked(pending, queue) && forall t :: t in start ==> !t.pending
      modifies this`timersNum, this`pending, this`queue, this`called, timers`size, timers.slots, start.Keys
      ensures fault <==> forall t :: t in start ==> Leaves(start[t], curMs)
      ensures fault <==> timers.size == 0
      ensures timers.Valid() && SweptAll(start, fired, last)
      ensures forall t :: t in start && start[t].nextTimeout > curMs ==> StateOf(t) == start[t] && !t.pending
      ensures forall t :: t in start && start[t].nextTimeout <= curMs ==>
        && t.timeout == start[t].timeout
        && if start[t].repeat == 1 then t.repeat == 0 && t.pending && t.destory && timers.Contents()[t] == 0
           else
             && t.repeat == (if start[t].repeat == UINT32_MAX then UINT32_MAX else start[t].repeat - 1)
             && t.nextTimeout == curMs + start[t].timeout && !t.pending && timers.Contents()[t] == 1
      ensures called == old(called) + fired
      ensures Linked(pending, queue) && queue == last + old(queue)
      ensures timersNum - timers.size == old(timersNum - timers.size)
    {
      hide Heap.Keys, Heap.Contents, Heap.Nodes, Ordered, Linked, Progress, SweptAll, Countable, InStep, StateOf;
      fault, fired, last := false, [], [];
      ghost var done: set<Timer> := {};
      NothingDone(start);
      var more := true;
      while more
        invariant timers.Valid() && Progress(start, done, fired, last) && Linked(pending, queue) && done <= start.Keys
        invariant queue == last + old(queue) && called == old(called) + fired
        invariant timersNum - timers.size == old(timersNum - timers.size)
        invariant !more ==> timers.size > 0 && timers.slots[0].nextTimeout > curMs
        decreases start.Keys - done, more
      {
        if timers.size == 0 {
          RunEmpty(start, done, fired, last);
          EachSwept(start, fired, last);
          return true, fired, last;
        }
        ghost var was := done;
        more, done, fired, last := SweepRoot(start, done, fired, last, old(called), old(queue));
        assert more ==> start.Keys - done < start.Keys - was;
      }
      NothingExpired(start, done, fired, last);
      RootSurvives(start, done, fired, last);
      EachSwept(start, fired, last);
    }

    /** What the sweep makes of a timer, by the time, its deadline and its repetitions. */
    lemma EachSwept(start: map<Timer, State>, fired: seq<Timer>, last: seq<Timer>)
      requires timers.Ok() && Countable(start) && SweptAll(start, fired, last)
      ensures forall t :: t in start && start[t].nextTimeout > curMs ==> StateOf(t) == start[t] && !t.pending
      ensures forall t :: t in start && start[t].nextTimeout <= curMs ==>
        && t.timeout == start[t].timeout
        && if start[t].repeat == 1 then t.repeat == 0 && t.pending && t.destory && timers.Contents()[t] == 0
           else
             && t.repeat == (if start[t].repeat == UINT32_MAX then UINT32_MAX else start[t].repeat - 1)
             && t.nextTimeout == curMs + start[t].timeout && !t.pending && timers.Contents()[t] == 1
    {
      hide Heap.Ok, Heap.Contents, NoRepeats, Elements;
      forall t | t in start
        ensures start[t].nextTimeout > curMs ==> StateOf(t) == start[t] && !t.pending
        ensures start[t].nextTimeout <= curMs ==> t.timeout == start[t].timeout
      {
        assert StateOf(t) == Swept(start[t], curMs);
      }
    }

    /** The branch of event_loop_run for an expired timer: the sweep, then the pending events. Unless the sweep
        runs into the empty heap, every expired timer that has a callback is called exactly once, by one of the two;
        if it does, the timers that were due for the last time are not called. */
    method RunExpired(ghost start: map<Timer, State>) returns (fault: bool, ghost fired: seq<Timer>, ghost last: seq<Timer>)
      requires timers.Valid() && Recorded(start) && Countable(start) && timersNum >= timers.size
      requires Linked(pending, queue) && forall t :: t in start ==> !t.pending
      modifies this`timersNum, this`pending, this`queue, this`called, timers`size, timers.slots, start.Keys, queue
      ensures fault <==> forall t :: t in start ==> Leaves(start[t], curMs)
      ensures called == old(called) + fired + (if fault then [] else WithCallback(last + old(queue)))
      ensures if fault then fired == [] && queue == last + old(queue) else pending == null && queue == []
      ensures NoRepeats(fired + last)
      ensures Elements(fired + last) ==
        set t | t in start && start[t].nextTimeout <= curMs && (t.hasCallback || start[t].repeat == 1)
    {
      hide Heap.Keys, Heap.Contents, Heap.Nodes, Ordered, Linked, WithCallback, SweptAll, NoRepeats, Elements;
      fault, fired, last := ProcessTimer(start);
      OnceEach(start, fired, last);
      if fault {
        NoneRearmed(start, fired, last);
        return;
      }
      ProcessPending();
    }

    lemma NoneRearmed(start: map<Timer, State>, fired: seq<Timer>, last: seq<Timer>)
      requires timers.Ok() && SweptAll(start, fired, last) && forall t :: t in start ==> Leaves(start[t], curMs)
      ensures fired == []
    {
      hide Heap.Ok, Heap.Contents, StateOf, Swept, NoRepeats;
      assert fired != [] ==> fired[0] in Elements(fired);
    }

    lemma OnceEach(start: map<Timer, State>, fired: seq<Timer>, last: seq<Timer>)
      requires timers.Ok() && SweptAll(start, fired, last) && Countable(start)
      ensures NoRepeats(fired + last) && forall t :: t in last ==> t in start
      ensures Elements(fired + last) ==
        set t | t in start && start[t].nextTimeout <= curMs && (t.hasCallback || start[t].repeat == 1)
    {
      hide Heap.Ok, Heap.Contents, StateOf, Swept;
      assert Elements(fired + last) == Elements(fired) + Elements(last);
      forall i, j | 0 <= i < |fired| && 0 <= j < |last| ensures fired[i] != last[j] {
        assert fired[i] in Elements(fired) && last[j] in Elements(last);
      }
      assert forall t :: t in last ==> t in Elements(last);
    }

    /** add_timer, with `now` as the time read from the clock. The interval is an int, the times are uint64_t. */
    method AddTimer(now: nat, timeout: int, hasCallback: bool, repeat: nat) returns (timer: Timer?)
      requires timers.Valid() && repeat <= UINT32_MAX
      modifies this`curMs, this`timersNum, timers`size, timers.slots
      ensures timers.Valid() && (timer == null <==> timeout == 0)
      ensures timer == null ==> timers.Contents() == old(timers.Contents()) && timersNum == old(timersNum)
      ensures timer != null ==>
        && fresh(timer) && !timer.pending && !timer.destory && curMs == now && timersNum == old(timersNum) + 1
        && StateOf(timer) == State(if repeat == 0 then 1 else repeat, U64(now + timeout), U64(timeout))
        && timer.hasCallback == hasCallback
        && timers.Contents() == if old(timers.size) == timers.slots.Length then old(timers.Contents())
                                else old(timers.Contents()) + multiset{timer}
    {
      if timeout == 0 {
        return null;
      }
      hide Heap.Keys, Heap.Contents, Heap.Nodes, OrderedAround, Ordered;
      ghost var k := timers.Keys();
      curMs := now;
      var t := new Timer(U64(timeout), U64(curMs + timeout), if repeat == 0 then 1 else repeat, hasCallback);
      assert timers.Keys() == k;
      Arm(t);
      timer := t;
    }

    method Arm(t: Timer)
      requires timers.Valid()
      modifies this`timersNum, timers`size, timers.slots
      ensures timers.Valid() && timersNum == old(timersNum) + 1
      ensures timers.Contents() ==
        (if old(timers.size) == timers.slots.Length then old(timers.Contents()) else old(timers.Contents()) + multiset{t})
    {
      hide Heap.Valid, Heap.Keys, Heap.Contents, Heap.Nodes;
      timers.Insert(t);
      timersNum := timersNum + 1;
    }
  }

  /** The fields of a timer that the sweep reads or writes. */
  datatype State = State(repeat: nat, nextTimeout: nat, timeout: nat)

  ghost function StateOf(t: Timer): State
    reads t
  {
    State(t.repeat, t.nextTimeout, t.timeout)
  }

  /** An expired timer on its last repetition leaves the heap; UINT32_MAX repeats for ever. */
  predicate Leaves(s: State, now: nat) {
    s.nextTimeout <= now && s.repeat == 1
  }

  predicate Rearms(s: State, now: nat) {
    s.nextTimeout <= now && s.repeat > 1
  }

  /** The timers of `done` that the sweep has taken out of the heap. */
  function Gone(start: map<Timer, State>, done: set<Timer>, now: nat): set<Timer>
    requires done <= start.Keys
  {
    set t | t in done && Leaves(start[t], now)
  }

  /** A timer that started the sweep in state `s`, before or after its turn. */
  ghost predicate InStep(t: Timer, s: State, done: bool, now: nat)
    reads t
  {
    var queued := done && Leaves(s, now);
    StateOf(t) == (if done then Swept(s, now) else s) && t.pending == queued && (queued ==> t.destory)
  }

  lemma StepDone(t: Timer, s: State, now: nat)
    requires StateOf(t) == Swept(s, now) && t.pending == Leaves(s, now) && (Leaves(s, now) ==> t.destory)
    ensures InStep(t, s, true, now)
  {
  }

  function Elements(s: seq<Timer>): set<Timer> {
    set t | t in s
  }

  /** Who was called and who was queued, if exactly the timers of `done` have been dealt with. */
  ghost predicate Tally(start: map<Timer, State>, done: set<Timer>, fired: seq<Timer>, last: seq<Timer>, now: nat) {
    && done <= start.Keys && (forall t :: t in done ==> start[t].nextTimeout <= now)
    && NoRepeats(fired) && Elements(fired) == (set t | t in done && Rearms(start[t], now) && t.hasCallback)
    && NoRepeats(last) && Elements(last) == Gone(start, done, now)
  }

  /** The sweep's preconditions on the timers: positive intervals, and repetitions in 1..UINT32_MAX. */
  predicate Countable(start: map<Timer, State>) {
    forall t :: t in start ==> start[t].timeout > 0 && 1 <= start[t].repeat <= UINT32_MAX
  }

  lemma TallyLast(start: map<Timer, State>, done: set<Timer>, fired: seq<Timer>, last: seq<Timer>, now: nat, t: Timer)
    requires Tally(start, done, fired, last, now) && t in start && t !in done && Leaves(start[t], now)
    ensures Tally(start, done + {t}, fired, [t] + last, now)
    ensures multiset(start.Keys - Gone(start, done + {t}, now)) == multiset(start.Keys - Gone(start, done, now)) - multiset{t}
  {
    assert t in Elements(last) ==> t in done;
    assert Elements([t] + last) == {t} + Elements(last);
    assert Gone(start, done + {t}, now) == Gone(start, done, now) + {t};
    assert start.Keys - Gone(start, done + {t}, now) == (start.Keys - Gone(start, done, now)) - {t};
    assert (set u | u in done + {t} && Rearms(start[u], now) && u.hasCallback) == Elements(fired);
  }

  lemma TallyRearm(start: map<Timer, State>, done: set<Timer>, fired: seq<Timer>, last: seq<Timer>, now: nat, t: Timer)
    requires Tally(start, done, fired, last, now) && t in start && t !in done && Rearms(start[t], now)
    ensures Tally(start, done + {t}, fired + (if t.hasCallback then [t] else []), last, now)
    ensures Gone(start, done + {t}, now) == Gone(start, done, now)
  {
    assert t in Elements(fired) ==> t in done;
    assert Elements(fired + [t]) == Elements(fired) + {t};
    assert fired + [] == fired;
    assert Gone(start, done + {t}, now) == Gone(start, done, now);
    var was := set u | u in done && Rearms(start[u], now) && u.hasCallback;
    assert (set u | u in done + {t} && Rearms(start[u], now) && u.hasCallback) == was + (if t.hasCallback then {t} else {});
  }

  function Swept(s: State, now: nat): State {
    if Leaves(s, now) then s.(repeat := 0)
    else if Rearms(s, now) then
      s.(repeat := if s.repeat == UINT32_MAX then UINT32_MAX else s.repeat - 1, nextTimeout := now + s.timeout)
    else s
  }
}
