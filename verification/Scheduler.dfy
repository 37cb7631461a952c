/**
 * The scheduler and the alarm handler, relinking the process queues in place.
 * Line numbers are those of src/process/scheduler.c.
 */
module Schedulers {
  import opened RoundRobin
  import opened SleepClock

  datatype Status = RUNNING | STOPPED | BLOCKED | ZOMBIE

  /** A process with its control block. */
  class Process {
    const pid: int
    var priority: int
    var status: Status
    var changedStatus: bool
    var sleepTimeRemaining: int
    var next: Process?

    constructor (pid: int, priority: int)
      ensures this.pid == pid && this.priority == priority && status == RUNNING && !changedStatus
              && sleepTimeRemaining == -1 && next == null
    {
      this.pid, this.priority, status, changedStatus, sleepTimeRemaining, next := pid, priority, RUNNING, false, -1,
          null;
    }
  }

  /** The process at place `k`, null behind the last. */
  function At(s: seq<Process>, k: nat): Process? {
    if k < |s| then s[k] else null
  }

  ghost predicate UniquePids(s: seq<Process>) {
    forall i, j :: 0 <= i < j < |s| ==> s[i].pid != s[j].pid
  }

  lemma OnePlace(s: seq<Process>, i: nat)
    requires UniquePids(s) && i < |s|
    ensures forall k :: 0 <= k < |s| ==> (s[k] == s[i] <==> k == i)
    ensures forall k :: 0 <= k < |s| ==> (s[k].pid == s[i].pid <==> k == i)
  {}

  lemma RotatedUnique(s: seq<Process>)
    requires UniquePids(s) && s != []
    ensures UniquePids(Rotated(s))
  {}

  lemma AppendUnique(s: seq<Process>, p: Process)
    requires UniquePids(s) && forall q :: q in s ==> q.pid != p.pid
    ensures UniquePids(s + [p])
  {}

  lemma WithoutUnique(s: seq<Process>, i: nat)
    requires UniquePids(s) && i < |s|
    ensures UniquePids(Without(s, i))
  {}

  /** One of the queues: the first and the last process, linked from one to the next. */
  class Queue {
    var head: Process?
    var tail: Process?
    ghost var items: seq<Process>
    ghost const id: nat

    constructor (ghost id: nat)
      ensures Valid() && items == [] && this.id == id
    {
      head, tail, items := null, null, [];
      this.id := id;
    }

    ghost predicate Valid()
      reads this, items`next
    {
      && head == At(items, 0)
      && (items != [] ==> tail == items[|items| - 1])
      && (forall i :: 0 <= i < |items| ==> items[i].next == At(items, i + 1))
      && UniquePids(items)
    }

    lemma Pids()
      requires Valid()
      ensures UniquePids(items)
    {}

    /** Behind all others. An emptied queue may keep a tail that is not in it any more. */
    method Append(p: Process)
      requires Valid() && p.next == null && forall q :: q in items ==> q.pid != p.pid
      modifies this, items`next
      ensures Valid() && items == old(items) + [p] && p.next == null
    {
      hide UniquePids;
      AppendUnique(items, p);
      if items != [] { OnePlace(items, |items| - 1); }
      if head == null {
        head := p;
        tail := p;
      } else {
        tail.next := p;
        tail := p;
      }
      items := items + [p];
    }

    /** The first becomes the last. */
    method MoveHeadBack()
      requires Valid() && items != []
      modifies this, items`next
      ensures Valid() && items == Rotated(old(items))
    {
      hide UniquePids;
      RotatedUnique(items);
      OnePlace(items, 0);
      OnePlace(items, |items| - 1);
      if head == tail {
        assert |items| == 1;
      } else {
        tail.next := head;
        tail := head;
        head := head.next;
        tail.next := null;
        items := items[1..] + [items[0]];
      }
    }

    method Find(pid: int) returns (p: Process?)
      requires Valid()
      ensures p == null ==> forall q :: q in items ==> q.pid != pid
      ensures p != null ==> p in items && p.pid == pid
    {
      hide UniquePids;
      p := head;
      ghost var i := 0;
      while p != null
        invariant i <= |items| && p == At(items, i)
        invariant forall k :: 0 <= k < i ==> items[k].pid != pid
        decreases |items| - i
      {
        if p.pid == pid { return; }
        p := p.next;
        i := i + 1;
      }
    }

    /** Take the process with this pid out; it is at place `idx`. */
    method Remove(pid: int, ghost idx: nat)
      requires Valid() && idx < |items| && items[idx].pid == pid
      modifies this, items`next
      ensures Valid() && items == Without(old(items), idx) && old(items)[idx].next == null
    {
      hide UniquePids;
      OnePlace(items, idx);
      WithoutUnique(items, idx);
      OnePlace(items, 0);
      if head != null && head.pid == pid {
        assert idx == 0;
        assert head.next == At(items, 1);
        var first := head;
        head := head.next;
        first.next := null;
        items := Without(items, 0);
        return;
      }
      var current := head;
      ghost var i := 0;
      while current.next != null
        invariant i < idx && current == items[i]
        decreases |items| - i
      {
        assert current.next == At(items, i + 1);
        if current.next.pid == pid {
          Unlink(current, i);
          return;
        }
        current := current.next;
        i := i + 1;
      }
    }

    /** The one behind `current`, which is at place `i`, goes. */
    method Unlink(current: Process, ghost i: nat)
      requires Valid() && i + 1 < |items| && current == items[i] && current.next != null
      modifies this, items`next
      ensures Valid() && items == Without(old(items), i + 1) && old(items)[i + 1].next == null
    {
      hide UniquePids, At, Without;
      ghost var s := items;
      var removed := current.next;
      AtIs(s, i + 1);
      AtIs(s, i + 2);
      AtIs(s, |s|);
      OnePlace(s, i);
      OnePlace(s, i + 1);
      WithoutUnique(s, i + 1);
      var newNext := removed.next;
      assert newNext == At(s, i + 2);
      if newNext == null {
        tail := current;
      }
      current.next := newNext;
      removed.next := null;
      items := Without(s, i + 1);
      WithoutAt(s, i + 1, 0);
      forall k | 0 <= k < |items|
        ensures items[k].next == At(items, k + 1)
      {
        WithoutAt(s, i + 1, k);
        WithoutAt(s, i + 1, k + 1);
      }
    }
  }

  lemma AtIs(s: seq<Process>, k: nat)
    ensures At(s, k) == null <==> k >= |s|
    ensures k < |s| ==> At(s, k) == s[k]
  {}

  lemma WithoutAt(s: seq<Process>, i: nat, k: nat)
    requires i < |s|
    ensures At(Without(s, i), k) == At(s, if k < i then k else k + 1)
    ensures k < |s| - 1 ==> Without(s, i)[k] == s[if k < i then k else k + 1]
    ensures |Without(s, i)| == |s| - 1
  {}

  function Without<T>(s: seq<T>, i: nat): (r: seq<T>)
    requires i < |s|
    ensures |r| == |s| - 1
    ensures forall k :: 0 <= k < |r| ==> r[k] == if k < i then s[k] else s[k + 1]
  {
    s[..i] + s[i + 1..]
  }

  /** The queues of the kernel and the cursor of the scheduler. `home` says which queue a process id is in. */
  class Kernel {
    const high: Queue
    const med: Queue
    const low: Queue
    const blocked: Queue
    const stopped: Queue
    const zombie: Queue
    var listPointer: nat
    var ticks: int
    var activeProcess: Process?
    ghost var home: map<int, nat>

    constructor ()
      ensures Valid() && fresh(high) && fresh(med) && fresh(low) && fresh(blocked) && fresh(stopped) && fresh(zombie)
      ensures listPointer == 0 && ticks == 0 && activeProcess == null && home == map[]
    {
      high := new Queue(0);
      med := new Queue(1);
      low := new Queue(2);
      blocked := new Queue(3);
      stopped := new Queue(4);
      zombie := new Queue(5);
      listPointer, ticks, activeProcess, home := 0, 0, null, map[];
    }

    ghost predicate Homed(q: Queue)
      reads this`home, q`items
    {
      HomeOf(home, q.id, q.items)
    }

    /** Every queue is linked as it should be, and no process is in two of them. */
    ghost predicate Linked()
      reads this`home, high, med, low, blocked, stopped, zombie
      reads high.items`next, med.items`next, low.items`next, blocked.items`next, stopped.items`next, zombie.items`next
    {
      && high.id == 0 && med.id == 1 && low.id == 2 && blocked.id == 3 && stopped.id == 4 && zombie.id == 5
      && high.Valid() && med.Valid() && low.Valid() && blocked.Valid() && stopped.Valid() && zombie.Valid()
      && Homed(high) && Homed(med) && Homed(low) && Homed(blocked) && Homed(stopped) && Homed(zombie)
    }

    ghost predicate Valid()
      reads this, high, med, low, blocked, stopped, zombie
      reads high.items`next, med.items`next, low.items`next, blocked.items`next, stopped.items`next, zombie.items`next
    {
      listPointer <= ROUND && Linked()
    }

    /** A queue is empty exactly when its head is null. */
    lemma Heads()
      requires Linked()
      ensures high.head == null <==> high.items == []
      ensures med.head == null <==> med.items == []
      ensures low.head == null <==> low.items == []
      ensures blocked.head == null <==> blocked.items == []
      ensures high != med && high != low && med != low
    {
      hide HomeOf;
    }

    /** What matters for the scheduler's choice. */
    ghost function Snapshot(): Ready<Process>
      reads this, high, med, low, blocked
    {
      Ready(listPointer, high.items, med.items, low.items, blocked.items != [])
    }

    /** Two queues have no process in common. */
    lemma Apart(q: Queue, r: Queue)
      requires Homed(q) && Homed(r) && q.id != r.id
      ensures q != r && forall i, j :: 0 <= i < |q.items| && 0 <= j < |r.items| ==> q.items[i] != r.items[j]
    {
      forall i, j | 0 <= i < |q.items| && 0 <= j < |r.items|
        ensures q.items[i] != r.items[j]
      {
        assert q.items[i] in q.items && r.items[j] in r.items;
      }
    }

    /** Lines 69-84, 113-127 and 139-160: run the first of the queue, which goes to the back. */
    method DispatchFrom(q: Queue) returns (p: Process)
      requires Linked() && q in {high, med, low} && q.items != []
      modifies this`activeProcess, q, q.items`next, q.items`status
      ensures Linked() && p == old(q.items)[0] && activeProcess == p && p.status == RUNNING
      ensures high.items == (if q == high then Rotated(old(high.items)) else old(high.items))
      ensures med.items == (if q == med then Rotated(old(med.items)) else old(med.items))
      ensures low.items == (if q == low then Rotated(old(low.items)) else old(low.items))
      ensures blocked.items == old(blocked.items)
    {
      hide Rotated, HomeOf, Queue.Valid;
      HeadIs(q);
      p := q.head;
      if q != high { Apart(q, high); }
      if q != med { Apart(q, med); }
      if q != low { Apart(q, low); }
      Apart(q, blocked);
      Apart(q, stopped);
      Apart(q, zombie);
      RotatedHome(home, q.id, q.items);
      activeProcess := p;
      p.status := RUNNING;
      q.MoveHeadBack();
    }

    lemma HeadIs(q: Queue)
      requires q.Valid()
      ensures q.head == null <==> q.items == []
      ensures q.items != [] ==> q.head == q.items[0]
    {}

    /** Choose the next process: one turn of the scheduler, up to the switch to what it chose. */
    method Scheduler() returns (choice: Choice<Process>)
      requires Valid()
      modifies this`listPointer, this`activeProcess, high, med, low
      modifies high.items`next, med.items`next, low.items`next, high.items`status, med.items`status, low.items`status
      ensures Valid() && Snapshot() == Step(old(Snapshot())) && choice == Chosen(old(Snapshot()))
      ensures choice.Dispatch? ==> activeProcess == choice.who && choice.who.status == RUNNING
      ensures !choice.Dispatch? ==> activeProcess == old(activeProcess)
      ensures TakesTurn(old(Snapshot()), choice, Snapshot())
    {
      hide Linked, Step, Chosen, TakesTurn;
      TurnAt(Snapshot());
      FromStart(Snapshot());
      if listPointer == 18 {
        listPointer := 0;
      }
      choice := TakeSlot();
    }

    /** The slot whose turn it is, and its queue. */
    method TakeSlot() returns (choice: Choice<Process>)
      requires Valid() && listPointer < ROUND
      modifies this`listPointer, this`activeProcess, high, med, low
      modifies high.items`next, med.items`next, low.items`next, high.items`status, med.items`status, low.items`status
      ensures Valid() && Snapshot() == Step(old(Snapshot())) && choice == Chosen(old(Snapshot()))
      ensures choice.Dispatch? ==> activeProcess == choice.who && choice.who.status == RUNNING
      ensures !choice.Dispatch? ==> activeProcess == old(activeProcess)
    {
      hide Rotated, Slot, Step, Chosen, Linked;
      StepIs(Snapshot());
      Heads();
      var num := Slot(listPointer);
      var q := if num == PRIORITY_HIGH then high else if num == PRIORITY_LOW then low else med;
      if q.head != null {
        var p := RunFirst(q, num);
        return Dispatch(p);
      }
      choice := NothingHere();
    }

    /** Lines 66-88, 110-134 and 136-168: the queue whose turn it is has somebody. */
    method RunFirst(q: Queue, ghost num: int) returns (p: Process)
      requires Linked() && q == (if num == PRIORITY_HIGH then high else if num == PRIORITY_LOW then low else med)
      requires q.items != []
      modifies this`listPointer, this`activeProcess, q, q.items`next, q.items`status
      ensures Linked() && p == old(q.items)[0] && activeProcess == p && p.status == RUNNING
      ensures Snapshot() == WithQueue(old(Snapshot()), num, Rotated(old(q.items))).(cursor := old(listPointer) + 1)
    {
      hide Rotated, Linked;
      Heads();
      p := DispatchFrom(q);
      listPointer := listPointer + 1;
    }

    /**
     * A whole round with somebody in every queue: who runs at each of its eighteen places. `seen` are the queues
     * before each call, and at the end.
     */
    method FullRound() returns (ran: seq<Process>, ghost seen: seq<Ready<Process>>)
      requires Valid() && listPointer in {0, 18} && high.items != [] && med.items != [] && low.items != []
      modifies this`listPointer, this`activeProcess, high, med, low
      modifies high.items`next, med.items`next, low.items`next, high.items`status, med.items`status, low.items`status
      ensures Valid() && listPointer == 18 && |ran| == 18 && |seen| == 19
      ensures seen[0] == old(Snapshot()) && seen[18] == Snapshot()
      ensures forall i :: 0 <= i < 19 ==> seen[i].high != [] && seen[i].med != [] && seen[i].low != []
      ensures forall i :: 0 <= i < 18 ==>
                && TakesTurn(seen[i], Dispatch(ran[i]), seen[i + 1])
                && ran[i] == if i in {0, 2, 3, 4, 7, 10, 14, 15, 16} then seen[i].high[0]
                             else if i in {6, 8, 12} then seen[i].low[0] else seen[i].med[0]
    {
      hide Linked, Step, Chosen, TakesTurn;
      ran, seen := [], [Snapshot()];
      for i := 0 to 18
        invariant Valid() && |ran| == i && |seen| == i + 1 && seen[0] == old(Snapshot()) && seen[i] == Snapshot()
        invariant listPointer == i || (i == 0 && listPointer == 18)
        invariant forall k :: 0 <= k < |high.items| ==> high.items[k] in old(high.items)
        invariant forall k :: 0 <= k < |med.items| ==> med.items[k] in old(med.items)
        invariant forall k :: 0 <= k < |low.items| ==> low.items[k] in old(low.items)
        invariant forall k :: 0 <= k <= i ==> seen[k].high != [] && seen[k].med != [] && seen[k].low != []
        invariant forall k :: 0 <= k < i ==>
                    && TakesTurn(seen[k], Dispatch(ran[k]), seen[k + 1])
                    && ran[k] == if k in {0, 2, 3, 4, 7, 10, 14, 15, 16} then seen[k].high[0]
                                 else if k in {6, 8, 12} then seen[k].low[0] else seen[k].med[0]
      {
        ghost var s := Snapshot();
        var choice := Scheduler();
        TurnFull(s, i, choice, Snapshot());
        ran := ran + [choice.who];
        seen := seen + [Snapshot()];
      }
    }

    /** Lines 172-183: the queue whose turn it is is empty. */
    method NothingHere() returns (choice: Choice<Process>)
      requires Linked() && listPointer < ROUND
      modifies this`listPointer
      ensures Linked()
      ensures NoneReady(Snapshot()) ==>
                choice == (if Snapshot().waiting then Idle else Stop) && listPointer == old(listPointer)
      ensures !NoneReady(Snapshot()) ==> choice == Again && listPointer == old(listPointer) + 1
    {
      hide Linked;
      Heads();
      if high.head == null && med.head == null && low.head == null && blocked.head != null {
        return Idle;
      }
      if high.head == null && med.head == null && low.head == null && blocked.head == null {
        return Stop;
      }
      listPointer := listPointer + 1;
      return Again;
    }

    // ---- entering and leaving queues ----

    /** Behind the others of `q`, for a process in no queue. */
    method AppendTo(q: Queue, p: Process)
      requires Linked() && q in {high, med, blocked} && p.next == null && p.pid !in home
      modifies this`home, q, q.items`next
      ensures Linked() && home == old(home)[p.pid := q.id] && p.next == null
      ensures high.items == old(high.items) + (if q == high then [p] else [])
      ensures med.items == old(med.items) + (if q == med then [p] else [])
      ensures blocked.items == old(blocked.items) + (if q == blocked then [p] else [])
      ensures low.items == old(low.items)
    {
      hide HomeOf, Queue.Valid, UniquePids, At;
      if q != high { Apart(q, high); }
      if q != med { Apart(q, med); }
      if q != blocked { Apart(q, blocked); }
      Apart(q, low);
      Apart(q, stopped);
      Apart(q, zombie);
      HomeAdded(home, high.id, high.items, p, q.id);
      HomeAdded(home, med.id, med.items, p, q.id);
      HomeAdded(home, low.id, low.items, p, q.id);
      HomeAdded(home, blocked.id, blocked.items, p, q.id);
      HomeAdded(home, stopped.id, stopped.items, p, q.id);
      HomeAdded(home, zombie.id, zombie.items, p, q.id);
      q.Append(p);
      home := home[p.pid := q.id];
    }

    /** Take the process at place `idx` of the blocked queue out. */
    method DequeueBlocked(p: Process, ghost idx: nat)
      requires Linked() && idx < |blocked.items| && blocked.items[idx] == p
      modifies this`home, blocked, blocked.items`next
      ensures Linked() && home == old(home) - {p.pid} && p.next == null
      ensures blocked.items == Without(old(blocked.items), idx)
      ensures high.items == old(high.items) && med.items == old(med.items) && low.items == old(low.items)
    {
      hide HomeOf, Queue.Valid, Without;
      Apart(blocked, high);
      Apart(blocked, med);
      Apart(blocked, low);
      Apart(blocked, stopped);
      Apart(blocked, zombie);
      BlockedHome(p);
      blocked.Pids();
      HomeRemoved(home, high.id, high.items, p);
      HomeRemoved(home, med.id, med.items, p);
      HomeRemoved(home, low.id, low.items, p);
      HomeRemoved(home, stopped.id, stopped.items, p);
      HomeRemoved(home, zombie.id, zombie.items, p);
      HomeWithout(home, blocked.id, blocked.items, idx);
      blocked.Remove(p.pid, idx);
      home := home - {p.pid};
    }

    /** Block a process that is in no queue. */
    method EnqueueBlocked(p: Process)
      requires Valid() && p.next == null && p.pid !in home
      modifies this`home, blocked, blocked.items`next, p`status, p`changedStatus
      ensures Valid() && p.status == BLOCKED && p.changedStatus && home == old(home)[p.pid := blocked.id]
      ensures blocked.items == old(blocked.items) + [p]
      ensures high.items == old(high.items) && med.items == old(med.items) && low.items == old(low.items)
    {
      Ids();
      hide Linked, Queue.Valid, HomeOf, At, UniquePids;
      p.status := BLOCKED;
      p.changedStatus := true;
      assert Linked();
      AppendTo(blocked, p);
    }

    /**
     * Make a process ready that is in no queue. The case of low priority runs on into the default case, so that such a
     * process ends up in two queues over its one link; for every other priority the queues stay in order.
     */
    method Enqueue(p: Process)
      requires Valid() && p.next == null && p.pid !in home
      modifies this`home, high, med, low, high.items`next, med.items`next, low.items`next, p`status
      ensures p.status == RUNNING && (Valid() <==> p.priority != PRIORITY_LOW)
      ensures high.items == old(high.items) + (if p.priority == PRIORITY_HIGH then [p] else [])
      ensures med.items == old(med.items) + (if p.priority == PRIORITY_HIGH then [] else [p])
      ensures low.items == old(low.items) + (if p.priority == PRIORITY_LOW then [p] else [])
      ensures blocked.items == old(blocked.items)
    {
      Ids();
      hide Linked, Queue.Valid, HomeOf;
      p.status := RUNNING;
      assert Linked();
      if p.priority == PRIORITY_LOW {
        AppendTwice(p);
      } else {
        EnqueueOnce(p);
      }
    }

    /** Lines 334-349 and 372-392 for the other priorities: into one queue. */
    method EnqueueOnce(p: Process)
      requires Linked() && p.next == null && p.pid !in home && p.priority != PRIORITY_LOW
      modifies this`home, high, med, high.items`next, med.items`next
      ensures Linked() && low.items == old(low.items) && blocked.items == old(blocked.items)
      ensures high.items == old(high.items) + (if p.priority == PRIORITY_HIGH then [p] else [])
      ensures med.items == old(med.items) + (if p.priority == PRIORITY_HIGH then [] else [p])
    {
      Ids();
      hide Linked, Queue.Valid, HomeOf;
      if p.priority == PRIORITY_HIGH {
        AppendTo(high, p);
      } else {
        AppendTo(med, p);
      }
    }

    /** Lines 350-372 for low priority: into the low queue and, without a break, into the medium one. */
    method AppendTwice(p: Process)
      requires Linked() && p.next == null && p.pid !in home
      modifies low, med, low.items`next, med.items`next
      ensures low.items == old(low.items) + [p] && med.items == old(med.items) + [p]
      ensures high.items == old(high.items) && blocked.items == old(blocked.items)
      ensures !Linked()
    {
      hide Queue.Valid, HomeOf;
      Apart(low, med);
      HomeAdded(home, low.id, low.items, p, 0);
      HomeAdded(home, med.id, med.items, p, 0);
      low.Append(p);
      med.Append(p);
      assert low.items[|low.items| - 1] == med.items[|med.items| - 1] == p;
      if Linked() {
        Apart(low, med);
      }
    }

    lemma Ids()
      requires Linked()
      ensures high.id == 0 && med.id == 1 && low.id == 2 && blocked.id == 3
      ensures high != med && high != low && med != low && blocked != high && blocked != med && blocked != low
    {
      hide HomeOf, Queue.Valid;
    }

    /** All processes in some queue. */
    ghost function All(): seq<Process>
      reads high, med, low, blocked, stopped, zombie
    {
      high.items + med.items + low.items + blocked.items + stopped.items + zombie.items
    }

    lemma AllLinked()
      requires Linked()
      ensures high.Valid() && med.Valid() && low.Valid() && blocked.Valid() && stopped.Valid() && zombie.Valid()
    {
      hide Queue.Valid, HomeOf;
    }

    lemma InAll()
      ensures forall p :: p in high.items || p in med.items || p in low.items ==> p in All()
      ensures forall p :: p in blocked.items || p in stopped.items || p in zombie.items ==> p in All()
      ensures forall p :: p in All() ==>
                p in high.items || p in med.items || p in low.items || p in blocked.items || p in stopped.items
                || p in zombie.items
    {}

    /** Process ids are unique over all queues. */
    lemma OnlyOne()
      requires Linked()
      ensures forall p, r :: p in All() && r in All() && r.pid == p.pid ==> r == p
    {
      AllLinked();
      forall p, r | p in All() && r in All() && r.pid == p.pid
        ensures r == p
      {
        var q := Whereabouts(p);
        var q' := Whereabouts(r);
        hide Linked, All, Queue.Valid;
        SameThere(q, p, r);
      }
    }

    /** The queue a process is in. */
    lemma Whereabouts(p: Process) returns (q: Queue)
      requires Linked() && p in All()
      ensures q in {high, med, low, blocked, stopped, zombie} && q.Valid() && p in q.items
      ensures p.pid in home && home[p.pid] == q.id
      ensures forall q' :: q' in {high, med, low, blocked, stopped, zombie} && q'.id == q.id ==> q' == q
    {
      hide Queue.Valid;
      q := if p in high.items then high else if p in med.items then med else if p in low.items then low
           else if p in blocked.items then blocked else if p in stopped.items then stopped else zombie;
    }

    lemma SameThere(q: Queue, p: Process, r: Process)
      requires q.Valid() && p in q.items && r in q.items && r.pid == p.pid
      ensures r == p
    {
      hide At;
      var i :| 0 <= i < |q.items| && q.items[i] == p;
      OnePlace(q.items, i);
    }

    /**
     * Search the queues in turn: the process of that id, whichever queue it is in, and null exactly when it is in
     * none.
     */
    method FindProcessByPid(pid: int) returns (p: Process?)
      requires Linked()
      ensures p == null <==> forall r :: r in All() ==> r.pid != pid
      ensures p != null ==> p.pid == pid && p in All() && forall r :: r in All() && r.pid == pid ==> r == p
      ensures forall k :: 0 <= k < |blocked.items| && blocked.items[k].pid == pid ==> p == blocked.items[k]
    {
      OnlyOne();
      InAll();
      p := SearchQueues(pid);
      hide Linked, All;
      assert forall k :: 0 <= k < |blocked.items| ==> blocked.items[k] in blocked.items;
    }

    /** The six searches, one after the other. */
    method SearchQueues(pid: int) returns (p: Process?)
      requires Linked()
      ensures p != null ==> p.pid == pid
      ensures p != null ==>
                p in high.items || p in med.items || p in low.items || p in blocked.items || p in stopped.items
                            || p in zombie.items
      ensures p == null ==> forall r :: r in high.items || r in med.items || r in low.items ==> r.pid != pid
      ensures p == null ==> forall r :: r in blocked.items || r in stopped.items || r in zombie.items ==> r.pid != pid
    {
      AllLinked();
      hide Queue.Valid, Linked;
      p := high.Find(pid);
      if p != null { return; }
      p := med.Find(pid);
      if p != null { return; }
      p := low.Find(pid);
      if p != null { return; }
      p := blocked.Find(pid);
      if p != null { return; }
      p := stopped.Find(pid);
      if p != null { return; }
      p := zombie.Find(pid);
    }

    // ---- the alarm ----

    /** What the sleep clock sees of the blocked queue. */
    ghost function Sleepers(): seq<Waiter<Process>>
      reads blocked, blocked.items`sleepTimeRemaining, blocked.items`status, blocked.items`priority
    {
      Waiters(blocked.items)
    }

    /** Lines 714-730: count down, and note who has slept enough. There is room for twenty. */
    method CountDown() returns (pids: array<int>, count: nat)
      requires Linked() && |Woken(TickAll(Sleepers()))| <= 20
      modifies blocked.items`sleepTimeRemaining
      ensures Linked() && Sleepers() == TickAll(old(Sleepers()))
      ensures forall p :: p in blocked.items ==>
                p.sleepTimeRemaining ==
                  if old(p.sleepTimeRemaining) > 0 && p.status != STOPPED then old(p.sleepTimeRemaining) - 1
                  else old(p.sleepTimeRemaining)
      ensures fresh(pids) && count == |Woken(Sleepers())| <= pids.Length
      ensures forall i :: 0 <= i < count ==> pids[i] == Woken(Sleepers())[i].who.pid
    {
      hide Linked, Queue.Valid, UniquePids, Woken, Waiters, At;
      ghost var items, w, t := blocked.items, Sleepers(), TickAll(Sleepers());
      BlockedLinks();
      pids := new int[20];
      count := 0;
      var temp := blocked.head;
      ghost var i := 0;
      WokenNone(t);
      while temp != null
        invariant i <= |items| && temp == At(items, i)
        invariant forall k :: 0 <= k < |items| ==> items[k].sleepTimeRemaining == if k < i then t[k].left else w[k].left
        invariant count == |Woken(t[..i])| <= 20 && forall j :: 0 <= j < count ==> pids[j] == Woken(t[..i])[j].who.pid
        invariant fresh(pids)
        decreases |items| - i
      {
        AtIs(items, i);
        OnePlace(items, i);
        WokenNext(t, i);
        WokenPrefix(t, i + 1);
        if temp.sleepTimeRemaining > 0 && temp.status != STOPPED {
          temp.sleepTimeRemaining := temp.sleepTimeRemaining - 1;
        }
        if temp.sleepTimeRemaining == 0 {
          pids[count] := temp.pid;
          count := count + 1;
        }
        temp := temp.next;
        i := i + 1;
      }
      AtIs(items, i);
      assert t[..i] == t;
      assert Sleepers() == t;
    }

    /** The links of the blocked queue, as long as nothing relinks it. */
    lemma BlockedLinks()
      requires Linked()
      ensures blocked.head == At(blocked.items, 0) && UniquePids(blocked.items)
      ensures forall i :: 0 <= i < |blocked.items| ==> blocked.items[i].next == At(blocked.items, i + 1)
    {
      hide HomeOf;
    }

    /** Lines 731-735: from the blocked queue to the one of its priority. */
    method Wake(pid: int, ghost k: nat, ghost p: Process)
      requires Valid() && k < |blocked.items| && blocked.items[k] == p && p.pid == pid && p.priority != PRIORITY_LOW
      modifies this`home, blocked, high, med, low, blocked.items`next, high.items`next, med.items`next,
          low.items`next, p`status
      ensures Valid() && p.status == RUNNING
      ensures blocked.items == Without(old(blocked.items), k) && low.items == old(low.items)
      ensures high.items == old(high.items) + (if p.priority == PRIORITY_HIGH then [p] else [])
      ensures med.items == old(med.items) + (if p.priority == PRIORITY_HIGH then [] else [p])
    {
      hide Linked;
      var temp := FindProcessByPid(pid);
      DequeueBlocked(temp, k);
      Enqueue(temp);
    }

    /** One turn of that loop: the first whose time is over goes. */
    method WakeFirst(pid: int, ghost p: Process)
      requires Valid() && Woken(Sleepers()) != [] && Woken(Sleepers())[0].who == p && p.pid == pid
               && p.priority != PRIORITY_LOW
      modifies this`home, blocked, high, med, low, blocked.items`next, high.items`next, med.items`next,
          low.items`next, p`status
      ensures Valid() && p.status == RUNNING && low.items == old(low.items)
      ensures Staying(Sleepers()) == old(Staying(Sleepers())) && Woken(Sleepers()) == old(Woken(Sleepers()))[1..]
      ensures high.items == old(high.items) + (if p.priority == PRIORITY_HIGH then [p] else [])
      ensures med.items == old(med.items) + (if p.priority == PRIORITY_HIGH then [] else [p])
      ensures forall k :: 0 <= k < |blocked.items| ==> blocked.items[k] in old(blocked.items)
    {
      hide Linked, Woken, Staying, Waiters, WaiterOf, UniquePids, Without, At;
      ghost var items := blocked.items;
      ghost var k := FirstWoken(Waiters(items));
      ghost var rest := Without(items, k);
      WhoIs(items[k]);
      BlockedLinks();
      RestWaits(items, k);
      Wake(pid, k, p);
      assert Waiters(rest) == old(Waiters(rest));
    }

    /** The others, seen before and after: none of them is the one taken out. */
    lemma RestWaits(s: seq<Process>, k: nat)
      requires k < |s| && UniquePids(s)
      ensures Waiters(Without(s, k)) == Waiters(s)[..k] + Waiters(s)[k + 1..]
      ensures forall i :: 0 <= i < |Without(s, k)| ==> Without(s, k)[i] != s[k] && Without(s, k)[i] in s
    {
      hide UniquePids, Waiters, WaiterOf;
      OnePlace(s, k);
      var t := Without(s, k);
      forall i | 0 <= i < |t|
        ensures t[i] != s[k] && t[i] in s && Waiters(t)[i] == Waiters(s)[if i < k then i else i + 1]
      {
        assert t[i] == s[if i < k then i else i + 1];
      }
    }

    lemma WhoIs(p: Process)
      ensures WaiterOf(p).who == p && WaiterOf(p).high == (p.priority == PRIORITY_HIGH)
    {}

    /** Lines 731-735. */
    method WakeAll(pids: array<int>, count: nat)
      requires Valid() && count == |Woken(Sleepers())| <= pids.Length
      requires forall i :: 0 <= i < count ==>
                 pids[i] == Woken(Sleepers())[i].who.pid && Woken(Sleepers())[i].who in blocked.items
      requires forall i :: 0 <= i < count ==>
                 Woken(Sleepers())[i].high == (Woken(Sleepers())[i].who.priority == PRIORITY_HIGH)
      requires forall k :: 0 <= k < |blocked.items| ==> blocked.items[k].priority != PRIORITY_LOW
      modifies this`home, blocked, high, med, low, blocked.items`next, high.items`next, med.items`next,
          low.items`next, blocked.items`status
      ensures Valid() && low.items == old(low.items)
      ensures Sleepers() == Staying(old(Sleepers()))
      ensures high.items == old(high.items) + Going(Woken(old(Sleepers())), true)
      ensures med.items == old(med.items) + Going(Woken(old(Sleepers())), false)
      ensures forall w :: w in Woken(old(Sleepers())) ==> w.who.status == RUNNING
    {
      hide Linked, Woken, Staying, Going, Waiters, WaiterOf;
      ghost var t, woken := Sleepers(), Woken(Sleepers());
      NoneGone(woken);
      for i := 0 to count
        invariant Valid()
        invariant Staying(Sleepers()) == Staying(t) && Woken(Sleepers()) == woken[i..]
        invariant high.items == old(high.items) + Going(woken[..i], true)
                  && med.items == old(med.items) + Going(woken[..i], false)
        invariant low.items == old(low.items)
        invariant forall j :: 0 <= j < i ==> woken[j].who.status == RUNNING
        invariant forall k :: 0 <= k < |blocked.items| ==> blocked.items[k] in old(blocked.items)
        invariant forall k :: 0 <= k < |high.items| ==>
                    high.items[k] in old(high.items) || high.items[k] in old(blocked.items)
        invariant forall k :: 0 <= k < |med.items| ==>
                    med.items[k] in old(med.items) || med.items[k] in old(blocked.items)
      {
        GoingNext(woken, i, true);
        GoingNext(woken, i, false);
        WakeFirst(pids[i], woken[i].who);
      }
      NoneWoken(Sleepers());
      assert woken[..count] == woken;
    }

    lemma BlockedApart()
      requires Linked()
      ensures forall i, j ::
                0 <= i < |blocked.items| && 0 <= j < |blocked.items| && blocked.items[i] == blocked.items[j] ==> i == j
    {
      hide HomeOf;
    }

    lemma WhoSleeps()
      ensures |Sleepers()| == |blocked.items| && forall i :: 0 <= i < |blocked.items| ==>
                && Sleepers()[i].who == blocked.items[i] && Sleepers()[i].left == blocked.items[i].sleepTimeRemaining
                && (Sleepers()[i].high <==> blocked.items[i].priority == -1)
    {}

    /** The alarm, up to the switch to the scheduler. */
    method AlarmHandler()
      requires Valid() && |Woken(TickAll(Sleepers()))| <= 20
      requires forall k :: 0 <= k < |blocked.items| ==> blocked.items[k].priority != PRIORITY_LOW
      modifies this`home, this`ticks, blocked, high, med, low, blocked.items`next, high.items`next, med.items`next,
          low.items`next
      modifies blocked.items`status, blocked.items`sleepTimeRemaining
      ensures Valid() && ticks == old(ticks) + 1 && low.items == old(low.items)
      ensures Sleepers() == AfterAlarm(old(Sleepers()))
      ensures high.items == old(high.items) + Going(Woken(TickAll(old(Sleepers()))), true)
      ensures med.items == old(med.items) + Going(Woken(TickAll(old(Sleepers()))), false)
      ensures forall w :: w in Woken(TickAll(old(Sleepers()))) ==> w.who.status == RUNNING
      ensures forall p :: p in old(blocked.items) ==>
                && p.sleepTimeRemaining ==
                     (if old(p.sleepTimeRemaining) > 0 && old(p.status) != STOPPED then old(p.sleepTimeRemaining) - 1
                      else old(p.sleepTimeRemaining))
                && (p in blocked.items <==> p.sleepTimeRemaining != 0)
                && (p.sleepTimeRemaining == 0 ==> if p.priority == -1 then p in high.items else p in med.items)
    {
      hide Linked, Woken, Staying, Going, Waiters;
      hide TickAll, AfterAlarm;
      ghost var items := blocked.items;
      AlarmSteps(Sleepers());
      ticks := ticks + 1;
      var pids, count := CountDown();
      forall i | 0 <= i < count
        ensures Woken(Sleepers())[i].who in blocked.items
                && Woken(Sleepers())[i].high == (Woken(Sleepers())[i].who.priority == PRIORITY_HIGH)
      {
        var w := Woken(Sleepers())[i];
        StayingIs(Sleepers(), w);
        var j :| 0 <= j < |Sleepers()| && Sleepers()[j] == w;
        assert w == WaiterOf(blocked.items[j]);
      }
      ghost var t := Sleepers();
      BlockedApart();
      WhoSleeps();
      WokenGo(items, t);
      WakeAll(pids, count);
      WhoSleeps();
      StaysIff(items, t, blocked.items, Sleepers());
    }

    lemma BlockedHome(p: Process)
      requires Linked() && p in blocked.items
      ensures p.pid in home && home[p.pid] == blocked.id
    {
      hide Queue.Valid;
    }
  }

  lemma HomeAdded(home: map<int, nat>, id: nat, s: seq<Process>, p: Process, q: nat)
    requires HomeOf(home, id, s) && p.pid !in home
    ensures HomeOf(home[p.pid := q], id, s) && forall r :: r in s ==> r.pid != p.pid
    ensures q == id ==> HomeOf(home[p.pid := q], id, s + [p])
  {}

  lemma HomeRemoved(home: map<int, nat>, id: nat, s: seq<Process>, p: Process)
    requires HomeOf(home, id, s) && p.pid in home && home[p.pid] != id
    ensures HomeOf(home - {p.pid}, id, s)
  {}

  lemma HomeWithout(home: map<int, nat>, id: nat, s: seq<Process>, i: nat)
    requires HomeOf(home, id, s) && i < |s| && UniquePids(s)
    ensures HomeOf(home - {s[i].pid}, id, Without(s, i))
  {
    var t := Without(s, i);
    forall p | p in t
      ensures p in s && p.pid != s[i].pid
    {
      var k :| 0 <= k < |t| && t[k] == p;
      assert t[k] == s[if k < i then k else k + 1];
    }
  }

  /** The choice and the next state, by the queue whose turn it is. */
  lemma StepIs(s: Ready<Process>)
    requires s.cursor <= ROUND
    ensures Slot(Here(s.cursor)) == Slot(s.cursor)
    ensures var prio := Slot(s.cursor);
            var q := QueueOf(s, prio);
            if q != [] then Chosen(s) == Dispatch(q[0])
            && Step(s) == WithQueue(s, prio, Rotated(q)).(cursor := Here(s.cursor) + 1)
            else if !NoneReady(s) then Chosen(s) == Again && Step(s) == s.(cursor := Here(s.cursor) + 1)
            else Chosen(s) == (if s.waiting then Idle else Stop) && Step(s) == s.(cursor := Here(s.cursor))
  {
    hide Slot;
    assert Slot(Here(s.cursor)) == Slot(s.cursor) by { SlotHere(s.cursor); }
  }

  lemma SlotHere(cursor: nat)
    requires cursor <= ROUND
    ensures Slot(Here(cursor)) == Slot(cursor)
  {}

  lemma WokenGo(items: seq<Process>, ws: seq<Waiter<Process>>)
    requires |ws| == |items| && forall i :: 0 <= i < |items| ==> ws[i].who == items[i]
    ensures forall i :: 0 <= i < |items| && ws[i].left == 0 ==> items[i] in Going(Woken(ws), ws[i].high)
  {
    forall i | 0 <= i < |items| && ws[i].left == 0
      ensures items[i] in Going(Woken(ws), ws[i].high)
    {
      StayingIs(ws, ws[i]);
      GoingIs(Woken(ws), ws[i]);
    }
  }

  /** Who stays blocked: those whose time is not over. */
  lemma StaysIff(items: seq<Process>, ws: seq<Waiter<Process>>, left: seq<Process>, ws': seq<Waiter<Process>>)
    requires |ws| == |items| && |ws'| == |left| && ws' == Staying(ws)
    requires forall i :: 0 <= i < |items| ==> ws[i].who == items[i]
    requires forall i :: 0 <= i < |left| ==> ws'[i].who == left[i]
    requires forall i, j :: 0 <= i < |items| && 0 <= j < |items| && items[i] == items[j] ==> i == j
    ensures forall i :: 0 <= i < |items| ==> (items[i] in left <==> ws[i].left != 0)
  {
    forall i | 0 <= i < |items|
      ensures items[i] in left <==> ws[i].left != 0
    {
      if items[i] in left {
        var j :| 0 <= j < |left| && left[j] == items[i];
        StayingIs(ws, ws'[j]);
        assert ws'[j] in Staying(ws);
      }
      StayingIs(ws, ws[i]);
      if ws[i].left != 0 {
        assert ws[i] in ws;
        var j :| 0 <= j < |ws'| && ws'[j] == ws[i];
        assert left[j] == items[i];
      }
    }
  }

  ghost function WaiterOf(p: Process): Waiter<Process>
    reads p`sleepTimeRemaining, p`status, p`priority
  {
    Waiter(p, p.sleepTimeRemaining, p.status == STOPPED, p.priority == PRIORITY_HIGH)
  }

  ghost function Waiters(s: seq<Process>): (r: seq<Waiter<Process>>)
    reads s`sleepTimeRemaining, s`status, s`priority
    ensures |r| == |s|
    ensures forall i :: 0 <= i < |s| ==> r[i] == WaiterOf(s[i])
  {
    if s == [] then [] else Waiters(s[..|s| - 1]) + [WaiterOf(s[|s| - 1])]
  }

  lemma WokenNone(t: seq<Waiter<Process>>)
    ensures Woken(t[..0]) == []
  {}

  lemma NoneGone(t: seq<Waiter<Process>>)
    ensures Going(t[..0], true) == [] && Going(t[..0], false) == [] && t[0..] == t
  {}

  lemma WokenNext(t: seq<Waiter<Process>>, i: nat)
    requires i < |t|
    ensures Woken(t[..i + 1]) == Woken(t[..i]) + if t[i].left == 0 then [t[i]] else []
  {
    WokenAppend(t[..i], [t[i]]);
    assert t[..i + 1] == t[..i] + [t[i]];
    assert [t[i]][1..] == [];
  }

  ghost predicate HomeOf(home: map<int, nat>, id: nat, s: seq<Process>) {
    forall p :: p in s ==> p.pid in home && home[p.pid] == id
  }

  lemma RotatedHome(home: map<int, nat>, id: nat, s: seq<Process>)
    requires HomeOf(home, id, s) && s != []
    ensures HomeOf(home, id, Rotated(s))
  {
    assert s == [s[0]] + s[1..];
  }
}
