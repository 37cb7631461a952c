/** The scheduler's choice as a value: a cursor over a cyclic table of slots, and one queue for each priority. */
module RoundRobin {
  import opened Bytes

  const PRIORITY_HIGH := -1
  const PRIORITY_MED := 0
  const PRIORITY_LOW := 1

  const ROUND := 18

  // The fourth entry is an expression, `0 -1`, so that the last of the eighteen is left at zero.
  const SLOTS: seq<int> := [-1, 0, -1, 0 -1, -1, 0, 1, -1, 1, 0, -1, 0, 1, 0, -1, -1, -1, 0]

  /** How many of the slots a priority has. */
  function Quota(prio: int): nat {
    if prio == PRIORITY_HIGH then 9 else if prio == PRIORITY_MED then 6 else if prio == PRIORITY_LOW then 3 else 0
  }

  /** `waiting`: some process is blocked. */
  datatype Ready<T> = Ready(cursor: nat, high: seq<T>, med: seq<T>, low: seq<T>, waiting: bool)

  datatype Choice<T> = Dispatch(who: T) | Idle | Stop | Again

  /** One past the last slot stands for the first. */
  function Here(cursor: nat): nat {
    if cursor == ROUND then 0 else cursor
  }

  function Slot(cursor: nat): int
    requires cursor <= ROUND
  {
    SLOTS[Here(cursor)]
  }

  function QueueOf<T>(s: Ready<T>, prio: int): seq<T> {
    if prio == PRIORITY_HIGH then s.high else if prio == PRIORITY_LOW then s.low else s.med
  }

  function WithQueue<T>(s: Ready<T>, prio: int, q: seq<T>): Ready<T> {
    if prio == PRIORITY_HIGH then s.(high := q) else if prio == PRIORITY_LOW then s.(low := q) else s.(med := q)
  }

  function Rotated<T>(q: seq<T>): seq<T>
    requires q != []
  {
    q[1..] + [q[0]]
  }

  predicate NoneReady<T>(s: Ready<T>) {
    s.high == [] && s.med == [] && s.low == []
  }

  function Chosen<T>(s: Ready<T>): Choice<T>
    requires s.cursor <= ROUND
  {
    var q := QueueOf(s, Slot(s.cursor));
    if q != [] then Dispatch(q[0]) else if !NoneReady(s) then Again else if s.waiting then Idle else Stop
  }

  function Step<T>(s: Ready<T>): (r: Ready<T>)
    requires s.cursor <= ROUND
    ensures r.cursor <= ROUND
  {
    var prio := Slot(s.cursor);
    var q := QueueOf(s, prio);
    if q != [] then WithQueue(s, prio, Rotated(q)).(cursor := Here(s.cursor) + 1)
    else if NoneReady(s) then s.(cursor := Here(s.cursor))
    else s.(cursor := Here(s.cursor) + 1)
  }

  /** Behind the last slot comes the first. */
  lemma FromStart<T>(s: Ready<T>)
    ensures s.cursor == ROUND ==> Step(s) == Step(s.(cursor := 0)) && Chosen(s) == Chosen(s.(cursor := 0))
  {
    hide QueueOf, WithQueue, NoneReady;
    if s.cursor == ROUND {
      assert Slot(ROUND) == Slot(0);
      hide Slot;
      SameQueues(s, Slot(0));
    }
  }

  lemma SameQueues<T>(s: Ready<T>, prio: int)
    ensures QueueOf(s.(cursor := 0), prio) == QueueOf(s, prio) && NoneReady(s.(cursor := 0)) == NoneReady(s)
    ensures forall q, n: nat :: WithQueue(s.(cursor := 0), prio, q).(cursor := n) == WithQueue(s, prio, q).(cursor := n)
  {}

  /** Between two calls processes may be added behind the others. */
  function Arrive<T>(s: Ready<T>, a: Ready<T>): Ready<T> {
    s.(high := s.high + a.high, med := s.med + a.med, low := s.low + a.low, waiting := a.waiting)
  }

  // ---- the order of the turns ----

  /**
   * Whose turn it is at each place of the round: if the queue has somebody, its first process runs and goes to the
   * back; if not, but some other queue has, the next place is tried; and if nobody is ready the idle process runs, or,
   * with nobody blocked either, the scheduler stops.
   */
  predicate TakesTurn<T(==)>(s: Ready<T>, choice: Choice<T>, s': Ready<T>) {
    var i := if s.cursor == 18 then 0 else s.cursor;
    && (i in {0, 2, 3, 4, 7, 10, 14, 15, 16} && s.high != [] ==>
          choice == Dispatch(s.high[0]) && s' == s.(cursor := i + 1, high := s.high[1..] + [s.high[0]]))
    && (i in {1, 5, 9, 11, 13, 17} && s.med != [] ==>
          choice == Dispatch(s.med[0]) && s' == s.(cursor := i + 1, med := s.med[1..] + [s.med[0]]))
    && (i in {6, 8, 12} && s.low != [] ==>
          choice == Dispatch(s.low[0]) && s' == s.(cursor := i + 1, low := s.low[1..] + [s.low[0]]))
    && (s.high != [] || s.med != [] || s.low != [] ==> s'.cursor == i + 1)
    && ((s.high != [] || s.med != [] || s.low != []) && !choice.Dispatch? ==>
          choice == Again && s' == s.(cursor := i + 1))
    && (s.high == [] && s.med == [] && s.low == [] ==>
          choice == (if s.waiting then Idle else Stop) && s' == s.(cursor := i))
  }

  lemma TurnAt<T>(s: Ready<T>)
    requires s.cursor <= 18
    ensures TakesTurn(s, Chosen(s), Step(s))
  {
    SlotIs(s.cursor);
    hide Slot;
  }

  /** With somebody in every queue, each place of the round has its process, and nobody leaves a queue. */
  lemma TurnFull<T>(s: Ready<T>, i: nat, choice: Choice<T>, s': Ready<T>)
    requires i < 18 && (s.cursor == i || (i == 0 && s.cursor == 18)) && s.high != [] && s.med != [] && s.low != []
    requires TakesTurn(s, choice, s')
    ensures (forall k :: 0 <= k < |s'.high| ==> s'.high[k] in s.high)
            && (forall k :: 0 <= k < |s'.med| ==> s'.med[k] in s.med)
            && (forall k :: 0 <= k < |s'.low| ==> s'.low[k] in s.low)
    ensures choice.Dispatch? && s'.cursor == i + 1 && s'.high != [] && s'.med != [] && s'.low != []
    ensures choice.who == if i in {0, 2, 3, 4, 7, 10, 14, 15, 16} then s.high[0]
                          else if i in {6, 8, 12} then s.low[0] else s.med[0]
  {}

  lemma SlotIs(cursor: nat)
    requires cursor <= 18
    ensures var i := if cursor == 18 then 0 else cursor;
            Slot(cursor) == if i in {0, 2, 3, 4, 7, 10, 14, 15, 16} then -1 else if i in {6, 8, 12} then 1 else 0
  {}

  // ---- how often each priority has its turn ----

  /** In how many of the next `n` calls that advance it the cursor is on a slot of `prio`. */
  function Visits(cursor: nat, n: nat, prio: int): nat
    requires cursor <= ROUND
    decreases n
  {
    if n == 0 then 0 else (if Slot(cursor) == prio then 1 else 0) + Visits(Here(cursor) + 1, n - 1, prio)
  }

  /** How many of the first `i` slots are of `prio`. */
  function CountTo(i: nat, prio: int): nat
    requires i <= ROUND
  {
    if i == 0 then 0 else CountTo(i - 1, prio) + if SLOTS[i - 1] == prio then 1 else 0
  }

  lemma QuotaIs(prio: int)
    requires PRIORITY_HIGH <= prio <= PRIORITY_LOW
    ensures CountTo(ROUND, prio) == Quota(prio)
  {
    var n := 0;
    assert CountTo(2, prio) == if prio == -1 then 1 else if prio == 0 then 1 else 0;
    assert CountTo(4, prio) == if prio == -1 then 3 else if prio == 0 then 1 else 0;
    assert CountTo(6, prio) == if prio == -1 then 4 else if prio == 0 then 2 else 0;
    assert CountTo(8, prio) == if prio == -1 then 5 else if prio == 0 then 2 else 1;
    assert CountTo(10, prio) == if prio == -1 then 5 else if prio == 0 then 3 else 2;
    assert CountTo(12, prio) == if prio == -1 then 6 else if prio == 0 then 4 else 2;
    assert CountTo(14, prio) == if prio == -1 then 6 else if prio == 0 then 5 else 3;
    assert CountTo(16, prio) == if prio == -1 then 8 else if prio == 0 then 5 else 3;
  }

  lemma {:induction false} VisitsStraight(cursor: nat, n: nat, prio: int)
    requires cursor + n <= ROUND
    ensures Visits(cursor, n, prio) == CountTo(cursor + n, prio) - CountTo(cursor, prio)
    decreases n
  {
    hide CountTo;
    if n > 0 {
      VisitOne(cursor, n, prio);
      hide Visits;
      VisitsStraight(cursor + 1, n - 1, prio);
    }
  }

  lemma VisitOne(cursor: nat, n: nat, prio: int)
    requires 0 < n && cursor < ROUND
    ensures Visits(cursor, n, prio) == Visits(cursor + 1, n - 1, prio)
              + CountTo(cursor + 1, prio) - CountTo(cursor, prio)
  {}

  /** Where the cursor is after `n` calls that advance it. */
  function Moved(cursor: nat, n: nat): nat
    requires cursor <= ROUND
    decreases n
  {
    if n == 0 then cursor else Moved(Here(cursor) + 1, n - 1)
  }

  lemma {:induction false} MovedBounds(cursor: nat, n: nat)
    requires cursor <= ROUND
    ensures Moved(cursor, n) <= ROUND
    ensures Here(cursor) + n <= ROUND && n > 0 ==> Moved(cursor, n) == Here(cursor) + n
    decreases n
  {
    if n > 0 { MovedBounds(Here(cursor) + 1, n - 1); }
  }

  lemma {:induction false} VisitsSplit(cursor: nat, a: nat, b: nat, prio: int)
    requires cursor <= ROUND
    ensures Moved(cursor, a) <= ROUND && Moved(cursor, a + b) == Moved(Moved(cursor, a), b)
    ensures Visits(cursor, a + b, prio) == Visits(cursor, a, prio) + Visits(Moved(cursor, a), b, prio)
    decreases a
  {
    if a > 0 { VisitsSplit(Here(cursor) + 1, a - 1, b, prio); }
  }

  lemma OneHere(cursor: nat, n: nat, prio: int)
    requires cursor <= ROUND
    ensures Visits(cursor, n, prio) == Visits(Here(cursor), n, prio)
  {}

  /** One round, from wherever it starts, gives every priority its quota, and ends where it began. */
  lemma OneRound(cursor: nat, prio: int)
    requires cursor <= ROUND && PRIORITY_HIGH <= prio <= PRIORITY_LOW
    ensures Visits(cursor, ROUND, prio) == Quota(prio) && Moved(cursor, ROUND) <= ROUND
            && Here(Moved(cursor, ROUND)) == Here(cursor)
  {
    hide Visits, CountTo, Moved, Slot, Quota;
    var c := Here(cursor);
    var n := ROUND - c;
    VisitsSplit(cursor, n, c, prio);
    OneHere(cursor, n, prio);
    VisitsStraight(c, n, prio);
    MovedBounds(cursor, n);
    OneHere(ROUND, c, prio);
    VisitsStraight(0, c, prio);
    MovedBounds(ROUND, c);
    CountNone(prio);
    QuotaIs(prio);
    MovedNone(ROUND);
  }

  lemma CountNone(prio: int)
    ensures CountTo(0, prio) == 0
  {}

  lemma MovedNone(cursor: nat)
    requires cursor <= ROUND
    ensures Moved(cursor, 0) == cursor
  {}

  /** Any 18 m calls visit each priority m times its quota. */
  lemma {:induction false} Rounds(cursor: nat, m: nat, prio: int)
    requires cursor <= ROUND && PRIORITY_HIGH <= prio <= PRIORITY_LOW
    ensures Visits(cursor, ROUND * m, prio) == Quota(prio) * m
    decreases m
  {
    hide Visits, Slot, Quota, Moved, CountTo;
    if m > 0 {
      OneRound(cursor, prio);
      VisitsSplit(cursor, ROUND, ROUND * (m - 1), prio);
      Rounds(Moved(cursor, ROUND), m - 1, prio);
      MulStep(Quota(prio), m);
    } else {
      VisitsStep(cursor, 0, prio);
    }
  }

  lemma VisitsStep(cursor: nat, n: nat, prio: int)
    requires cursor <= ROUND
    ensures n == 0 ==> Visits(cursor, n, prio) == 0
    ensures n > 0 ==>
              Visits(cursor, n, prio) == (if Slot(cursor) == prio then 1 else 0)
              + Visits(Here(cursor) + 1, n - 1, prio)
  {}

  // ---- nobody is passed over ----

  /** Some call of a run, with these arrivals before each call, dispatches `p`. */
  predicate Dispatches<T(==)>(s: Ready<T>, arrivals: seq<Ready<T>>, p: T)
    requires s.cursor <= ROUND
    decreases |arrivals|
  {
    arrivals != [] &&
    var s1 := Arrive(s, arrivals[0]);
    Chosen(s1) == Dispatch(p) || Dispatches(Step(s1), arrivals[1..], p)
  }

  /** A visit brings whoever waits behind others one place nearer; the queues not visited stay. */
  lemma NearerByOne<T>(s: Ready<T>, prio: int, k: nat)
    requires s.cursor <= ROUND && PRIORITY_HIGH <= prio <= PRIORITY_LOW && k < |QueueOf(s, prio)|
    ensures Step(s).cursor == Here(s.cursor) + 1
    ensures Slot(s.cursor) == prio && k == 0 ==> Chosen(s) == Dispatch(QueueOf(s, prio)[k])
    ensures Slot(s.cursor) == prio && k > 0 ==>
              |QueueOf(Step(s), prio)| == |QueueOf(s, prio)| && QueueOf(Step(s), prio)[k - 1] == QueueOf(s, prio)[k]
    ensures Slot(s.cursor) != prio ==> QueueOf(Step(s), prio) == QueueOf(s, prio)
  {
    assert SlotIsPriority(s.cursor);
    hide Slot;
  }

  predicate SlotIsPriority(cursor: nat)
    requires cursor <= ROUND
    ensures SlotIsPriority(cursor)
  {
    PRIORITY_HIGH <= Slot(cursor) <= PRIORITY_LOW
  }

  lemma DispatchesNow<T>(s: Ready<T>, arrivals: seq<Ready<T>>, p: T)
    requires s.cursor <= ROUND && arrivals != []
    ensures Dispatches(s, arrivals, p) <==>
            Chosen(Arrive(s, arrivals[0])) == Dispatch(p) || Dispatches(Step(Arrive(s, arrivals[0])), arrivals[1..], p)
  {}

  /** A process that waits behind `k` others runs within the visits its class needs to reach it. */
  lemma {:induction false} Reached<T>(s: Ready<T>, arrivals: seq<Ready<T>>, prio: int, k: nat)
    requires s.cursor <= ROUND && PRIORITY_HIGH <= prio <= PRIORITY_LOW && k < |QueueOf(s, prio)|
    requires Visits(s.cursor, |arrivals|, prio) > k
    ensures Dispatches(s, arrivals, QueueOf(s, prio)[k])
    decreases |arrivals|
  {
    hide Slot, Visits, Dispatches, Step, Chosen;
    VisitsStep(s.cursor, |arrivals|, prio);
    var p, s1 := QueueOf(s, prio)[k], Arrive(s, arrivals[0]);
    assert k < |QueueOf(s1, prio)| && QueueOf(s1, prio)[k] == p && s1.cursor == s.cursor;
    DispatchesNow(s, arrivals, p);
    NearerByOne(s1, prio, k);
    hide QueueOf, Arrive;
    if Slot(s.cursor) != prio {
      Reached(Step(s1), arrivals[1..], prio, k);
    } else if k > 0 {
      Reached(Step(s1), arrivals[1..], prio, k - 1);
    }
  }

  /**
   * A process at position `k` of its queue runs within 18 * ceil((k + 1) / quota) calls, whatever arrives behind it.
   */
  lemma FairTurn<T>(s: Ready<T>, arrivals: seq<Ready<T>>, prio: int, k: nat)
    requires s.cursor <= ROUND && PRIORITY_HIGH <= prio <= PRIORITY_LOW && k < |QueueOf(s, prio)|
    requires |arrivals| == ROUND * CeilDiv(k + 1, Quota(prio))
    ensures Dispatches(s, arrivals, QueueOf(s, prio)[k])
  {
    Rounds(s.cursor, CeilDiv(k + 1, Quota(prio)), prio);
    CeilDivBounds(k + 1, Quota(prio));
    Reached(s, arrivals, prio, k);
  }

  /** A call moves nobody to another queue and loses nobody. */
  lemma StepKeepsAll<T>(s: Ready<T>, prio: int)
    requires s.cursor <= ROUND
    ensures multiset(QueueOf(Step(s), prio)) == multiset(QueueOf(s, prio))
  {
    var q := QueueOf(s, prio);
    if q != [] { assert q == [q[0]] + q[1..]; }
  }

  // ---- how long the first of a queue waits at most ----

  /** The cursor comes to slot `t` in due time. */
  lemma Meets(cursor: nat, t: nat, n: nat)
    requires cursor <= ROUND && t < ROUND
    requires n > if t >= Here(cursor) then t - Here(cursor) else ROUND - Here(cursor) + t
    ensures Visits(cursor, n, Slot(t)) > 0
  {
    hide Visits, Slot, Moved;
    var c := Here(cursor);
    var d := if t >= c then t - c else ROUND - c + t;
    OneHere(cursor, n, Slot(t));
    VisitsSplit(c, d, n - d, Slot(t));
    MovedBounds(c, d);
    if t < c {
      VisitsSplit(c, ROUND - c, t, Slot(t));
      MovedBounds(c, ROUND - c);
      MovedBounds(ROUND, t);
      MovedNone(ROUND);
    } else if d == 0 {
      MovedNone(c);
    }
    OneHere(Moved(c, d), n - d, Slot(t));
    VisitsStep(t, n - d, Slot(t));
    HereSlot(Moved(c, d), t);
  }

  lemma HereSlot(cursor: nat, t: nat)
    requires cursor <= ROUND && t < ROUND && Here(cursor) == t
    ensures Slot(cursor) == Slot(t)
  {}

  /**
   * Whatever arrives behind it, the first process of high or of medium priority runs within four calls, that of low
   * priority within twelve, from any cursor.
   */
  lemma SoonServed<T>(s: Ready<T>, arrivals: seq<Ready<T>>)
    requires s.cursor <= 18
    ensures |arrivals| >= 4 && s.high != [] ==> Dispatches(s, arrivals, s.high[0])
    ensures |arrivals| >= 4 && s.med != [] ==> Dispatches(s, arrivals, s.med[0])
    ensures |arrivals| >= 12 && s.low != [] ==> Dispatches(s, arrivals, s.low[0])
  {
    hide Slot, Visits, Dispatches;
    var i := Here(s.cursor);
    var high := if i <= 0 then 0 else if i <= 2 then 2 else if i <= 4 then i else if i <= 7 then 7
                else if i <= 10 then 10 else if i <= 14 then 14 else if i <= 16 then i else 0;
    var med := if i <= 1 then 1 else if i <= 5 then 5 else if i <= 9 then 9 else if i <= 11 then 11
               else if i <= 13 then 13 else 17;
    var low := if i <= 6 then 6 else if i <= 8 then 8 else if i <= 12 then 12 else 6;
    SlotIs(high);
    SlotIs(med);
    SlotIs(low);
    if |arrivals| >= 4 {
      Meets(s.cursor, high, |arrivals|);
      Meets(s.cursor, med, |arrivals|);
      if s.high != [] { Reached(s, arrivals, PRIORITY_HIGH, 0); }
      if s.med != [] { Reached(s, arrivals, PRIORITY_MED, 0); }
    }
    if |arrivals| >= 12 && s.low != [] {
      Meets(s.cursor, low, |arrivals|);
      Reached(s, arrivals, PRIORITY_LOW, 0);
    }
  }

  /** No process of a class runs while the class is not visited. */
  lemma {:induction false} NotYet<T>(s: Ready<T>, n: nat, prio: int, p: T)
    requires s.cursor <= ROUND && PRIORITY_HIGH <= prio <= PRIORITY_LOW && Visits(s.cursor, n, prio) == 0
    requires forall c :: PRIORITY_HIGH <= c <= PRIORITY_LOW && c != prio ==> QueueOf(s, c) != [] && p !in QueueOf(s, c)
    ensures !Dispatches(s, seq(n, _ => Ready(0, [], [], [], false)), p)
    decreases n
  {
    hide Visits, Dispatches;
    var nobody: Ready<T> := Ready(0, [], [], [], false);
    var a := seq(n, _ => nobody);
    if n == 0 {
      NoCalls(s, p);
    } else {
      VisitsStep(s.cursor, n, prio);
      assert a[1..] == seq(n - 1, _ => nobody);
      var s1 := Arrive(s, a[0]);
      assert s1 == s.(waiting := false);
      DispatchesNow(s, a, p);
      var c := Slot(s.cursor);
      assert SlotIsPriority(s.cursor);
      hide Slot;
      var q := QueueOf(s1, c);
      assert q == QueueOf(s, c) && q != [] && Chosen(s1) == Dispatch(q[0]);
      assert q[0] in q;
      assert Step(s1) == WithQueue(s1, c, Rotated(q)).(cursor := Here(s.cursor) + 1);
      forall d | PRIORITY_HIGH <= d <= PRIORITY_LOW && d != prio
        ensures QueueOf(Step(s1), d) != [] && p !in QueueOf(Step(s1), d)
      {
        assert QueueOf(Step(s1), d) == if d == c then Rotated(q) else QueueOf(s, d);
      }
      NotYet(Step(s1), n - 1, prio, p);
    }
  }

  lemma NoCalls<T>(s: Ready<T>, p: T)
    requires s.cursor <= ROUND
    ensures !Dispatches(s, seq(0, _ => Ready(0, [], [], [], false)), p)
  {}

  /** Three calls do not always do for high or medium priority, nor eleven for low. */
  lemma NotSooner()
    ensures var nobody := Ready(0, [], [], [], false);
            && !Dispatches(Ready(11, ["h"], ["m"], ["l"], false), seq(3, _ => nobody), "h")
            && !Dispatches(Ready(2, ["h"], ["m"], ["l"], false), seq(3, _ => nobody), "m")
            && !Dispatches(Ready(13, ["h"], ["m"], ["l"], false), seq(11, _ => nobody), "l")
  {
    hide Dispatches;
    hide Visits, Slot;
    Gaps();
    NotYet(Ready(11, ["h"], ["m"], ["l"], false), 3, PRIORITY_HIGH, "h");
    NotYet(Ready(2, ["h"], ["m"], ["l"], false), 3, PRIORITY_MED, "m");
    NotYet(Ready(13, ["h"], ["m"], ["l"], false), 11, PRIORITY_LOW, "l");
  }

  lemma Gaps()
    ensures Visits(11, 3, PRIORITY_HIGH) == 0 && Visits(2, 3, PRIORITY_MED) == 0 && Visits(13, 11, PRIORITY_LOW) == 0
  {
    hide Visits, Slot, Moved;
    Unvisited(11, 3, PRIORITY_HIGH);
    Unvisited(2, 3, PRIORITY_MED);
    Unvisited(13, 5, PRIORITY_LOW);
    Unvisited(0, 6, PRIORITY_LOW);
    VisitsSplit(13, 5, 6, PRIORITY_LOW);
    MovedBounds(13, 5);
    OneHere(18, 6, PRIORITY_LOW);
  }

  lemma {:induction false} Unvisited(i: nat, n: nat, prio: int)
    requires i + n <= ROUND && forall k :: i <= k < i + n ==> SLOTS[k] != prio
    ensures Visits(i, n, prio) == 0
    decreases n
  {
    if n > 0 { Unvisited(i + 1, n - 1, prio); }
  }
}
