/** The sleep clock as a value: what one alarm does to the blocked processes, and what many do. */
module SleepClock {

  /**
   * A blocked process, how many alarms it still sleeps (it waits for something else when that is negative), and its
   * priority.
   */
  datatype Waiter<P> = Waiter(who: P, left: int, stopped: bool, high: bool)

  function Ticked<P>(w: Waiter<P>): Waiter<P> {
    if w.left > 0 && !w.stopped then w.(left := w.left - 1) else w
  }

  function TickAll<P>(ws: seq<Waiter<P>>): (r: seq<Waiter<P>>)
    ensures |r| == |ws| && forall i :: 0 <= i < |ws| ==> r[i] == Ticked(ws[i])
  {
    seq(|ws|, i requires 0 <= i < |ws| => Ticked(ws[i]))
  }

  /** Those whose time is not over, in order. */
  function Staying<P>(ws: seq<Waiter<P>>): seq<Waiter<P>> {
    if ws == [] then [] else (if ws[0].left != 0 then [ws[0]] else []) + Staying(ws[1..])
  }

  /** Those whose time is over, in order. */
  function Woken<P>(ws: seq<Waiter<P>>): seq<Waiter<P>> {
    if ws == [] then [] else (if ws[0].left == 0 then [ws[0]] else []) + Woken(ws[1..])
  }

  /** Of these, the ones with (or without) high priority, in order. */
  function Going<P>(ws: seq<Waiter<P>>, high: bool): seq<P> {
    if ws == [] then [] else (if ws[0].high == high then [ws[0].who] else []) + Going(ws[1..], high)
  }

  /** The blocked queue after one alarm. */
  function AfterAlarm<P>(ws: seq<Waiter<P>>): seq<Waiter<P>> {
    Staying(TickAll(ws))
  }

  lemma AlarmSteps<P>(ws: seq<Waiter<P>>)
    ensures AfterAlarm(ws) == Staying(TickAll(ws))
  {}

  /** The blocked queue after one alarm for each element of `arrivals`, which then block behind the others. */
  function After<P>(ws: seq<Waiter<P>>, arrivals: seq<seq<Waiter<P>>>): seq<Waiter<P>> {
    if arrivals == [] then ws else AfterAlarm(After(ws, arrivals[..|arrivals| - 1])) + arrivals[|arrivals| - 1]
  }

  lemma {:induction false} StayingAppend<P>(a: seq<Waiter<P>>, b: seq<Waiter<P>>)
    ensures Staying(a + b) == Staying(a) + Staying(b)
  {
    hide Woken;
    if a == [] {
      assert a + b == b;
    } else {
      var t, h := a[1..], if a[0].left != 0 then [a[0]] else [];
      assert (a + b)[0] == a[0] && (a + b)[1..] == t + b;
      StayingAppend(t, b);
      assert Staying(a) == h + Staying(t) && Staying(a + b) == h + Staying(t + b);
      hide Staying;
      assert h + (Staying(t) + Staying(b)) == (h + Staying(t)) + Staying(b);
    }
  }

  lemma {:induction false} WokenAppend<P>(a: seq<Waiter<P>>, b: seq<Waiter<P>>)
    ensures Woken(a + b) == Woken(a) + Woken(b)
  {
    hide Staying;
    if a == [] {
      assert a + b == b;
    } else {
      var t, h := a[1..], if a[0].left == 0 then [a[0]] else [];
      assert (a + b)[0] == a[0] && (a + b)[1..] == t + b;
      WokenAppend(t, b);
      assert Woken(a) == h + Woken(t) && Woken(a + b) == h + Woken(t + b);
      hide Woken;
      assert h + (Woken(t) + Woken(b)) == (h + Woken(t)) + Woken(b);
    }
  }

  lemma {:induction false} StayingIs<P>(ws: seq<Waiter<P>>, w: Waiter<P>)
    ensures w in Staying(ws) <==> w in ws && w.left != 0
    ensures w in Woken(ws) <==> w in ws && w.left == 0
  {
    if ws != [] {
      StayingIs(ws[1..], w);
      assert ws == [ws[0]] + ws[1..];
    }
  }

  /** Who stays, stays in order. */
  lemma OrderKept<P>(a: seq<Waiter<P>>, x: Waiter<P>, b: seq<Waiter<P>>, y: Waiter<P>, c: seq<Waiter<P>>)
    requires x.left != 0 && y.left != 0
    ensures Staying(a + [x] + b + [y] + c) == Staying(a) + [x] + Staying(b) + [y] + Staying(c)
  {
    StayingOne(x);
    StayingOne(y);
    hide Staying, Woken;
    StayingAppend(a + [x] + b + [y], c);
    StayingAppend(a + [x] + b, [y]);
    StayingAppend(a + [x], b);
    StayingAppend(a, [x]);
  }

  lemma StayingOne<P>(x: Waiter<P>)
    requires x.left != 0
    ensures Staying([x]) == [x]
  {
    assert [x][1..] == [];
  }

  lemma AlarmIs<P>(ws: seq<Waiter<P>>, w: Waiter<P>)
    requires w in ws
    ensures Ticked(w).left != 0 ==> Ticked(w) in AfterAlarm(ws)
    ensures Ticked(w).left == 0 ==> Ticked(w) in Woken(TickAll(ws))
  {
    var i :| 0 <= i < |ws| && ws[i] == w;
    assert TickAll(ws)[i] == Ticked(w);
    StayingIs(TickAll(ws), Ticked(w));
  }

  lemma AfterNext<P>(ws: seq<Waiter<P>>, arrivals: seq<seq<Waiter<P>>>, n: nat)
    requires n < |arrivals|
    ensures After(ws, arrivals[..n + 1]) == AfterAlarm(After(ws, arrivals[..n])) + arrivals[n]
  {
    assert arrivals[..n + 1][..n] == arrivals[..n];
  }

  /** A sleeper is still there, with fewer alarms to go, after fewer alarms than it was to sleep. */
  lemma {:induction false} StillAsleep<P>(ws: seq<Waiter<P>>, arrivals: seq<seq<Waiter<P>>>, who: P, high: bool,
      t: nat, n: nat)
    requires Waiter(who, t, false, high) in ws && n < t && n <= |arrivals|
    ensures Waiter(who, t - n, false, high) in After(ws, arrivals[..n])
    decreases n
  {
    if n > 0 {
      StillAsleep(ws, arrivals, who, high, t, n - 1);
      AfterNext(ws, arrivals, n - 1);
      AlarmIs(After(ws, arrivals[..n - 1]), Waiter(who, t - n + 1, false, high));
    }
  }

  /** No process is blocked twice. */
  ghost predicate Once<P(!new)>(ws: seq<Waiter<P>>, who: P) {
    forall i, j :: 0 <= i < |ws| && 0 <= j < |ws| && ws[i].who == who && ws[j].who == who ==> i == j
  }

  ghost predicate Absent<P>(ws: seq<Waiter<P>>, who: P) {
    forall i :: 0 <= i < |ws| ==> ws[i].who != who
  }

  lemma {:induction false} StayingAbsent<P>(ws: seq<Waiter<P>>, who: P)
    requires forall i :: 0 <= i < |ws| && ws[i].who == who ==> ws[i].left == 0
    ensures Absent(Staying(ws), who)
  {
    if ws != [] { StayingAbsent(ws[1..], who); }
  }

  lemma {:induction false} StayingOnce<P(!new)>(ws: seq<Waiter<P>>, who: P)
    requires Once(ws, who)
    ensures Once(Staying(ws), who)
  {
    if ws != [] {
      var rest := ws[1..];
      assert forall i :: 0 <= i < |rest| ==> rest[i] == ws[i + 1];
      StayingOnce(rest, who);
      if ws[0].who == who {
        StayingAbsent(rest, who);
      }
    }
  }

  lemma AlarmOnce<P(!new)>(ws: seq<Waiter<P>>, who: P, more: seq<Waiter<P>>)
    requires Once(ws, who) && Absent(more, who)
    ensures Once(AfterAlarm(ws) + more, who)
  {
    StayingOnce(TickAll(ws), who);
  }

  lemma {:induction false} AlwaysOnce<P(!new)>(ws: seq<Waiter<P>>, arrivals: seq<seq<Waiter<P>>>, who: P, n: nat)
    requires Once(ws, who) && n <= |arrivals| && forall i :: 0 <= i < n ==> Absent(arrivals[i], who)
    ensures Once(After(ws, arrivals[..n]), who)
    decreases n
  {
    if n > 0 {
      AlwaysOnce(ws, arrivals, who, n - 1);
      AfterNext(ws, arrivals, n - 1);
      AlarmOnce(After(ws, arrivals[..n - 1]), who, arrivals[n - 1]);
    }
  }

  /**
   * A process that goes to sleep for t alarms is woken by the t-th, not earlier: before, it is blocked with
   * fewer and fewer alarms to go; from then on it is not blocked any more.
   */
  lemma ExactSleep<P(!new)>(ws: seq<Waiter<P>>, arrivals: seq<seq<Waiter<P>>>, who: P, high: bool, t: nat)
    requires Waiter(who, t, false, high) in ws && Once(ws, who) && 0 < t <= |arrivals|
    requires forall i :: 0 <= i < t ==> Absent(arrivals[i], who)
    ensures forall n :: 0 <= n < t ==> Waiter(who, t - n, false, high) in After(ws, arrivals[..n])
    ensures who in Going(Woken(TickAll(After(ws, arrivals[..t - 1]))), high)
    ensures Absent(After(ws, arrivals[..t]), who)
  {
    forall n | 0 <= n < t
      ensures Waiter(who, t - n, false, high) in After(ws, arrivals[..n])
    {
      StillAsleep(ws, arrivals, who, high, t, n);
    }
    var last := After(ws, arrivals[..t - 1]);
    AlwaysOnce(ws, arrivals, who, t - 1);
    AfterNext(ws, arrivals, t - 1);
    LastAlarm(last, who, high);
    GoneAfter(last, who, high, arrivals[t - 1]);
  }

  /** And it is not among those who stay. */
  lemma GoneAfter<P(!new)>(last: seq<Waiter<P>>, who: P, high: bool, arriving: seq<Waiter<P>>)
    requires Waiter(who, 1, false, high) in last && Once(last, who) && Absent(arriving, who)
    ensures Absent(AfterAlarm(last) + arriving, who)
  {
    var k :| 0 <= k < |last| && last[k] == Waiter(who, 1, false, high);
    forall i | 0 <= i < |TickAll(last)| && TickAll(last)[i].who == who
      ensures TickAll(last)[i].left == 0
    {
      assert last[i].who == who && i == k;
    }
    StayingAbsent(TickAll(last), who);
  }

  /** With one alarm to go, the next one wakes the process. */
  lemma LastAlarm<P(!new)>(last: seq<Waiter<P>>, who: P, high: bool)
    requires Waiter(who, 1, false, high) in last
    ensures who in Going(Woken(TickAll(last)), high)
  {
    var w := Waiter(who, 1, false, high);
    AlarmIs(last, w);
    var k :| 0 <= k < |last| && last[k] == w;
    assert TickAll(last)[k] == Ticked(w);
    GoingIs(Woken(TickAll(last)), Ticked(w));
  }

  lemma {:induction false} GoingIs<P>(ws: seq<Waiter<P>>, w: Waiter<P>)
    requires w in ws
    ensures w.who in Going(ws, w.high)
  {
    if w != ws[0] {
      assert ws == [ws[0]] + ws[1..];
      GoingIs(ws[1..], w);
    }
  }

  // ---- taking the woken out one by one ----

  /** The first whose time is over. */
  lemma {:induction false} FirstWoken<P>(ws: seq<Waiter<P>>) returns (k: nat)
    requires Woken(ws) != []
    ensures k < |ws| && ws[k].left == 0 && ws[k] == Woken(ws)[0]
    ensures Staying(ws[..k] + ws[k + 1..]) == Staying(ws) && Woken(ws[..k] + ws[k + 1..]) == Woken(ws)[1..]
  {
    if ws[0].left == 0 {
      k := 0;
      assert ws[..0] + ws[1..] == ws[1..];
    } else {
      var rest := ws[1..];
      var j := FirstWoken(rest);
      k := j + 1;
      var t := ws[..k] + ws[k + 1..];
      assert t[0] == ws[0] && t[1..] == rest[..j] + rest[j + 1..];
    }
  }

  lemma {:induction false} NoneWoken<P>(ws: seq<Waiter<P>>)
    requires Woken(ws) == []
    ensures Staying(ws) == ws
  {
    if ws != [] { NoneWoken(ws[1..]); }
  }

  lemma GoingNext<P>(ws: seq<Waiter<P>>, i: nat, high: bool)
    requires i < |ws|
    ensures Going(ws[..i + 1], high) == Going(ws[..i], high) + if ws[i].high == high then [ws[i].who] else []
  {
    GoingAppend(ws[..i], ws[i], high);
    assert ws[..i + 1] == ws[..i] + [ws[i]];
  }

  lemma {:induction false} GoingAppend<P>(ws: seq<Waiter<P>>, w: Waiter<P>, high: bool)
    ensures Going(ws + [w], high) == Going(ws, high) + if w.high == high then [w.who] else []
  {
    var one := if w.high == high then [w.who] else [];
    if ws == [] {
      assert ws + [w] == [w] && [w][1..] == [];
      assert Going([], high) + one == one;
    } else {
      var first := if ws[0].high == high then [ws[0].who] else [];
      var u := ws + [w];
      assert u[0] == ws[0] && u[1..] == ws[1..] + [w];
      GoingAppend(ws[1..], w, high);
      assert Going(u, high) == first + Going(u[1..], high);
      hide Going;
      assert first + (Going(ws[1..], high) + one) == first + Going(ws[1..], high) + one;
    }
  }

  lemma {:induction false} WokenPrefix<P>(ws: seq<Waiter<P>>, i: nat)
    requires i <= |ws|
    ensures |Woken(ws[..i])| <= |Woken(ws)|
  {
    WokenAppend(ws[..i], ws[i..]);
    assert ws == ws[..i] + ws[i..];
  }

  /** Who waits for something else than time, or is stopped in its sleep, is not touched by any number of alarms. */
  lemma {:induction false} Unaffected<P>(ws: seq<Waiter<P>>, arrivals: seq<seq<Waiter<P>>>, w: Waiter<P>, n: nat)
    requires w in ws && (w.left < 0 || (w.stopped && w.left > 0)) && n <= |arrivals|
    ensures w in After(ws, arrivals[..n])
    decreases n
  {
    if n > 0 {
      Unaffected(ws, arrivals, w, n - 1);
      AfterNext(ws, arrivals, n - 1);
      AlarmIs(After(ws, arrivals[..n - 1]), w);
    }
  }
}
