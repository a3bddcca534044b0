/** Timers over whole runs of the clock: what is put on the list for a number of ticks fires at
    that tick, whatever else is put on the list or taken off it meanwhile. */
module TimerRuns {
  import opened Common
  import opened DoubleLong
  import opened TimerSpec

  /** clock_int, hrt_timeout of some timer, and the removal of the k-th entry, by cancelling
      or by hrt_unsleep. `timers` are the timer records the tick finds. */
  datatype Event = Tick(timers: seq<Timer>) | Post(e: Entry) | Cancel(k: nat)

  /** The timers that fire at a tick. */
  function FiredAt(a: seq<Entry>): seq<nat>
  {
    Ids(a)[..DueCount(a)]
  }

  /** What the list stands for before and after one event. */
  ghost predicate Step(a: seq<Entry>, ev: Event, b: seq<Entry>, tick: nat)
  {
    match ev
    case Tick(timers) =>
      && Armed(a) && InRange(FiredAt(a), timers)
      && b == Rearmed(FiredAt(a), Advance(a)[DueCount(a)..], timers, tick)
    case Post(e) => e.due >= 1 && e.id !in Ids(a) && b == InsertDue(a, e)
    case Cancel(k) => k < |a| && b == DeleteAt(a, k)
  }

  ghost predicate Run(states: seq<seq<Entry>>, evs: seq<Event>, tick: nat)
  {
    |states| == |evs| + 1 && forall i :: 0 <= i < |evs| ==> Step(states[i], evs[i], states[i + 1], tick)
  }

  /** In firing order, nothing overdue, no timer twice. */
  ghost predicate Orderly(a: seq<Entry>)
  {
    Armed(a) && Sorted(a) && NoneTwice(Ids(a))
  }

  ghost predicate NoneTwice(ids: seq<nat>)
  {
    forall x :: multiset(ids)[x] <= 1
  }

  function Ticks(evs: seq<Event>): nat
  {
    if evs == [] then 0 else Ticks(evs[..|evs| - 1]) + if evs[|evs| - 1].Tick? then 1 else 0
  }

  /** No event takes timer `x` off the list but a tick. */
  predicate NeverCancelled(states: seq<seq<Entry>>, evs: seq<Event>, x: nat)
    requires |states| == |evs| + 1
  {
    forall i :: 0 <= i < |evs| && evs[i].Cancel? && evs[i].k < |states[i]| ==> states[i][evs[i].k].id != x
  }

  // ------------------------------------------------------------ the operations

  lemma IdsJoin(a: seq<Entry>, b: seq<Entry>)
    ensures multiset(Ids(a + b)) == multiset(Ids(a)) + multiset(Ids(b))
  {
    assert Ids(a + b) == Ids(a) + Ids(b);
  }

  lemma {:induction false} InsertIds(a: seq<Entry>, e: Entry)
    ensures multiset(Ids(InsertDue(a, e))) == multiset(Ids(a)) + multiset{e.id}
  {
    hide Ids;
    IdsJoin([e], a);
    IdsOne(e);
    if a != [] && e.due >= a[0].due {
      InsertIds(a[1..], e);
      IdsJoin([a[0]], InsertDue(a[1..], e));
      IdsJoin([a[0]], a[1..]);
      assert [a[0]] + a[1..] == a;
    } else if a == [] {
      assert InsertDue(a, e) == [e] + a;
    }
  }

  lemma IdsOne(e: Entry)
    ensures Ids([e]) == [e.id]
  {}

  lemma {:induction false} InsertHas(a: seq<Entry>, e: Entry)
    ensures forall x :: x in InsertDue(a, e) <==> x == e || x in a
  {
    if a != [] && e.due >= a[0].due {
      InsertHas(a[1..], e);
      assert a == [a[0]] + a[1..];
    }
  }

  lemma {:induction false} InsertSorted(a: seq<Entry>, e: Entry)
    requires Sorted(a)
    ensures Sorted(InsertDue(a, e))
  {
    if a != [] && e.due >= a[0].due {
      var r := InsertDue(a[1..], e);
      InsertSorted(a[1..], e);
      InsertHas(a[1..], e);
      forall j | 0 <= j < |r| ensures a[0].due <= r[j].due { assert r[j] in r; }
    }
  }

  lemma NoneTwiceWithin(a: seq<nat>, b: seq<nat>)
    requires NoneTwice(a) && multiset(b) <= multiset(a)
    ensures NoneTwice(b)
  {}

  lemma FreshOnce(ids: seq<nat>, x: nat, more: seq<nat>)
    requires NoneTwice(ids) && x !in ids && multiset(more) == multiset(ids) + multiset{x}
    ensures NoneTwice(more)
  {
    forall y ensures multiset(more)[y] <= 1 {
      if y == x { assert x !in multiset(ids); }
    }
  }

  lemma WithoutIds(a: seq<Entry>, k: nat)
    requires k < |a|
    ensures multiset(Ids(DeleteAt(a, k))) <= multiset(Ids(a))
  {
    hide Ids;
    IdsJoin(a[..k], a[k + 1..]);
    IdsJoin(a[..k], a[k..]);
    IdsJoin([a[k]], a[k + 1..]);
    assert a[..k] + a[k..] == a && [a[k]] + a[k + 1..] == a[k..];
  }

  lemma WithoutHas(a: seq<Entry>, k: nat, x: Entry)
    requires k < |a| && x in a && x.id != a[k].id
    ensures x in DeleteAt(a, k)
  {
    var i :| 0 <= i < |a| && a[i] == x;
    assert x == DeleteAt(a, k)[if i < k then i else i - 1];
  }

  lemma WithoutOrdered(a: seq<Entry>, k: nat)
    requires k < |a| && Armed(a) && Sorted(a)
    ensures Armed(DeleteAt(a, k)) && Sorted(DeleteAt(a, k))
  {
    assert forall i :: 0 <= i < |a| - 1 ==> DeleteAt(a, k)[i] == a[if i < k then i else i + 1];
  }

  lemma {:induction false} RearmedIds(fired: seq<nat>, a: seq<Entry>, timers: seq<Timer>, tick: nat)
    requires InRange(fired, timers)
    ensures multiset(Ids(Rearmed(fired, a, timers, tick))) <= multiset(Ids(a)) + multiset(fired)
  {
    hide Ids, InsertDue;
    if fired != [] {
      var n := |fired| - 1;
      RearmedIds(fired[..n], a, timers, tick);
      InsertIds(Rearmed(fired[..n], a, timers, tick), Entry(fired[n], Period(timers[fired[n]], tick)));
      assert fired == fired[..n] + [fired[n]];
    }
  }

  lemma {:induction false} RearmedHas(fired: seq<nat>, a: seq<Entry>, timers: seq<Timer>, tick: nat, x: Entry)
    requires InRange(fired, timers) && x in a
    ensures x in Rearmed(fired, a, timers, tick)
  {
    hide InsertDue;
    if fired != [] {
      var n := |fired| - 1;
      RearmedHas(fired[..n], a, timers, tick, x);
      InsertHas(Rearmed(fired[..n], a, timers, tick), Entry(fired[n], Period(timers[fired[n]], tick)));
    }
  }

  lemma {:induction false} RearmedSorted(fired: seq<nat>, a: seq<Entry>, timers: seq<Timer>, tick: nat)
    requires InRange(fired, timers) && Sorted(a)
    ensures Sorted(Rearmed(fired, a, timers, tick))
  {
    hide InsertDue, Sorted;
    if fired != [] {
      var n := |fired| - 1;
      RearmedSorted(fired[..n], a, timers, tick);
      InsertSorted(Rearmed(fired[..n], a, timers, tick), Entry(fired[n], Period(timers[fired[n]], tick)));
    }
  }

  /** The entries that do not fire, one tick later. */
  function Left(a: seq<Entry>): seq<Entry>
    requires Armed(a)
  {
    Advance(a)[DueCount(a)..]
  }

  lemma LeftOrdered(a: seq<Entry>)
    requires Armed(a) && Sorted(a)
    ensures Armed(Left(a)) && Sorted(Left(a)) && Ids(a) == FiredAt(a) + Ids(Left(a))
  {
    DueCountIsAll(a);
    assert forall k :: 0 <= k < |Left(a)| ==> Left(a)[k] == Entry(a[DueCount(a) + k].id, a[DueCount(a) + k].due - 1);
  }

  lemma LeftHas(a: seq<Entry>, x: Entry)
    requires Armed(a) && Sorted(a) && x in a && x.due > 1
    ensures Entry(x.id, x.due - 1) in Left(a)
  {
    DueCountIsAll(a);
    var i :| 0 <= i < |a| && a[i] == x;
    assert Left(a)[i - DueCount(a)] == Entry(x.id, x.due - 1);
  }

  lemma TickKeeps(a: seq<Entry>, timers: seq<Timer>, b: seq<Entry>, tick: nat)
    requires Orderly(a) && Step(a, Tick(timers), b, tick)
    ensures Orderly(b)
  {
    hide Ids, Armed, Sorted, Rearmed, NoneTwice, FiredAt;
    assert b == Rearmed(FiredAt(a), Left(a), timers, tick);
    LeftOrdered(a);
    RearmedIds(FiredAt(a), Left(a), timers, tick);
    RearmedSorted(FiredAt(a), Left(a), timers, tick);
    RearmedLater(FiredAt(a), Left(a), timers, tick);
    NoneTwiceWithin(Ids(a), Ids(b));
  }

  lemma TickHas(a: seq<Entry>, timers: seq<Timer>, b: seq<Entry>, tick: nat, x: Entry)
    requires Orderly(a) && Step(a, Tick(timers), b, tick) && x in a && x.due > 1
    ensures Entry(x.id, x.due - 1) in b
  {
    hide Ids, Armed, Sorted, Rearmed, NoneTwice, FiredAt;
    assert b == Rearmed(FiredAt(a), Left(a), timers, tick);
    LeftHas(a, x);
    RearmedHas(FiredAt(a), Left(a), timers, tick, Entry(x.id, x.due - 1));
  }

  lemma StepKeepsOrder(a: seq<Entry>, ev: Event, b: seq<Entry>, tick: nat)
    requires Orderly(a) && Step(a, ev, b, tick)
    ensures Orderly(b)
  {
    hide Ids, NoneTwice, Armed, Sorted, InsertDue, DeleteAt;
    match ev
    case Tick(timers) => TickKeeps(a, timers, b, tick);
    case Post(e) =>
      InsertIds(a, e);
      InsertSorted(a, e);
      InsertArmed(a, e);
      FreshOnce(Ids(a), e.id, Ids(b));
    case Cancel(k) =>
      WithoutIds(a, k);
      WithoutOrdered(a, k);
      NoneTwiceWithin(Ids(a), Ids(b));
  }

  /** Of an orderly list exactly the timers with one tick left fire. */
  lemma FiredIff(a: seq<Entry>, x: nat)
    requires Orderly(a)
    ensures x in FiredAt(a) <==> Entry(x, 1) in a
  {
    DueCountIsAll(a);
    if x in FiredAt(a) {
      var k :| 0 <= k < DueCount(a) && FiredAt(a)[k] == x;
      assert a[k] == Entry(x, 1);
    }
    if Entry(x, 1) in a {
      var k :| 0 <= k < |a| && a[k] == Entry(x, 1);
      assert FiredAt(a)[k] == x;
    }
  }

  lemma TwicePlaced(ids: seq<nat>, lo: nat, hi: nat)
    requires lo < hi < |ids| && ids[lo] == ids[hi]
    ensures multiset(ids)[ids[lo]] >= 2
  {
    var p, q := ids[..hi], ids[hi..];
    assert ids == p + q;
    assert p[lo] == ids[lo] && q[0] == ids[lo];
    assert ids[lo] in multiset(p) && ids[lo] in multiset(q);
  }

  /** A timer has one place on an orderly list. */
  lemma OnePlace(a: seq<Entry>, x: Entry, y: Entry)
    requires Orderly(a) && x in a && y in a && x.id == y.id
    ensures x == y
  {
    var i :| 0 <= i < |a| && a[i] == x;
    var j :| 0 <= j < |a| && a[j] == y;
    if i != j {
      var lo, hi := if i < j then i else j, if i < j then j else i;
      TwicePlaced(Ids(a), lo, hi);
    }
  }

  // ------------------------------------------------------------ whole runs

  lemma {:induction false} RunKeepsOrder(states: seq<seq<Entry>>, evs: seq<Event>, tick: nat, n: nat)
    requires Run(states, evs, tick) && Orderly(states[0]) && n < |states|
    ensures Orderly(states[n])
  {
    hide Orderly, Step;
    if n > 0 {
      RunKeepsOrder(states, evs, tick, n - 1);
      assert Step(states[n - 1], evs[n - 1], states[n - 1 + 1], tick);
      StepKeepsOrder(states[n - 1], evs[n - 1], states[n], tick);
    }
  }

  /** Until its time has come a timer is on the list, with the ticks that have passed taken off. */
  lemma {:induction false} CountsDown(states: seq<seq<Entry>>, evs: seq<Event>, tick: nat, e: Entry, n: nat)
    requires Run(states, evs, tick) && Orderly(states[0]) && n < |states|
    requires e in states[0] && NeverCancelled(states, evs, e.id) && Ticks(evs[..n]) < e.due
    ensures Entry(e.id, e.due - Ticks(evs[..n])) in states[n]
  {
    hide Orderly;
    if n > 0 {
      var m := n - 1;
      assert evs[..n][..m] == evs[..m];
      CountsDown(states, evs, tick, e, m);
      RunKeepsOrder(states, evs, tick, m);
      assert Step(states[m], evs[m], states[m + 1], tick);
      var at := Entry(e.id, e.due - Ticks(evs[..m]));
      match evs[m]
      case Tick(timers) => TickHas(states[m], timers, states[n], tick, at);
      case Post(x) => InsertHas(states[m], x);
      case Cancel(k) => WithoutHas(states[m], k, at);
    }
  }

  /** A timer fires at exactly the tick it was put on the list for, in every run in which it is
      not cancelled. */
  lemma FiresOnTime(states: seq<seq<Entry>>, evs: seq<Event>, tick: nat, e: Entry, n: nat)
    requires Run(states, evs, tick) && Orderly(states[0]) && n < |evs| && evs[n].Tick?
    requires e in states[0] && NeverCancelled(states, evs, e.id) && Ticks(evs[..n]) < e.due
    ensures e.id in FiredAt(states[n]) <==> Ticks(evs[..n]) + 1 == e.due
  {
    hide Orderly;
    CountsDown(states, evs, tick, e, n);
    RunKeepsOrder(states, evs, tick, n);
    FiredIff(states[n], e.id);
    if e.id in FiredAt(states[n]) {
      OnePlace(states[n], Entry(e.id, 1), Entry(e.id, e.due - Ticks(evs[..n])));
    }
  }

  // ------------------------------------------------------- repeating timers

  /** A new entry goes behind all those due no later, and in front of the others. */
  lemma {:induction false} InsertPlace(a: seq<Entry>, e: Entry) returns (k: nat)
    ensures k <= |a| && InsertDue(a, e) == a[..k] + [e] + a[k..]
    ensures (forall i :: 0 <= i < k ==> a[i].due <= e.due) && (k < |a| ==> a[k].due > e.due)
  {
    if a == [] || e.due < a[0].due {
      k := 0;
    } else {
      k := InsertPlace(a[1..], e);
      k := k + 1;
      assert a[..k] == [a[0]] + a[1..][..k - 1] && a[k..] == a[1..][k - 1..];
    }
  }

  predicate RepeatOf(fired: seq<nat>, timers: seq<Timer>, tick: nat, y: Entry)
    requires InRange(fired, timers)
  {
    exists k :: 0 <= k < |fired| && timers[fired[k]].interval != 0 && y == Entry(fired[k], Period(timers[fired[k]], tick))
  }

  lemma {:induction false} RearmedMembers(fired: seq<nat>, a: seq<Entry>, timers: seq<Timer>, tick: nat, y: Entry)
    requires InRange(fired, timers)
    ensures y in Rearmed(fired, a, timers, tick) <==> y in a || RepeatOf(fired, timers, tick, y)
  {
    hide InsertDue;
    if fired != [] {
      var n := |fired| - 1;
      var e := Entry(fired[n], Period(timers[fired[n]], tick));
      RearmedMembers(fired[..n], a, timers, tick, y);
      InsertHas(Rearmed(fired[..n], a, timers, tick), e);
      if RepeatOf(fired[..n], timers, tick, y) {
        var k :| 0 <= k < n && timers[fired[..n][k]].interval != 0 && y == Entry(fired[..n][k], Period(timers[fired[..n][k]], tick));
        assert fired[..n][k] == fired[k];
      }
      if RepeatOf(fired, timers, tick, y) {
        var k :| 0 <= k < |fired| && timers[fired[k]].interval != 0 && y == Entry(fired[k], Period(timers[fired[k]], tick));
        if k < n { assert fired[..n][k] == fired[k]; }
      }
    }
  }

  /** After a tick a timer that fired is on the list again for its next interval if it repeats, and gone if not. */
  lemma FiredAgain(a: seq<Entry>, timers: seq<Timer>, b: seq<Entry>, tick: nat, x: nat)
    requires Orderly(a) && Step(a, Tick(timers), b, tick) && x in FiredAt(a)
    ensures x < |timers|
    ensures timers[x].interval != 0 ==> Entry(x, Period(timers[x], tick)) in b
    ensures timers[x].interval == 0 ==> x !in Ids(b)
  {
    hide Armed, Sorted, Rearmed, NoneTwice, FiredAt;
    LeftOrdered(a);
    assert b == Rearmed(FiredAt(a), Left(a), timers, tick);
    var k :| 0 <= k < |FiredAt(a)| && FiredAt(a)[k] == x;
    if timers[x].interval != 0 {
      var e := Entry(x, Period(timers[x], tick));
      assert RepeatOf(FiredAt(a), timers, tick, e);
      RearmedMembers(FiredAt(a), Left(a), timers, tick, e);
    } else if x in Ids(b) {
      var j :| 0 <= j < |b| && b[j].id == x;
      RearmedMembers(FiredAt(a), Left(a), timers, tick, b[j]);
      assert b[j] in Left(a);
      StillLeft(a, b[j]);
    }
  }

  /** A timer that is left has not fired. */
  lemma StillLeft(a: seq<Entry>, e: Entry)
    requires Orderly(a) && e in Left(a)
    ensures e.id !in FiredAt(a)
  {
    LeftOrdered(a);
    if e.id in FiredAt(a) {
      var k :| 0 <= k < |FiredAt(a)| && FiredAt(a)[k] == e.id;
      var j :| 0 <= j < |Left(a)| && Left(a)[j] == e;
      assert Ids(a)[k] == Ids(a)[DueCount(a) + j] == e.id;
      TwicePlaced(Ids(a), k, DueCount(a) + j);
    }
  }

  /** How often timer `x` has fired. */
  function Firings(states: seq<seq<Entry>>, evs: seq<Event>, x: nat, n: nat): nat
    requires n <= |evs| && |states| == |evs| + 1
  {
    if n == 0 then 0
    else Firings(states, evs, x, n - 1) + if evs[n - 1].Tick? && x in FiredAt(states[n - 1]) then 1 else 0
  }

  /** Each tick finds the record of `x` as its firings have left it, `t` being the first. */
  ghost predicate Recorded(states: seq<seq<Entry>>, evs: seq<Event>, tick: U32, x: nat, t: Timer)
    requires |states| == |evs| + 1 && CarryOk(t, tick)
  {
    forall i :: 0 <= i < |evs| && evs[i].Tick? && x < |evs[i].timers| ==>
      var u := RearmTimes(t, tick, Firings(states, evs, x, i));
      evs[i].timers[x].interval == u.interval && evs[i].timers[x].rem == u.rem && evs[i].timers[x].crem == u.crem
  }

  lemma StepsOn(a: seq<Entry>, ev: Event, b: seq<Entry>, tick: nat, x: nat, due: nat, t: Timer)
    requires Orderly(a) && Step(a, ev, b, tick) && Entry(x, due) in a && t.interval != 0
    requires ev.Cancel? && ev.k < |a| ==> a[ev.k].id != x
    requires ev.Tick? && x < |ev.timers| ==>
               ev.timers[x].interval == t.interval && ev.timers[x].rem == t.rem && ev.timers[x].crem == t.crem
    ensures var now := due - (if ev.Tick? then 1 else 0) + (if ev.Tick? && x in FiredAt(a) then Period(t, tick) else 0);
            now >= 0 && Entry(x, now) in b
  {
    hide Orderly, FiredAt, Rearmed, InsertDue;
    var at := Entry(x, due);
    match ev {
      case Tick(timers) =>
        FiredIff(a, x);
        DueLater(a, due, x);
        if x in FiredAt(a) {
          FiredAgain(a, timers, b, tick, x);
          OnePlace(a, at, Entry(x, 1));
        } else {
          TickHas(a, timers, b, tick, at);
        }
      case Post(e) => InsertHas(a, e);
      case Cancel(k) => WithoutHas(a, k, at);
    }
  }

  /** A repeating timer is always on the list: for what is left of its first time and of the intervals
      for the firings it has had. */
  lemma {:induction false} StaysOn(states: seq<seq<Entry>>, evs: seq<Event>, tick: U32, x: nat, t: Timer, d: nat, n: nat)
    requires Run(states, evs, tick) && Orderly(states[0]) && n < |states| && Entry(x, d) in states[0] && t.interval != 0
    requires CarryOk(t, tick) && NeverCancelled(states, evs, x) && Recorded(states, evs, tick, x, t)
    ensures var due := d + TotalOf(t, tick, Firings(states, evs, x, n)) - Ticks(evs[..n]);
            due >= 1 && Entry(x, due) in states[n]
  {
    hide Orderly, FiredAt, Step, Period, RearmTimes;
    RunKeepsOrder(states, evs, tick, n);
    if n > 0 {
      var m := n - 1;
      assert evs[..n][..m] == evs[..m];
      StaysOn(states, evs, tick, x, t, d, m);
      RunKeepsOrder(states, evs, tick, m);
      assert Step(states[m], evs[m], states[m + 1], tick);
      var f := Firings(states, evs, x, m);
      StepsOn(states[m], evs[m], states[n], tick, x, d + TotalOf(t, tick, f) - Ticks(evs[..m]), RearmTimes(t, tick, f));
    }
    DueLater(states[n], d + TotalOf(t, tick, Firings(states, evs, x, n)) - Ticks(evs[..n]), x);
  }

  lemma DueLater(a: seq<Entry>, due: int, x: nat)
    requires Orderly(a) && due >= 0 && Entry(x, due) in a
    ensures due >= 1
  {
    var i :| 0 <= i < |a| && a[i] == Entry(x, due);
  }

  /** A repeating timer put on the list for `d` ticks fires for the (f+1)-th time at exactly tick
      d + f * hrt_int + floor(f * hrt_rem / tick), in every run in which it is not cancelled. */
  lemma RepeatsOnTime(states: seq<seq<Entry>>, evs: seq<Event>, tick: U32, x: nat, t: Timer, d: nat, n: nat)
    requires Run(states, evs, tick) && Orderly(states[0]) && n < |evs| && evs[n].Tick? && Entry(x, d) in states[0]
    requires t.interval != 0 && t.crem == 0 && CarryOk(t, tick) && NeverCancelled(states, evs, x) && Recorded(states, evs, tick, x, t)
    ensures var f := Firings(states, evs, x, n);
            tick > 0 && (x in FiredAt(states[n]) <==> Ticks(evs[..n]) + 1 == d + f * t.interval + f * t.rem / tick)
  {
    hide Orderly, FiredAt, TotalOf, RearmTimes, Firings, NeverCancelled, Recorded, Ticks, Step;
    var f := Firings(states, evs, x, n);
    StaysOn(states, evs, tick, x, t, d, n);
    RunKeepsOrder(states, evs, tick, n);
    NoDrift(t, tick, f);
    FiredIff(states[n], x);
    if x in FiredAt(states[n]) { OnePlace(states[n], Entry(x, 1), Entry(x, d + TotalOf(t, tick, f) - Ticks(evs[..n]))); }
  }
}

/** The correction hrt_timeout makes for the ticks that passed since its caller read the clock. */
module Deadlines {
  import opened TimerSpec
  import opened TimerRuns
  import opened TimerList
  import opened HrTime
  import opened DoubleLong

  lemma {:induction false} TicksSplit(evs: seq<Event>, j: nat)
    requires j <= |evs|
    ensures Ticks(evs) == Ticks(evs[..j]) + Ticks(evs[j..])
  {
    if j == |evs| {
      assert evs[..j] == evs;
    } else {
      var n := |evs| - 1;
      TicksSplit(evs[..n], j);
      assert evs[..n][..j] == evs[..j] && evs[j..][..n - j] == evs[..n][j..];
    }
  }

  lemma RunFrom(states: seq<seq<Entry>>, evs: seq<Event>, tick: nat, j: nat)
    requires Run(states, evs, tick) && j <= |evs|
    ensures Run(states[j..], evs[j..], tick)
  {
    hide Step;
    forall i | 0 <= i < |evs| - j ensures Step(states[j..][i], evs[j..][i], states[j..][i + 1], tick) {
      assert Step(states[j + i], evs[j + i], states[j + i + 1], tick);
    }
  }

  /** A timer asked for at the start of a run, for `time` ticks, and put on the list by its j-th event,
      fires at the tick at which `time` ticks have passed since it was asked for, and not before, unless
      it is cancelled; if they had passed when it was put on the list, at the first tick after that. */
  lemma FiresAtDeadline(states: seq<seq<Entry>>, evs: seq<Event>, tick: nat, base: U32, time: U32, x: nat, j: nat, n: nat)
    requires Run(states, evs, tick) && Orderly(states[0]) && base != 0 && time > 0
    requires j < n < |evs| && evs[n].Tick? && Ticks(evs[..j]) < W32
    requires evs[j] == Post(Entry(x, Adjusted(time, base, ToU32(base + Ticks(evs[..j])))))
    requires NeverCancelled(states[j + 1..], evs[j + 1..], x)
    requires Ticks(evs[..n]) < time || Ticks(evs[..n]) == Ticks(evs[..j])
    ensures x in FiredAt(states[n]) <==> Ticks(evs[..n]) + 1 == time || Ticks(evs[..j]) >= time
  {
    hide Orderly, Step, FiredAt, NeverCancelled;
    var late, m := Ticks(evs[..j]), j + 1;
    LateBy(time, base, late);
    RunKeepsOrder(states, evs, tick, m);
    RunFrom(states, evs, tick, m);
    assert Step(states[j], evs[j], states[j + 1], tick);
    var e := Entry(x, if late < time then time - late else 1);
    assert e in states[m] by { PostHas(states[j], e, states[m], tick); }
    assert evs[m..][..n - m] == evs[..n][m..];
    TicksSplit(evs[..n], m);
    assert evs[..n][..m] == evs[..m] && evs[..m][..j] == evs[..j];
    assert Ticks(evs[..m]) == late;
    FiresOnTime(states[m..], evs[m..], tick, e, n - m);
  }

  lemma PostHas(a: seq<Entry>, e: Entry, b: seq<Entry>, tick: nat)
    requires Step(a, Post(e), b, tick)
    ensures e in b
  {
    InsertHas(a, e);
  }
}
