/** ts_update never leaves a waiting process behind for good. */
module TsStarvation {
  import opened Common
  import opened SchedState
  import opened Arith
  import T = TsSpec

  /** The part of a time-sharing process's record that ts_update ages. */
  datatype Aging = Aging(cpupri: int, upri: int, umdpri: int, dispwait: int)

  function AgingOf(v: Proc): Aging
    requires v.cls.Ts?
  {
    Aging(v.cls.ts.cpupri, v.cls.ts.upri, v.cls.ts.umdpri, v.cls.ts.dispwait)
  }

  /** One call of ts_update, for a process whose wait counts. */
  function Age(tab: seq<TsDpEnt>, a: Aging): Aging
    requires 0 <= a.umdpri < |tab| && 0 <= a.cpupri < |tab|
  {
    var w := T.ToShort(a.dispwait + 1);
    if w <= tab[a.umdpri].maxwait then a.(dispwait := w)
    else
      var ts := T.NewUmdPri(TsProc(0, tab[a.cpupri].lwait, 0, a.upri, 0, 0, false, false, false, 0), |tab|);
      Aging(ts.cpupri, a.upri, ts.umdpri, 0)
  }

  lemma UpdateOneLocal(s: Sched, p: nat, q: nat)
    requires T.Ready(s, p) && q < |s.procs|
    ensures var t := T.UpdateOne(s, p);
            && |t.procs| == |s.procs| && t.tsTab == s.tsTab
            && (q != p ==> t.procs[q] == s.procs[q])
            && (q == p && T.Waits(s.procs[p]) ==> t.procs[q].cls.Ts? && AgingOf(t.procs[q]) == Age(s.tsTab, AgingOf(s.procs[q])))
  {}

  /** The whole loop ages each listed process once, whatever the order. */
  lemma {:induction false} UpdateListAges(s: Sched, list: seq<nat>, p: nat)
    requires T.AllReady(s, list) && Distinct(list) && p < |s.procs|
    ensures var t := T.UpdateList(s, list);
            && |t.procs| == |s.procs|
            && (p !in list ==> t.procs[p] == s.procs[p])
            && (p in list && T.Waits(s.procs[p]) ==>
                  && T.Ready(s, p) && t.procs[p].cls.Ts?
                  && AgingOf(t.procs[p]) == Age(s.tsTab, AgingOf(s.procs[p])))
    decreases |list|
  {
    hide T.UpdateOne, Age, T.TabOk;
    if list != [] {
      assert T.Ready(s, list[0]);
      var t := T.UpdateOne(s, list[0]);
      UpdateOneLocal(s, list[0], p);
      forall k | 0 <= k < |list| ensures T.Ready(t, list[k]) {
        T.UpdateOneReady(s, list[0], list[k]);
      }
      assert forall k :: 0 <= k < |list[1..]| ==> list[1..][k] == list[k + 1];
      UpdateListAges(t, list[1..], p);
    }
  }

  /** Every entry below the top raises a process that waited too long, and no entry makes
      it wait more than `w` updates. The bound on `w` is what a 16-bit counter can pass. */
  predicate Climbs(tab: seq<TsDpEnt>, w: int)
  {
    && 0 <= w < 0x7fff && |tab| > 0
    && forall i :: 0 <= i < |tab| ==>
         tab[i].maxwait <= w && tab[i].lwait < |tab| && (i < |tab| - 1 ==> tab[i].lwait > i)
  }

  /** Updates still needed at most. */
  function Budget(tab: seq<TsDpEnt>, w: int, a: Aging): int
  {
    (|tab| - 1 - a.cpupri) * (w + 1) - (if a.dispwait < w then a.dispwait else w)
  }

  lemma AgeSpendsBudget(tab: seq<TsDpEnt>, w: int, a: Aging)
    requires Climbs(tab, w)
    requires 0 <= a.cpupri < |tab| - 1 && 0 <= a.umdpri < |tab| && 0 <= a.dispwait < 0x7fff
    ensures var b := Age(tab, a);
            && 0 <= b.cpupri < |tab| && 0 <= b.umdpri < |tab| && 0 <= b.dispwait < 0x7fff
            && 0 <= Budget(tab, w, b) < Budget(tab, w, a)
  {
    var b := Age(tab, a);
    var n := |tab| - 1;
    if b.cpupri == a.cpupri {
      MulLe(1, n - a.cpupri, w + 1);
    } else {
      MulLe(n - b.cpupri, n - a.cpupri - 1, w + 1);
      Distribute(w + 1, n - a.cpupri - 1, 1);
      MulLe(0, n - b.cpupri, w + 1);
    }
  }

  /** A process that ts_update sees waiting every time, with nothing else touching its
      record, is at the top within (number of levels below the top) * (w + 1) updates. */
  lemma {:induction false} ReachesTopFrom(tab: seq<TsDpEnt>, w: int, trail: seq<Aging>)
    requires Climbs(tab, w) && trail != []
    requires 0 <= trail[0].cpupri < |tab| && 0 <= trail[0].umdpri < |tab| && 0 <= trail[0].dispwait < 0x7fff
    requires forall i :: 0 <= i < |trail| - 1 && 0 <= trail[i].cpupri < |tab| && 0 <= trail[i].umdpri < |tab| ==>
               trail[i + 1] == Age(tab, trail[i])
    requires |trail| > Budget(tab, w, trail[0])
    ensures exists i :: 0 <= i < |trail| && i <= (if Budget(tab, w, trail[0]) < 0 then 0 else Budget(tab, w, trail[0]))
              && trail[i].cpupri == |tab| - 1
    decreases |trail|
  {
    hide Budget, Age;
    if trail[0].cpupri != |tab| - 1 {
      AgeSpendsBudget(tab, w, trail[0]);
      assert |trail| > 1;
      var rest := trail[1..];
      assert rest[0] == Age(tab, trail[0]);
      ReachesTopFrom(tab, w, rest);
      var i :| 0 <= i < |rest| && i <= (if Budget(tab, w, rest[0]) < 0 then 0 else Budget(tab, w, rest[0]))
               && rest[i].cpupri == |tab| - 1;
      assert trail[i + 1] == rest[i];
    }
  }

  /** `ss` are the states ts_update finds, one call after another; between two calls nothing
      changes what it ages in the record of `p`, and `p` waits in user mode throughout. */
  ghost predicate WaitsThroughout(ss: seq<Sched>, p: nat, tab: seq<TsDpEnt>)
  {
    forall i :: 0 <= i < |ss| ==>
      && ss[i].tsTab == tab && T.AllReady(ss[i], ss[i].tsList) && Distinct(ss[i].tsList)
      && p < |ss[i].procs| && p in ss[i].tsList && T.Waits(ss[i].procs[p])
      && (i + 1 < |ss| && p < |ss[i + 1].procs| && ss[i + 1].procs[p].cls.Ts? ==>
            var t := T.Update(ss[i]);
            p < |t.procs| && t.procs[p].cls.Ts? && AgingOf(ss[i + 1].procs[p]) == AgingOf(t.procs[p]))
  }

  /** No starvation: such a process reaches the highest level in bounded time. */
  lemma NoStarvation(ss: seq<Sched>, p: nat, tab: seq<TsDpEnt>, w: int)
    requires Climbs(tab, w) && WaitsThroughout(ss, p, tab)
    requires |ss| > (|tab| - 1) * (w + 1)
    requires p < |ss[0].procs| && ss[0].procs[p].cls.Ts? && 0 <= ss[0].procs[p].cls.ts.dispwait < 0x7fff
    ensures exists i :: 0 <= i <= (|tab| - 1) * (w + 1) && i < |ss| && p < |ss[i].procs|
              && ss[i].procs[p].cls.Ts? && ss[i].procs[p].cls.ts.cpupri == |tab| - 1
  {
    hide T.TabOk, Age, T.UpdateList;
    assert forall i :: 0 <= i < |ss| ==> T.Waits(ss[i].procs[p]);
    var trail := seq(|ss|, i requires 0 <= i < |ss| => AgingOf(ss[i].procs[p]));
    forall i | 0 <= i < |ss| - 1 ensures trail[i + 1] == Age(tab, trail[i]) {
      UpdateListAges(ss[i], ss[i].tsList, p);
    }
    InList(ss[0], p);
    BudgetBound(tab, w, trail[0]);
    ReachesTopFrom(tab, w, trail);
    var i :| 0 <= i < |trail| && i <= (if Budget(tab, w, trail[0]) < 0 then 0 else Budget(tab, w, trail[0]))
             && trail[i].cpupri == |tab| - 1;
    assert ss[i].procs[p].cls.ts.cpupri == |tab| - 1;
  }

  lemma InList(s: Sched, p: nat)
    requires T.AllReady(s, s.tsList) && p in s.tsList
    ensures T.Ready(s, p)
  {}

  lemma BudgetBound(tab: seq<TsDpEnt>, w: int, a: Aging)
    requires Climbs(tab, w) && 0 <= a.cpupri < |tab| && 0 <= a.dispwait
    ensures Budget(tab, w, a) <= (|tab| - 1) * (w + 1)
    ensures 0 <= (|tab| - 1) * (w + 1)
  {
    MulLe(|tab| - 1 - a.cpupri, |tab| - 1, w + 1);
  }

  /** The bound on `w` is needed: where ts_maxwait is the largest 16-bit value the counter
      wraps before it can pass it, and the process is never raised. */
  lemma {:induction false} NeverRaised(tab: seq<TsDpEnt>, trail: seq<Aging>, n: nat)
    requires n < |trail|
    requires 0 <= trail[0].umdpri < |tab| && 0 <= trail[0].cpupri < |tab|
    requires -0x8000 <= trail[0].dispwait < 0x8000
    requires tab[trail[0].umdpri].maxwait == 0x7fff
    requires forall i :: 0 <= i < |trail| - 1 && 0 <= trail[i].cpupri < |tab| && 0 <= trail[i].umdpri < |tab| ==>
               trail[i + 1] == Age(tab, trail[i])
    ensures trail[n].cpupri == trail[0].cpupri && trail[n].umdpri == trail[0].umdpri
  {
    if n > 0 {
      NeverRaised(tab, trail, n - 1);
      var i := n - 1;
      assert trail[i + 1] == Age(tab, trail[i]);
    }
  }

  // ------------------------------------------------- when nobody is left behind

  /** Every level below the top leads further up. */
  predicate Rising(tab: seq<TsDpEnt>)
  {
    && |tab| > 1
    && forall i :: 0 <= i < |tab| ==>
         && 0 <= tab[i].maxwait < 0x8000 && 0 <= tab[i].lwait < |tab|
         && (i < |tab| - 1 ==> tab[i].lwait > i)
  }

  predicate InRange(tab: seq<TsDpEnt>, a: Aging)
  {
    0 <= a.cpupri < |tab| && 0 <= a.umdpri < |tab| && -0x8000 <= a.dispwait < 0x8000
  }

  lemma AgeInRange(tab: seq<TsDpEnt>, a: Aging)
    requires Rising(tab) && InRange(tab, a)
    ensures InRange(tab, Age(tab, a))
  {}

  /** `n` calls of ts_update later. */
  ghost function AgedBy(tab: seq<TsDpEnt>, a: Aging, n: nat): Aging
    requires Rising(tab) && InRange(tab, a)
    decreases n
  {
    if n == 0 then a
    else
      AgeInRange(tab, a);
      AgedBy(tab, Age(tab, a), n - 1)
  }

  ghost predicate AtTopAfter(tab: seq<TsDpEnt>, a: Aging, n: nat)
    requires Rising(tab) && InRange(tab, a)
  {
    AgedBy(tab, a, n).cpupri == |tab| - 1
  }

  /** An upper bound on the calls still needed: the counter may have to come up from -2^15 first. */
  function CallsLeft(tab: seq<TsDpEnt>, a: Aging): int
  {
    (|tab| - 1 - a.cpupri) * 0x7fff + if a.dispwait == 0x7fff then 0x8001 else -a.dispwait
  }

  lemma AgeSpendsCall(tab: seq<TsDpEnt>, a: Aging)
    requires Rising(tab) && InRange(tab, a) && a.cpupri < |tab| - 1 && tab[a.umdpri].maxwait != 0x7fff
    ensures 0 < CallsLeft(tab, a) && CallsLeft(tab, Age(tab, a)) < CallsLeft(tab, a)
  {}

  lemma {:induction false} Rises(tab: seq<TsDpEnt>, a: Aging) returns (n: nat)
    requires Rising(tab) && InRange(tab, a)
    requires forall i :: 0 <= i < |tab| ==> tab[i].maxwait != 0x7fff
    ensures AtTopAfter(tab, a, n) && n <= if CallsLeft(tab, a) < 0 then 0 else CallsLeft(tab, a)
    decreases CallsLeft(tab, a)
  {
    hide Age, CallsLeft;
    if a.cpupri == |tab| - 1 {
      n := 0;
    } else {
      AgeInRange(tab, a);
      AgeSpendsCall(tab, a);
      n := Rises(tab, Age(tab, a));
      n := n + 1;
    }
  }

  /** With the largest value for ts_maxwait a process of that level stays where it is. */
  lemma {:induction false} Stays(tab: seq<TsDpEnt>, a: Aging, n: nat)
    requires Rising(tab) && InRange(tab, a) && tab[a.umdpri].maxwait == 0x7fff
    ensures AgedBy(tab, a, n).cpupri == a.cpupri
    decreases n
  {
    if n > 0 {
      AgeInRange(tab, a);
      Stays(tab, Age(tab, a), n - 1);
    }
  }

  /** Whatever its record, a process that waits long enough is at the top within `bound` calls. */
  ghost predicate NobodyLeft(tab: seq<TsDpEnt>, bound: nat)
    requires Rising(tab)
  {
    forall a :: InRange(tab, a) ==> exists n: nat :: n <= bound && AtTopAfter(tab, a, n)
  }

  /** That is so if and only if no ts_maxwait is 0x7fff, and then within a bound that depends on
      the number of levels alone; otherwise within no bound. */
  lemma NobodyLeftIff(tab: seq<TsDpEnt>, bound: nat)
    requires Rising(tab) && bound >= (|tab| - 1) * 0x7fff + 0x8001
    ensures NobodyLeft(tab, bound) <==> forall i :: 0 <= i < |tab| ==> tab[i].maxwait != 0x7fff
  {
    if forall i :: 0 <= i < |tab| ==> tab[i].maxwait != 0x7fff {
      forall a | InRange(tab, a) ensures exists n: nat :: n <= bound && AtTopAfter(tab, a, n) {
        var n := Rises(tab, a);
        assert n <= bound && AtTopAfter(tab, a, n);
      }
    } else {
      var i :| 0 <= i < |tab| && tab[i].maxwait == 0x7fff;
      var a := Aging(0, i, i, 0);
      forall n: nat ensures !AtTopAfter(tab, a, n) { Stays(tab, a, n); }
      assert InRange(tab, a);
    }
  }
}
