/** How long a process runs before its quantum is used up, in either class. */
module Quanta {
  import opened SchedState
  import T = TsSpec
  import R = RtSpec

  lemma TsTickReady(s: Sched, p: nat)
    requires T.Ready(s, p)
    ensures T.Ready(T.Tick(s, p), p)
  {
    hide T.TabOk, T.EntryOk, T.MoveToUserPri;
    var ts := s.procs[p].cls.ts;
    if !ts.kpri && ts.timeleft - 1 == 0 {
      TableHolds(s, ts.cpupri);
      var next := T.NewUmdPri(ts.(timeleft := 0, cpupri := s.tsTab[ts.cpupri].tqexp), |s.tsTab|);
      T.MoveReady(s, p, next.(dispwait := 0), p);
    }
  }

  lemma TableHolds(s: Sched, i: int)
    requires T.TabOk(s.tsTab, |s.queues|) && 0 <= i < |s.tsTab|
    ensures 0 <= s.tsTab[i].tqexp < |s.tsTab|
  {}

  /** `n` clock ticks during which process `p` runs and nothing else happens. */
  ghost function TsTicks(s: Sched, p: nat, n: nat): (t: Sched)
    requires T.Ready(s, p)
    ensures T.Ready(t, p) && t.tsTab == s.tsTab && |t.procs| == |s.procs|
  {
    if n == 0 then s
    else
      var t := TsTicks(s, p, n - 1);
      TsTickReady(t, p);
      T.Tick(t, p)
  }

  /** A tick that leaves something of the quantum, and the tick that does not. */
  lemma TsCountsDown(s: Sched, p: nat)
    requires T.Ready(s, p) && !s.procs[p].cls.ts.kpri && s.procs[p].cls.ts.timeleft > 1
    ensures T.Tick(s, p) == Store(s, p, Left(s.procs[p], s.procs[p].cls.ts.timeleft - 1))
  {}

  ghost predicate Expired(s: Sched, p: nat, t: Sched)
    requires T.Ready(s, p) && T.Ready(t, p) && |t.procs| == |s.procs| && t.tsTab == s.tsTab
  {
    var ts, now := s.procs[p].cls.ts, t.procs[p].cls.ts;
    && 0 <= ts.cpupri < |s.tsTab| && 0 <= now.umdpri < |s.tsTab|
    && now.cpupri == s.tsTab[ts.cpupri].tqexp && now.dispwait == 0
    && t.procs[p].pri == s.tsTab[now.umdpri].globpri == t.curpri
    && (now.backq || OnQueue(s, p)) && t.runrun == s.runrun + 1
    && forall q :: 0 <= q < |s.procs| && q != p ==> t.procs[q] == s.procs[q]
  }

  lemma TsExpires(s: Sched, p: nat)
    requires T.Ready(s, p) && !s.procs[p].cls.ts.kpri && s.procs[p].cls.ts.timeleft == 1
    ensures T.Ready(T.Tick(s, p), p) && |T.Tick(s, p).procs| == |s.procs| && T.Tick(s, p).tsTab == s.tsTab
    ensures Expired(s, p, T.Tick(s, p))
  {
    TsTickReady(s, p);
  }

  function Left(v: Proc, n: int): Proc
    requires v.cls.Ts?
  {
    v.(cls := Ts(v.cls.ts.(timeleft := n)))
  }

  /** A user-mode process keeps its priority for as many ticks as it has left; the last of them
      takes it to the level its table entry names for expired quanta, and asks for preemption. */
  lemma {:induction false} TsQuantumLasts(s: Sched, p: nat, n: nat)
    requires T.Ready(s, p) && !s.procs[p].cls.ts.kpri && n <= s.procs[p].cls.ts.timeleft && n > 0
    ensures var ts := s.procs[p].cls.ts;
            var t := TsTicks(s, p, n);
            if n < ts.timeleft then t == Store(s, p, Left(s.procs[p], ts.timeleft - n))
            else Expired(s, p, t)
  {
    hide T.TabOk, T.EntryOk, T.Tick, T.TsOk;
    if n > 1 {
      TsQuantumLasts(s, p, n - 1);
    }
    var u := TsTicks(s, p, n - 1);
    assert TsTicks(s, p, n) == T.Tick(u, p);
    assert u.procs[p] == Left(s.procs[p], s.procs[p].cls.ts.timeleft - (n - 1)) && u.queues == s.queues;
    if u.procs[p].cls.ts.timeleft > 1 {
      TsCountsDown(u, p);
    } else {
      TsExpires(u, p);
    }
  }

  /** `n` ticks of a real-time process. */
  function RtTicks(s: Sched, p: nat, n: nat): (t: Sched)
    requires R.Ready(s, p)
    ensures R.Ready(t, p)
  {
    if n == 0 then s else R.Tick(RtTicks(s, p, n - 1), p)
  }

  /** A real-time process never loses its priority: it is asked to give way when its quantum is
      used up, at that tick and no sooner, and never when the quantum is infinite. */
  lemma {:induction false} RtQuantumLasts(s: Sched, p: nat, n: nat)
    requires R.Ready(s, p) && n > 0
    requires s.procs[p].cls.rt.pquantum != R.TQINF ==> n <= s.procs[p].cls.rt.timeleft
    ensures var rt := s.procs[p].cls.rt;
            var t := RtTicks(s, p, n);
            && t.procs[p].pri == s.procs[p].pri && t.queues == s.queues
            && (rt.pquantum == R.TQINF ==> t == s)
            && (rt.pquantum != R.TQINF ==>
                  t.procs[p].cls.rt.timeleft == rt.timeleft - n
                  && t.procs[p].cls.rt.pquantum == rt.pquantum
                  && if n < rt.timeleft then t.runrun == s.runrun && t.kprunrun == s.kprunrun && t.procs[p].cls.rt.backq == rt.backq
                     else t.runrun == s.runrun + 1 && t.kprunrun == s.kprunrun + 1 && t.procs[p].cls.rt.backq)
  {
    if n > 1 {
      RtQuantumLasts(s, p, n - 1);
    }
    assert RtTicks(s, p, n) == R.Tick(RtTicks(s, p, n - 1), p);
  }
}
