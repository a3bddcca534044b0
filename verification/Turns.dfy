/** Who runs next: where each class function puts a process on the queues, read off the queues
    themselves, and what that means for the process pswtch picks. */
module Turns {
  import opened Common
  import opened SchedState
  import opened SchedInv
  import opened SchedRuns
  import opened Dispatcher
  import T = TsSpec
  import R = RtSpec

  /** Where a process stands on the queue of its priority. */
  datatype Place = First | Last | Nowhere

  /** `q` without `p`, the others in order. */
  function Others(q: seq<nat>, p: nat): seq<nat>
  {
    Keeping(q, (x: nat) => x != p)
  }

  /** The queue `q` of priority `i` after `p`, of priority `pri` now, has been placed. */
  function Placing(q: seq<nat>, i: nat, p: nat, pri: nat, place: Place): seq<nat>
  {
    if i != pri || place.Nowhere? then Others(q, p)
    else if place.First? then [p] + Others(q, p)
    else Others(q, p) + [p]
  }

  /** From `s` to `t` only process `p` has changed: its record, and where it stands. */
  ghost predicate Moved(s: Sched, t: Sched, p: nat, place: Place)
  {
    && p < |s.procs| == |t.procs| && |t.queues| == |s.queues|
    && (forall q :: 0 <= q < |s.procs| && q != p ==> t.procs[q] == s.procs[q])
    && forall i :: 0 <= i < |s.queues| ==> t.queues[i] == Placing(s.queues[i], i, p, t.procs[p].pri, place)
  }

  lemma {:induction false} OthersAll(q: seq<nat>, p: nat)
    requires p !in q
    ensures Others(q, p) == q
  {
    if q != [] {
      OthersAll(q[1..], p);
      assert q == [q[0]] + q[1..];
    }
  }

  lemma {:induction false} OthersIsRemove(q: seq<nat>, p: nat)
    requires Distinct(q)
    ensures Others(q, p) == Remove(q, p)
  {
    if q != [] {
      if q[0] == p {
        OthersAll(q[1..], p);
      } else {
        OthersIsRemove(q[1..], p);
      }
    }
  }

  /** A process on no queue has been given the record `v` and placed. */
  lemma PlacedNew(s: Sched, p: nat, v: Proc, place: Place, t: Sched)
    requires p < |s.procs| && v.pri < |s.queues| && forall i :: 0 <= i < |s.queues| ==> p !in s.queues[i]
    requires t.procs == s.procs[p := v]
    requires t.queues == match place
                         case Nowhere => s.queues
                         case First => s.queues[v.pri := [p] + s.queues[v.pri]]
                         case Last => s.queues[v.pri := s.queues[v.pri] + [p]]
    ensures Moved(s, t, p, place)
  {
    forall i | 0 <= i < |s.queues| ensures t.queues[i] == Placing(s.queues[i], i, p, v.pri, place) {
      OthersAll(s.queues[i], p);
    }
  }

  /** No queue holds a process that is not queued. */
  lemma NotOnAny(s: Sched, p: nat)
    requires QueuesMatch(s.procs, s.queues) && p < |s.procs| && !OnQueue(s, p)
    ensures forall i :: 0 <= i < |s.queues| ==> p !in s.queues[i]
  {
    forall i | 0 <= i < |s.queues| ensures p !in s.queues[i] {
      assert QueueMatches(s.procs, s.queues[i], i);
    }
  }

  // ------------------------------------------------------------- giving way

  /** Does the process go behind the others of its priority when it gives way? A time-sharing
      process marked TSBACKQ does, but not at a kernel priority after a fork. */
  predicate GoesBack(v: Proc)
  {
    match v.cls
    case Sys => false
    case Ts(ts) => ts.backq && !(ts.kpri && ts.fork)
    case Rt(rt) => rt.backq
  }

  /** What is left of the process's quantum when it gives way, `full` being a fresh one. */
  predicate QuantumAfter(v: Proc, w: Proc, full: int)
  {
    match v.cls
    case Sys => w == v
    case Ts(ts) =>
      && w.cls.Ts? && w == v.(cls := w.cls)
      && w.cls.ts.timeleft == (if ts.backq && !ts.kpri && !ts.fork then full else ts.timeleft)
      && w.cls.ts.dispwait == (if ts.backq && !ts.kpri then 0 else ts.dispwait)
      && w.cls.ts.backq == (ts.backq && ts.kpri && ts.fork)
      && w.cls.ts.fork == (ts.fork && (ts.kpri || !ts.backq))
      && w.cls.ts == ts.(timeleft := w.cls.ts.timeleft, dispwait := w.cls.ts.dispwait, backq := w.cls.ts.backq, fork := w.cls.ts.fork)
    case Rt(rt) =>
      && w.cls.Rt? && w == v.(cls := w.cls)
      && w.cls.rt == rt.(timeleft := if rt.backq then rt.pquantum else rt.timeleft, ran := true, backq := false)
  }

  /** Giving way puts the process last on the queue of its priority or first, the others keeping
      their order; a time-sharing process gets a fresh quantum exactly in user mode and not after a fork. */
  lemma GivesPlace(c: Config, s: Sched)
    requires Inv(c, s) && Running(s)
    ensures var t, v := Next(c, s, Event.Preempt), s.procs[s.cur];
            && Moved(s, t, s.cur, if GoesBack(v) then Last else First)
            && (v.cls.Ts? ==> 0 <= v.cls.ts.umdpri < |s.tsTab|)
            && QuantumAfter(v, t.procs[s.cur], if v.cls.Ts? then s.tsTab[v.cls.ts.umdpri].quantum else 0)
            && t == s.(procs := t.procs, queues := t.queues)
  {
    hide QueuesMatch, Good, ListOk;
    var p := s.cur;
    At(c, s, p);
    NotOnAny(s, p);
    var t := Next(c, s, Event.Preempt);
    PlacedNew(s, p, t.procs[p], if GoesBack(s.procs[p]) then Last else First, t);
  }

  /** Process `p` is the one on the processor. */
  predicate Runs(s: Sched, p: nat)
  {
    p < |s.procs| && s.cur == p && s.procs[p].stat == SOnProc
  }

  /** Among the queued processes that may run none is better than one of priority `pri`; none of
      its own priority either if `alone`. */
  ghost predicate NoneBetter(s: Sched, pri: nat, alone: bool)
  {
    forall q :: 0 <= q < |s.procs| && Runnable(s, q) ==> s.procs[q].pri < pri || (s.procs[q].pri == pri && !alone)
  }

  /** The process that gives way goes on running if and only if it may run and no other that may has a
      higher priority, nor the same one if it went to the back. If not, the best of the others runs. */
  lemma GiveWay(c: Config, s: Sched)
    requires Inv(c, s) && Running(s)
    ensures var t, v := Next(c, s, Event.Preempt), s.procs[s.cur];
            && Inv(c, t) && Enabled(c, t, Swtch)
            && var u := Next(c, t, Swtch);
               && (Runs(u, s.cur) <==> Schedulable(v) && NoneBetter(s, v.pri, GoesBack(v)))
               && (!Runs(u, s.cur) && SomeRunnable(s) ==> Best(s, u.cur))
  {
    hide QueuesMatch, Good, ListOk, Next, Inv, GoesBack, Best, NoneBetter, SomeRunnable, QuantumAfter, Moved, AfterGiving;
    var p, t, back := s.cur, Next(c, s, Event.Preempt), GoesBack(s.procs[s.cur]);
    StepKeepsInv(c, s, Event.Preempt);
    QueuesAfter(c, s);
    SwtchPicksBest(c, t);
    SwtchRuns(c, t, p);
    SomeAfter(s, t, p, back);
    if SomeRunnable(t) { BestAfter(s, t, p, back, Next(c, t, Swtch).cur); }
  }

  /** `t` is `s` with `p`, which was on no queue, last or first on the queue of its priority. */
  ghost predicate AfterGiving(s: Sched, t: Sched, p: nat, back: bool)
  {
    && p < |s.procs| == |t.procs| && s.procs[p].pri < |s.queues|
    && (forall q :: 0 <= q < |s.procs| ==> t.procs[q].pri == s.procs[q].pri && Schedulable(t.procs[q]) == Schedulable(s.procs[q]))
    && (forall i :: 0 <= i < |s.queues| ==> p !in s.queues[i])
    && var q := s.queues[s.procs[p].pri];
       t.queues == s.queues[s.procs[p].pri := if back then q + [p] else [p] + q]
  }

  lemma QueuesAfter(c: Config, s: Sched)
    requires Inv(c, s) && Running(s)
    ensures var t := Next(c, s, Event.Preempt);
            AfterGiving(s, t, s.cur, GoesBack(s.procs[s.cur])) && t.cur == s.cur && Enabled(c, t, Swtch)
  {
    hide QueuesMatch, Good, ListOk, Next, GoesBack;
    GivesPlace(c, s);
    At(c, s, s.cur);
    NotOnAny(s, s.cur);
    forall i | 0 <= i < |s.queues| ensures Others(s.queues[i], s.cur) == s.queues[i] {
      OthersAll(s.queues[i], s.cur);
    }
  }

  lemma RunnableAfter(s: Sched, t: Sched, p: nat, back: bool, q: nat)
    requires AfterGiving(s, t, p, back)
    ensures Runnable(t, q) <==> Runnable(s, q) || (q == p && Schedulable(s.procs[p]))
    ensures Runnable(s, q) ==> q != p
  {}

  lemma SomeAfter(s: Sched, t: Sched, p: nat, back: bool)
    requires AfterGiving(s, t, p, back)
    ensures SomeRunnable(t) <==> SomeRunnable(s) || Schedulable(s.procs[p])
  {
    RunnableAfter(s, t, p, back, p);
    if q: nat :| q < |s.procs| && Runnable(s, q) { RunnableAfter(s, t, p, back, q); }
    if q: nat :| q < |s.procs| && Runnable(t, q) { RunnableAfter(s, t, p, back, q); }
  }

  /** pswtch puts somebody on the processor exactly when somebody may run. */
  lemma SwtchRuns(c: Config, t: Sched, p: nat)
    requires Inv(c, t) && Enabled(c, t, Swtch) && p < |t.procs|
    ensures Runs(Next(c, t, Swtch), p) <==> SomeRunnable(t) && p == Next(c, t, Swtch).cur
  {
    hide QueuesMatch, ListOk, SomeRunnable;
    At(c, t, t.cur);
    At(c, t, p);
    var v := if t.procs[t.cur].stat == SOnProc then SetStat(t, t.cur, SRun) else t;
    StatKeepsQueues(t, t.cur, v);
    SameBest(t, v);
    SomeRunnableIff(v);
    SwtchPicksBest(c, t);
  }

  /** The best process once `p` has been put on its queue. */
  lemma BestAfter(s: Sched, t: Sched, p: nat, back: bool, x: nat)
    requires AfterGiving(s, t, p, back) && Best(t, x)
    ensures x == p <==> Schedulable(s.procs[p]) && NoneBetter(s, s.procs[p].pri, back)
    ensures x != p ==> Best(s, x)
  {
    forall q: nat | true
      ensures Runnable(t, q) <==> Runnable(s, q) || (q == p && Schedulable(s.procs[p]))
      ensures Runnable(s, q) ==> q != p
    {
      RunnableAfter(s, t, p, back, q);
    }
    var i := s.procs[x].pri;
    var k :| 0 <= k < |t.queues[i]| && t.queues[i][k] == x && forall j :: 0 <= j < k ==> !Runnable(t, t.queues[i][j]);
    if x != p {
      var m := if i == s.procs[p].pri && !back then k - 1 else k;
      assert 0 <= m < |s.queues[i]| && s.queues[i][m] == x;
      forall j | 0 <= j < m ensures !Runnable(s, s.queues[i][j]) {
        assert s.queues[i][j] == t.queues[i][if m < k then j + 1 else j];
      }
    }
  }

  /** pswtch takes the process it picks off its queue, leaves the others in their order, and drops every
      request for preemption; with nobody to pick it leaves the queues and the requests alone. */
  lemma SwtchLeaves(c: Config, s: Sched)
    requires Inv(c, s) && Enabled(c, s, Swtch)
    ensures var t, some := Next(c, s, Swtch), SomeRunnable(s);
            && |t.queues| == |s.queues| && |t.procs| == |s.procs|
            && (forall i :: 0 <= i < |s.queues| ==> t.queues[i] == if some then Others(s.queues[i], t.cur) else s.queues[i])
            && (forall q :: 0 <= q < |s.procs| ==> t.procs[q] == s.procs[q].(stat := t.procs[q].stat))
            && t == s.(procs := t.procs, queues := t.queues, cur := t.cur, curpri := t.curpri,
                       runrun := if some then 0 else s.runrun, kprunrun := if some then 0 else s.kprunrun,
                       npwakecnt := if some then 0 else s.npwakecnt)
  {
    hide QueuesMatch, ListOk, SomeRunnable, Best, NextToRun, MaxRunPri, Others, Remove;
    At(c, s, s.cur);
    var u := if s.procs[s.cur].stat == SOnProc then SetStat(s, s.cur, SRun) else s;
    StatKeepsQueues(s, s.cur, u);
    SameBest(s, u);
    SomeRunnableIff(u);
    if MaxRunPri(u) != -1 {
      NextIsQueued(u);
      var p := NextToRun(u);
      forall i | 0 <= i < |s.queues| ensures Others(s.queues[i], p) == if i == u.procs[p].pri then Remove(s.queues[i], p) else s.queues[i] {
        OthersOf(u, i, p);
      }
    }
  }

  /** A queued process is on the queue of its priority and on no other. */
  lemma OthersOf(s: Sched, i: nat, p: nat)
    requires QueuesMatch(s.procs, s.queues) && i < |s.queues| && p < |s.procs|
    ensures Others(s.queues[i], p) == if i == s.procs[p].pri then Remove(s.queues[i], p) else s.queues[i]
  {
    assert QueueMatches(s.procs, s.queues[i], i);
    OthersIsRemove(s.queues[i], p);
    if i != s.procs[p].pri { OthersAll(s.queues[i], p); }
  }

  // ------------------------------------------------- sleeping and waking up

  /** A class record made ready to run: the marks are off, and the quantum is fresh for a real-time
      process always, and for a time-sharing one if `fresh_`. */
  predicate ReadyRecord(v: Proc, w: Proc, full: int, fresh_: bool)
  {
    && w == v.(stat := SRun, cls := w.cls)
    && match v.cls
       case Sys => w.cls.Sys?
       case Ts(ts) =>
         w.cls == Ts(ts.(timeleft := if fresh_ then full else ts.timeleft, dispwait := if fresh_ then 0 else ts.dispwait,
                         backq := false, fork := false))
       case Rt(rt) => w.cls == Rt(rt.(timeleft := rt.pquantum, backq := false))
  }

  /** A process woken up joins the end of the queue of the priority it slept at. A loaded one of higher
      priority than the current asks for preemption unless told not to; a real-time one asks for it in
      the kernel too, whatever it was told. */
  lemma WakesPlace(c: Config, s: Sched, p: nat, noprmpt: bool)
    requires Inv(c, s) && Enabled(c, s, Event.Wakeup(p, noprmpt))
    ensures var t, v := Next(c, s, Event.Wakeup(p, noprmpt)), s.procs[p];
            var better := v.pri > s.curpri;
            && Moved(s, t, p, Last) && ReadyRecord(v, t.procs[p], 0, false)
            && t.kprunrun == (if v.cls.Rt? && better then s.kprunrun + 1 else s.kprunrun)
            && t.runrun == (if !better then s.runrun else if v.load && !noprmpt then 1 else if v.cls.Rt? then s.runrun + 1 else s.runrun)
            && t.npwakecnt == (if noprmpt then s.npwakecnt + 1 else s.npwakecnt)
            && t == s.(procs := t.procs, queues := t.queues, runrun := t.runrun, kprunrun := t.kprunrun, npwakecnt := t.npwakecnt)
  {
    hide QueuesMatch, Good, ListOk, MaxRunPri, Moved;
    At(c, s, p);
    NotOnAny(s, p);
    var t := Next(c, s, Event.Wakeup(p, noprmpt));
    PlacedNew(s, p, t.procs[p], Last, t);
  }

  /** So does one made runnable, with a fresh quantum unless it is at a kernel priority. */
  lemma RunnablePlace(c: Config, s: Sched, p: nat)
    requires Inv(c, s) && Enabled(c, s, Event.SetRun(p))
    ensures var t, v := Next(c, s, Event.SetRun(p)), s.procs[p];
            var better := v.pri > s.curpri;
            && Moved(s, t, p, Last)
            && (v.cls.Ts? ==> 0 <= v.cls.ts.umdpri < |s.tsTab|)
            && ReadyRecord(v, t.procs[p], if v.cls.Ts? then s.tsTab[v.cls.ts.umdpri].quantum else 0, v.cls.Ts? && !v.cls.ts.kpri)
            && t.kprunrun == (if v.cls.Rt? && better then s.kprunrun + 1 else s.kprunrun)
            && t.runrun == (if !better then s.runrun else if v.load then 1 else if v.cls.Rt? then s.runrun + 1 else s.runrun)
            && t == s.(procs := t.procs, queues := t.queues, runrun := t.runrun, kprunrun := t.kprunrun)
  {
    hide QueuesMatch, Good, ListOk, MaxRunPri, Moved;
    At(c, s, p);
    NotOnAny(s, p);
    var t := Next(c, s, Event.SetRun(p));
    PlacedNew(s, p, t.procs[p], Last, t);
  }

  /** A process that goes to sleep is on no queue; a time-sharing or system process takes the kernel
      priority it was given, a real-time one keeps its own. */
  lemma SleepsOff(c: Config, s: Sched, kpri: nat)
    requires Inv(c, s) && Enabled(c, s, Event.Sleep(kpri))
    ensures var t, v := Next(c, s, Event.Sleep(kpri)), s.procs[s.cur];
            var w := t.procs[s.cur];
            && Moved(s, t, s.cur, Nowhere) && w.stat == SSleep
            && w.pri == (if v.cls.Rt? then v.pri else kpri)
            && w.cls == (match v.cls case Sys => Sys case Ts(ts) => Ts(ts.(kpri := true)) case Rt(rt) => Rt(rt.(ran := true)))
            && t == s.(procs := t.procs) && w == v.(stat := SSleep, pri := w.pri, cls := w.cls)
  {
    hide QueuesMatch, Good, ListOk;
    At(c, s, s.cur);
    NotOnAny(s, s.cur);
    StatKeepsQueues'(s, s.cur, SSleep);
    var t := Next(c, s, Event.Sleep(kpri));
    PlacedNew(s, s.cur, t.procs[s.cur], Nowhere, t);
  }

  /** `u` limited to the levels of a table of `n`. */
  function Clamp(u: int, n: nat): int
  {
    if u < 0 then 0 else if u >= n then n - 1 else u
  }

  /** The user-mode priority is cpupri + upri, limited to the table, as long as the sum fits a short. */
  lemma UmdPriIsSum(ts: TsProc, n: nat)
    requires n > 0 && -0x8000 <= ts.cpupri + ts.upri < 0x8000
    ensures T.NewUmdPri(ts, n) == ts.(umdpri := Clamp(ts.cpupri + ts.upri, n))
  {}

  // ---------------------------------------------------- changing priority

  /** A process taken off its queue, given the record `v`, and put at the end of its new one. */
  lemma PlacedAgain(s: Sched, p: nat, v: Proc, t: Sched)
    requires QueuesMatch(s.procs, s.queues) && OnQueue(s, p) && v.pri < |s.queues|
    requires var u := DispDeq(s, p);
             t.procs == s.procs[p := v] && t.queues == u.queues[v.pri := u.queues[v.pri] + [p]]
    ensures Moved(s, t, p, Last)
  {
    hide QueuesMatch;
    forall i | 0 <= i < |s.queues| ensures Others(s.queues[i], p) == if i == s.procs[p].pri then Remove(s.queues[i], p) else s.queues[i] {
      OthersOf(s, i, p);
    }
  }

  /** Moving to the priority of one's level: a queued process goes to the end of its new queue with a
      fresh quantum, another is marked to go there. */
  lemma MovesUser(s: Sched, p: nat, ts: TsProc)
    requires QueuesMatch(s.procs, s.queues) && T.TabOk(s.tsTab, |s.queues|) && 0 <= ts.umdpri < |s.tsTab|
    requires p < |s.procs| && s.procs[p].pri < |s.queues|
    ensures var t, e := T.MoveToUserPri(s, p, ts), s.tsTab[ts.umdpri];
            && Moved(s, t, p, if OnQueue(s, p) then Last else Nowhere)
            && t.procs[p] == s.procs[p].(pri := e.globpri,
                 cls := Ts(if OnQueue(s, p) then ts.(timeleft := e.quantum) else ts.(backq := true)))
            && t == s.(procs := t.procs, queues := t.queues)
  {
    hide QueuesMatch, T.EntryOk;
    var t := T.MoveToUserPri(s, p, ts);
    if OnQueue(s, p) {
      PlacedAgain(s, p, t.procs[p], t);
    } else {
      NotOnAny(s, p);
      RemoveAbsent(s.queues[s.procs[p].pri], p);
      PlacedNew(s, p, t.procs[p], Nowhere, t);
    }
  }

  lemma MovesLevel(s: Sched, p: nat, pri: nat, queued: RtProc, unqueued: RtProc)
    requires QueuesMatch(s.procs, s.queues) && p < |s.procs| && s.procs[p].pri < |s.queues| && pri < |s.queues|
    ensures var t, asks := R.MoveToLevel(s, p, pri, queued, unqueued), OnQueue(s, p) && pri > s.curpri;
            && Moved(s, t, p, if OnQueue(s, p) then Last else Nowhere)
            && t.procs[p] == s.procs[p].(pri := pri, cls := Rt(if OnQueue(s, p) then queued else unqueued))
            && t.runrun == (if asks then s.runrun + 1 else s.runrun) && t.kprunrun == (if asks then s.kprunrun + 1 else s.kprunrun)
            && t == s.(procs := t.procs, queues := t.queues, runrun := t.runrun, kprunrun := t.kprunrun)
  {
    hide QueuesMatch;
    var t := R.MoveToLevel(s, p, pri, queued, unqueued);
    if OnQueue(s, p) {
      PlacedAgain(s, p, t.procs[p], t);
    } else {
      NotOnAny(s, p);
      RemoveAbsent(s.queues[s.procs[p].pri], p);
      PlacedNew(s, p, t.procs[p], Nowhere, t);
    }
  }

  /** The level of a time-sharing record whose sum of cpupri and upri fits a short. */
  function LevelOf(cpupri: int, upri: int, n: nat): int
  {
    Clamp(T.ToShort(cpupri + upri), n)
  }

  /** What the end of a quantum, a wait that is too long and a return to user mode make of a process:
      its cpupri is `next`, its level the one of that and its upri, its wait begins anew. */
  predicate NewLevel(s: Sched, v: Proc, w: Proc, next: int)
    requires v.cls.Ts?
  {
    var u := LevelOf(next, v.cls.ts.upri, |s.tsTab|);
    && 0 <= u < |s.tsTab| && w.pri == s.tsTab[u].globpri
    && w.cls.Ts? && w.cls.ts.cpupri == next && w.cls.ts.umdpri == u && w.cls.ts.dispwait == 0 && !w.cls.ts.kpri
    && w.cls.ts == v.cls.ts.(cpupri := next, umdpri := u, dispwait := 0, kpri := false,
                             timeleft := w.cls.ts.timeleft, backq := w.cls.ts.backq)
    && w == v.(pri := w.pri, cls := w.cls)
  }

  /** A process that is moved to a new level: at the end of the queue if it is queued, with a fresh
      quantum, and otherwise marked to go there, with `left` of its old one. */
  ghost predicate Sent(s: Sched, t: Sched, p: nat, next: int, left: int)
    requires p < |s.procs| && s.procs[p].cls.Ts?
  {
    var queued := OnQueue(s, p);
    && Moved(s, t, p, if queued then Last else Nowhere)
    && NewLevel(s, s.procs[p], t.procs[p], next)
    && 0 <= t.procs[p].cls.ts.umdpri < |s.tsTab|
    && t.procs[p].cls.ts.timeleft == (if queued then s.tsTab[t.procs[p].cls.ts.umdpri].quantum else left)
    && t.procs[p].cls.ts.backq == (s.procs[p].cls.ts.backq || !queued)
  }

  /** A move that goes with a change of `curpri` and `runrun`. */
  lemma SendsUser(s: Sched, p: nat, ts: TsProc, next: int, t: Sched)
    requires QueuesMatch(s.procs, s.queues) && T.TabOk(s.tsTab, |s.queues|) && 0 <= next < |s.tsTab|
    requires p < |s.procs| && s.procs[p].pri < |s.queues| && s.procs[p].cls.Ts? && !s.procs[p].cls.ts.kpri
    requires ts == T.NewUmdPri(s.procs[p].cls.ts.(timeleft := ts.timeleft, dispwait := ts.dispwait, cpupri := next), |s.tsTab|)
    requires t.procs == T.MoveToUserPri(s, p, ts.(dispwait := 0)).procs && t.queues == T.MoveToUserPri(s, p, ts.(dispwait := 0)).queues
    ensures Sent(s, t, p, next, ts.timeleft)
  {
    hide QueuesMatch, T.MoveToUserPri, Placing, T.EntryOk;
    MovesUser(s, p, ts.(dispwait := 0));
  }

  /** The last tick of a quantum takes the running process to the level ts_tqexp names, off the
      processor at the next chance and then behind the others of its new priority. */
  lemma QuantumOver(c: Config, s: Sched)
    requires Inv(c, s) && Enabled(c, s, ClockTick) && s.procs[s.cur].cls.Ts?
    requires !s.procs[s.cur].cls.ts.kpri && s.procs[s.cur].cls.ts.timeleft == 1
    ensures var t, v := Next(c, s, ClockTick), s.procs[s.cur];
            && 0 <= v.cls.ts.cpupri < |s.tsTab| && Sent(s, t, s.cur, s.tsTab[v.cls.ts.cpupri].tqexp, 0)
            && t == s.(procs := t.procs, queues := t.queues, curpri := t.procs[s.cur].pri, runrun := s.runrun + 1)
  {
    hide QueuesMatch, Good, ListOk, T.MoveToUserPri, Sent;
    var p, ts := s.cur, s.procs[s.cur].cls.ts;
    At(c, s, p);
    var next := s.tsTab[ts.cpupri].tqexp;
    var ts' := T.NewUmdPri(ts.(timeleft := 0, cpupri := next), |s.tsTab|);
    MovesUser(s, p, ts'.(dispwait := 0));
    SendsUser(s, p, ts', next, Next(c, s, ClockTick));
  }

  /** A process that has waited longer than its level allows is sent to the level ts_lwait names; one
      that has not has waited once more. */
  lemma WaitsTooLong(c: Config, s: Sched, p: nat)
    requires Inv(c, s) && p < |s.procs| && s.procs[p].cls.Ts? && T.Waits(s.procs[p])
    requires -0x8000 <= s.procs[p].cls.ts.dispwait < 0x7fff
    ensures T.Ready(s, p)
    ensures var t, v := T.UpdateOne(s, p), s.procs[p];
            && 0 <= v.cls.ts.cpupri < |s.tsTab| && 0 <= v.cls.ts.umdpri < |s.tsTab|
            && if v.cls.ts.dispwait + 1 > s.tsTab[v.cls.ts.umdpri].maxwait then
                 && Sent(s, t, p, s.tsTab[v.cls.ts.cpupri].lwait, v.cls.ts.timeleft)
                 && t == s.(procs := t.procs, queues := t.queues, curpri := if p == s.cur then t.procs[p].pri else s.curpri)
               else t == s.(procs := s.procs[p := v.(cls := Ts(v.cls.ts.(dispwait := v.cls.ts.dispwait + 1)))])
  {
    hide QueuesMatch, Good, ListOk, T.MoveToUserPri, Sent;
    At(c, s, p);
    var ts := s.procs[p].cls.ts;
    ts := ts.(dispwait := ts.dispwait + 1);
    if ts.dispwait > s.tsTab[ts.umdpri].maxwait {
      var next := s.tsTab[ts.cpupri].lwait;
      var ts' := T.NewUmdPri(ts.(cpupri := next), |s.tsTab|);
      MovesUser(s, p, ts'.(dispwait := 0));
      SendsUser(s, p, ts', next, T.UpdateOne(s, p));
    }
  }

  /** However many processes it moves, ts_update asks for preemption once; it wakes nobody and changes no
      table or list. */
  lemma UpdateAsks(c: Config, s: Sched)
    requires Inv(c, s)
    ensures var t := Next(c, s, TsUpdate);
            t == s.(procs := t.procs, queues := t.queues, curpri := t.curpri, runrun := s.runrun + 1)
  {
    hide Good, ListOk, T.UpdateList;
    ListReady(c, s);
    UpdateListAlone(s, s.tsList);
  }

  lemma {:induction false} UpdateListAlone(s: Sched, list: seq<nat>)
    requires T.AllReady(s, list)
    ensures var t := T.UpdateList(s, list); t == s.(procs := t.procs, queues := t.queues, curpri := t.curpri)
    decreases |list|
  {
    hide T.UpdateOne, T.Ready;
    if list != [] {
      assert T.Ready(s, list[0]);
      var t := T.UpdateOne(s, list[0]);
      UpdateOneAlone(s, list[0]);
      forall k | 0 <= k < |list| ensures T.Ready(t, list[k]) {
        assert T.Ready(s, list[k]);
        T.UpdateOneReady(s, list[0], list[k]);
      }
      assert forall k :: 0 <= k < |list[1..]| ==> list[1..][k] == list[k + 1];
      UpdateListAlone(t, list[1..]);
    }
  }

  lemma UpdateOneAlone(s: Sched, p: nat)
    requires T.Ready(s, p)
    ensures var t := T.UpdateOne(s, p); t == s.(procs := t.procs, queues := t.queues, curpri := t.curpri)
  {
    hide T.NewUmdPri, Remove;
  }

  /** On its way back to user mode a process gives up its kernel priority for the level ts_slpret names,
      with a fresh quantum, and asks for preemption exactly when a process that may run has a higher
      priority and nobody has been woken without leave to preempt. */
  lemma BackToUser(c: Config, s: Sched)
    requires Inv(c, s) && Enabled(c, s, Event.TrapRet) && s.procs[s.cur].cls.Ts?
    ensures var t, v := Next(c, s, Event.TrapRet), s.procs[s.cur];
            if !v.cls.ts.kpri then t == s
            else
              && 0 <= v.cls.ts.cpupri < |s.tsTab| && Moved(s, t, s.cur, Nowhere)
              && NewLevel(s, v, t.procs[s.cur], s.tsTab[v.cls.ts.cpupri].slpret)
              && t.procs[s.cur].cls.ts.timeleft == s.tsTab[t.procs[s.cur].cls.ts.umdpri].quantum
              && t.procs[s.cur].cls.ts.backq == v.cls.ts.backq
              && t.curpri == t.procs[s.cur].pri
              && t.runrun == (if s.npwakecnt == 0 && !NoneBetter(s, t.procs[s.cur].pri, false) then s.runrun + 1 else s.runrun)
              && t == s.(procs := t.procs, curpri := t.curpri, runrun := t.runrun)
  {
    hide QueuesMatch, Good, ListOk, MaxRunPri, NoneBetter, Moved;
    var p, t := s.cur, Next(c, s, Event.TrapRet);
    At(c, s, p);
    NotOnAny(s, p);
    BetterIff(s, t.procs[p].pri);
    PlacedNew(s, p, t.procs[p], Nowhere, t);
  }

  /** `maxrunpri` is the priority of the best process that may run. */
  lemma BetterIff(s: Sched, pri: nat)
    requires QueuesMatch(s.procs, s.queues)
    ensures NoneBetter(s, pri, false) <==> MaxRunPri(s) <= pri
    ensures NoneBetter(s, pri, true) <==> MaxRunPri(s) < pri
  {
    hide QueuesMatch, MaxRunPri, Best, NextToRun;
    forall q | 0 <= q < |s.procs| && Runnable(s, q) ensures s.procs[q].pri <= MaxRunPri(s) {
      QueuedBound(s, q);
    }
    if MaxRunPri(s) >= 0 { assert Runnable(s, NextToRun(s)); }
  }

  // ------------------------------------------------ parameters and classes

  /** A process given class data by priocntl. The current one, at its new priority at once, keeps the
      processor unasked exactly when that is higher than every other that may run, and then has a fresh
      quantum; a queued one goes to the end of its new queue and asks for preemption if it is now higher
      than the current; any other is marked to go to the end. */
  lemma GivenPriority(s: Sched, p: nat, ts: TsProc)
    requires QueuesMatch(s.procs, s.queues) && T.TabOk(s.tsTab, |s.queues|) && 0 <= ts.umdpri < |s.tsTab|
    requires p < |s.procs| && s.procs[p].pri < |s.queues| && (p == s.cur ==> !OnQueue(s, p))
    ensures var t, e, queued := T.Assign(s, p, ts), s.tsTab[ts.umdpri], OnQueue(s, p);
            var keeps := p == s.cur && NoneBetter(s, e.globpri, true);
            var asks := (p == s.cur && !keeps) || (queued && e.globpri > s.curpri);
            && Moved(s, t, p, if queued then Last else Nowhere)
            && t.procs[p] == s.procs[p].(pri := e.globpri,
                 cls := Ts(if keeps || queued then ts.(timeleft := e.quantum) else ts.(backq := true)))
            && t.curpri == (if p == s.cur then e.globpri else s.curpri)
            && t.runrun == (if asks then s.runrun + 1 else s.runrun)
            && t == s.(procs := t.procs, queues := t.queues, curpri := t.curpri, runrun := t.runrun)
  {
    hide QueuesMatch, T.EntryOk, MaxRunPri, NoneBetter, T.MoveToUserPri, Moved;
    var t := T.Assign(s, p, ts);
    BetterIff(s, s.tsTab[ts.umdpri].globpri);
    if p == s.cur {
      NotOnAny(s, p);
      PlacedNew(s, p, t.procs[p], Nowhere, t);
    } else {
      MovesUser(s, p, ts);
      MovedSame(s, T.MoveToUserPri(s, p, ts), t, p);
    }
  }

  lemma MovedSame(s: Sched, t: Sched, u: Sched, p: nat)
    requires u.procs == t.procs && u.queues == t.queues
    ensures forall place :: Moved(s, t, p, place) ==> Moved(s, u, p, place)
  {}

  /** The same for a real-time process entering its class (`entering`), or changing its level by
      rt_parmsset; the second leaves the quantum alone. Preemption is asked for in the kernel too. */
  lemma GivenLevel(s: Sched, p: nat, g: nat, rt: RtProc, tab: seq<RtDpEnt>, entering: bool)
    requires QueuesMatch(s.procs, s.queues) && R.TabOk(tab, |s.queues|) && 0 <= rt.pri < |tab| && g == tab[rt.pri].globpri
    requires p < |s.procs| && s.procs[p].pri < |s.queues| && (p == s.cur ==> !OnQueue(s, p))
    requires !entering ==> s.procs[p].cls.Rt? && rt == s.procs[p].cls.rt.(pri := rt.pri)
    ensures var t, queued := if entering then R.SetPriority(s, p, g, rt) else R.SetLevel(s, tab, p, rt.pri), OnQueue(s, p);
            var keeps := p == s.cur && NoneBetter(s, g, true);
            var asks := (p == s.cur && !keeps) || (queued && g > s.curpri);
            && Moved(s, t, p, if queued then Last else Nowhere)
            && t.procs[p] == s.procs[p].(pri := g,
                 cls := Rt(if !keeps && !queued then rt.(backq := true) else if entering then rt.(timeleft := rt.pquantum) else rt))
            && t.curpri == (if p == s.cur then g else s.curpri)
            && t.runrun == (if asks then s.runrun + 1 else s.runrun) && t.kprunrun == (if asks then s.kprunrun + 1 else s.kprunrun)
            && t == s.(procs := t.procs, queues := t.queues, curpri := t.curpri, runrun := t.runrun, kprunrun := t.kprunrun)
  {
    hide QueuesMatch, MaxRunPri, NoneBetter, R.MoveToLevel, Moved;
    var t := if entering then R.SetPriority(s, p, g, rt) else R.SetLevel(s, tab, p, rt.pri);
    BetterIff(s, g);
    if p == s.cur {
      NotOnAny(s, p);
      PlacedNew(s, p, t.procs[p], Nowhere, t);
    } else if entering {
      MovesLevel(s, p, g, rt.(timeleft := rt.pquantum), rt.(backq := true));
    } else {
      MovesLevel(s, p, g, rt, rt.(backq := true));
    }
  }

  /** The record ts_parmsset installs: the limit asked for or the old one, the user priority asked for or
      the old one but never above the limit, and the level of that. */
  predicate Adjusted(old_: TsProc, ts: TsProc, lim: int, upri: int, n: nat)
  {
    var wanted := if upri == T.NOCHANGE then old_.upri else upri;
    && ts.uprilim == (if lim == T.NOCHANGE then old_.uprilim else lim)
    && ts.upri <= ts.uprilim && ts.upri <= wanted && (ts.upri == wanted || ts.upri == ts.uprilim)
    && ts.umdpri == LevelOf(old_.cpupri, ts.upri, n)
    && ts == old_.(uprilim := ts.uprilim, upri := ts.upri, umdpri := ts.umdpri, nice := ts.nice, dispwait := ts.dispwait)
  }

  /** At a kernel priority the process keeps it, and its place, until it returns to user mode; otherwise
      it is given its new priority (GivenPriority) and its wait begins anew. */
  lemma ParmsTake(c: Config, s: Sched, p: nat, lim: int, upri: int)
    requires Inv(c, s) && Enabled(c, s, Event.TsParms(p, lim, upri))
    ensures T.Ready(s, p) && QueuesMatch(s.procs, s.queues)
    ensures var t, v := Next(c, s, Event.TsParms(p, lim, upri)), s.procs[p];
            && t.procs[p].cls.Ts?
            && (v.cls.ts.kpri ==>
                  && Adjusted(v.cls.ts, t.procs[p].cls.ts, lim, upri, |s.tsTab|)
                  && t.procs[p].cls.ts.dispwait == v.cls.ts.dispwait
                  && t == s.(procs := s.procs[p := v.(cls := t.procs[p].cls)]))
            && (!v.cls.ts.kpri ==>
                  exists ts :: Adjusted(v.cls.ts, ts, lim, upri, |s.tsTab|) && ts.dispwait == 0
                    && 0 <= ts.umdpri < |s.tsTab| && t == T.Assign(s, p, ts))
  {
    hide QueuesMatch, Good, ListOk, T.Assign, Adjusted, T.NewUmdPri, T.NiceOf;
    At(c, s, p);
    MaxUpri(c, s);
    var ts := AdjustedIs(s.procs[p].cls.ts, lim, upri, |s.tsTab|, c.maxUpri);
    if !s.procs[p].cls.ts.kpri { AssignTs(s, p, ts.(dispwait := 0)); }
  }

  lemma AdjustedIs(old_: TsProc, lim: int, upri: int, n: nat, maxupri: int) returns (ts: TsProc)
    requires n > 0 && maxupri > 0
    ensures var l := T.Requested(old_.uprilim, lim);
            var u := T.Requested(old_.upri, upri);
            ts == T.NewUmdPri(old_.(uprilim := l, upri := if u > l then l else u), n).(nice := T.NiceOf(upri, maxupri))
    ensures Adjusted(old_, ts, lim, upri, n) && ts.dispwait == old_.dispwait
    ensures Adjusted(old_, ts.(dispwait := 0), lim, upri, n)
  {
    hide T.NiceOf;
    var l := T.Requested(old_.uprilim, lim);
    var u := T.Requested(old_.upri, upri);
    ts := T.NewUmdPri(old_.(uprilim := l, upri := if u > l then l else u), n).(nice := T.NiceOf(upri, maxupri));
  }

  lemma AssignTs(s: Sched, p: nat, ts: TsProc)
    requires T.TabOk(s.tsTab, |s.queues|) && 0 <= ts.umdpri < |s.tsTab|
    requires p < |s.procs| && s.procs[p].pri < |s.queues| && QueuesMatch(s.procs, s.queues)
    ensures p < |T.Assign(s, p, ts).procs| && T.Assign(s, p, ts).procs[p].cls.Ts?
  {}

  /** Higher user priorities have lower nice values: 39 at the bottom, 20 in the middle, 0 at the top. */
  lemma NiceOrder(u: int, v: int, maxupri: int)
    requires maxupri > 0 && -maxupri <= u <= v <= maxupri
    ensures 0 <= T.NiceOf(v, maxupri) <= T.NiceOf(u, maxupri) <= 39
    ensures T.NiceOf(maxupri, maxupri) == 0 && T.NiceOf(0, maxupri) == 20 && T.NiceOf(-maxupri, maxupri) == 39
  {
    TwentiethBounds(u, v, maxupri);
    TwentiethBounds(-maxupri, maxupri, maxupri);
  }

  lemma TwentiethBounds(u: int, v: int, m: int)
    requires m > 0 && -m <= u <= v <= m
    ensures -20 <= T.CDiv(u * 20, m) <= T.CDiv(v * 20, m) <= 20
    ensures T.CDiv(m * 20, m) == 20 && T.CDiv(-m * 20, m) == -20
  {
    FloorOrder(u * 20, v * 20, m);
    FloorOrder(-v * 20, -u * 20, m);
    FloorOrder(v * 20, m * 20, m);
    FloorOrder(-u * 20, m * 20, m);
    FloorOrder(0, v * 20, m);
    FloorOrder(0, -u * 20, m);
  }

  lemma FloorOrder(a: int, b: int, m: int)
    requires m > 0
    ensures a <= b ==> a / m <= b / m
    ensures (m * 20) / m == 20
  {
    if a <= b && a / m > b / m {
      assert m * (a / m) >= m * (b / m + 1) by { Product(m, a / m, b / m + 1); }
    }
  }

  lemma Product(m: int, a: int, b: int)
    requires m > 0 && a >= b
    ensures m * a >= m * b
  {}

  /** A process starts in the class in user mode at the middle level moved by its user priority, with
      neither mark and no quantum yet; asking for no change of both values is the same as giving none. */
  lemma StartsMiddle(lim: int, upri: int, n: nat, maxupri: int)
    requires 0 < n <= 0x8000 && maxupri > 0
    ensures T.Initial(T.Default, n, maxupri) == T.Initial(T.Given(T.NOCHANGE, T.NOCHANGE), n, maxupri)
    ensures var ts := T.Initial(T.Given(lim, upri), n, maxupri);
            && ts.uprilim == (if lim == T.NOCHANGE then 0 else lim)
            && ts.upri <= ts.uprilim && (ts.upri == ts.uprilim || (ts.upri == upri && upri != T.NOCHANGE))
            && (upri != T.NOCHANGE ==> ts.upri <= upri)
            && ts.cpupri == (n - 1) / 2 && ts.umdpri == LevelOf(ts.cpupri, ts.upri, n)
            && ts.timeleft == 0 && ts.dispwait == 0 && !ts.backq && !ts.fork && !ts.kpri
  {
    hide T.CDiv, T.ToChar;
    NoNice(maxupri);
  }

  lemma NoNice(maxupri: int)
    requires maxupri > 0
    ensures T.ToChar(20 - T.CDiv(0, maxupri)) == 20
  {}

  // ------------------------------------------------------------------ fork

  /** The child joins the end of its parent's queue, a loaded copy of it with a full quantum and not
      marked; a time-sharing parent is marked to let it run. */
  lemma ForksPlace(c: Config, s: Sched, child: nat, sys: bool)
    requires Inv(c, s) && Enabled(c, s, Event.Fork(child, sys))
    ensures var t, pv := Next(c, s, Event.Fork(child, sys)), s.procs[s.cur];
            && |t.procs| == |s.procs| && pv.pri < |s.queues|
            && t.queues == s.queues[pv.pri := s.queues[pv.pri] + [child]]
            && (forall q :: 0 <= q < |s.procs| && q != child && q != s.cur ==> t.procs[q] == s.procs[q])
            && t.procs[child] == pv.(stat := SRun, load := true, procio := false, sys := sys, cls := t.procs[child].cls)
            && t.procs[s.cur] == pv.(cls := t.procs[s.cur].cls)
            && (match pv.cls
                case Sys => t.procs[child].cls == Sys && t.procs[s.cur].cls == Sys
                case Ts(ts) =>
                  && 0 <= ts.umdpri < |s.tsTab| && t.procs[s.cur].cls == Ts(ts.(backq := true, fork := true))
                  && t.procs[child].cls == Ts(ts.(timeleft := s.tsTab[ts.umdpri].quantum, dispwait := 0, backq := false))
                case Rt(rt) =>
                  t.procs[child].cls == Rt(rt.(timeleft := rt.pquantum, backq := false)) && t.procs[s.cur].cls == Rt(rt))
            && t == s.(procs := t.procs, queues := t.queues, tsList := t.tsList, rtList := t.rtList,
                       runrun := if pv.cls.Ts? then s.runrun + 1 else s.runrun)
  {
    hide QueuesMatch, Good, ListOk;
    At(c, s, s.cur);
    At(c, s, child);
  }

  /** When a time-sharing parent then gives way, it stands behind its child, and does not run before
      it, unless it is at a kernel priority: then it stands first, and goes on if nothing is better. */
  lemma ChildFirst(c: Config, s: Sched, child: nat, sys: bool)
    requires Inv(c, s) && Enabled(c, s, Event.Fork(child, sys)) && s.procs[s.cur].cls.Ts?
    ensures var t, pv := Next(c, s, Event.Fork(child, sys)), s.procs[s.cur];
            && Inv(c, t) && Running(t) && pv.pri < |s.queues|
            && var u := Next(c, t, Event.Preempt);
               && u.queues == s.queues[pv.pri := if pv.cls.ts.kpri then [s.cur] + s.queues[pv.pri] + [child]
                                                 else s.queues[pv.pri] + [child, s.cur]]
               && Inv(c, u) && Enabled(c, u, Swtch)
               && (Runs(Next(c, u, Swtch), s.cur) <==>
                     pv.cls.ts.kpri && Schedulable(pv) && NoneBetter(s, pv.pri, false))
  {
    hide QueuesMatch, Good, ListOk, Next, Inv;
    var t, p := Next(c, s, Event.Fork(child, sys)), s.cur;
    StepKeepsInv(c, s, Event.Fork(child, sys));
    ForksPlace(c, s, child, sys);
    OffQueues(c, s, p);
    OffQueues(c, s, child);
    GiveWay(c, t);
    QueuesAfter(c, t);
    NoneBetterFork(s, t, child);
    var i := s.procs[p].pri;
    var q := s.queues[i];
    assert q + [child] + [p] == q + [child, p] && [p] + (q + [child]) == [p] + q + [child];
    assert Next(c, t, Event.Preempt).queues == s.queues[i := if s.procs[p].cls.ts.kpri then [p] + q + [child] else q + [child, p]];
  }

  /** A machine of one level and two slots: process 0 runs at the kernel priority it slept at, and slot 1
      is free. */
  const SMALL := Config([RtDpEnt(0, 1)], 20, 0)
  const PARENT := Proc(SOnProc, true, false, false, 0, Ts(TsProc(1, 0, 0, 0, 0, 20, true, false, false, 0)))
  const ASLEEP := Sched([PARENT, FreeSlot()], [[]], 0, 0, 0, 0, 0, [0], [], [TsDpEnt(0, 1, 0, 0, 0, 0)])

  /** There the parent forks, gives way, and runs again before its child. */
  lemma ParentFirstExample()
    ensures Inv(SMALL, ASLEEP) && Enabled(SMALL, ASLEEP, Event.Fork(1, false))
    ensures var t := Next(SMALL, ASLEEP, Event.Fork(1, false));
            && Inv(SMALL, t) && Enabled(SMALL, t, Event.Preempt)
            && var u := Next(SMALL, t, Event.Preempt);
               Inv(SMALL, u) && Enabled(SMALL, u, Swtch) && Runs(Next(SMALL, u, Swtch), 0) && OnQueue(u, 1)
  {
    hide Inv, Next, NoneBetter, Good, ListOk;
    SmallInv();
    ChildFirst(SMALL, ASLEEP, 1, false);
    NobodyQueued(ASLEEP);
    ForksPlace(SMALL, ASLEEP, 1, false);
    var t := Next(SMALL, ASLEEP, Event.Fork(1, false));
    ChildQueued(t, Next(SMALL, t, Event.Preempt)) by { GivesPlace(SMALL, t); }
  }

  lemma ChildQueued(t: Sched, u: Sched)
    requires |t.procs| == 2 && t.procs[1].pri == 0 && Moved(t, u, 0, First) && u.queues == [[0] + [] + [1]]
    ensures OnQueue(u, 1)
  {}

  lemma SmallInv()
    ensures Inv(SMALL, ASLEEP) && Enabled(SMALL, ASLEEP, Event.Fork(1, false))
  {
    hide Listed;
    assert T.EntryOk(ASLEEP.tsTab[0], 1, 1) && QueueMatches(ASLEEP.procs, [], 0);
    assert ListOk(ASLEEP) by { SmallLists(); }
    forall q | 0 <= q < 2 ensures Placed(ASLEEP, q) && ProcOk(SMALL, ASLEEP.tsTab, 1, ASLEEP.procs[q]) {}
  }

  lemma SmallLists()
    ensures ListOk(ASLEEP)
  {
    assert TsMembers(ASLEEP) == [true, false] && RtMembers(ASLEEP) == [false, false];
    assert Listed([0], [true, false]) && Listed([], [false, false]);
  }

  lemma NobodyQueued(s: Sched)
    requires forall i :: 0 <= i < |s.queues| ==> s.queues[i] == []
    ensures forall pri, alone :: NoneBetter(s, pri, alone)
  {}

  lemma OffQueues(c: Config, s: Sched, p: nat)
    requires Inv(c, s) && p < |s.procs| && s.procs[p].stat != SRun && (p == s.cur ==> Running(s))
    ensures (forall i :: 0 <= i < |s.queues| ==> p !in s.queues[i]) && (s.procs[p].stat == SOnProc ==> p == s.cur)
  {
    hide QueuesMatch, ListOk;
    At(c, s, p);
    NotOnAny(s, p);
  }

  lemma NoneBetterFork(s: Sched, t: Sched, child: nat)
    requires s.cur < |s.procs| == |t.procs| && child < |s.procs| && child != s.cur && s.procs[s.cur].pri < |s.queues|
    requires t.queues == s.queues[s.procs[s.cur].pri := s.queues[s.procs[s.cur].pri] + [child]]
    requires forall i :: 0 <= i < |s.queues| ==> s.cur !in s.queues[i] && child !in s.queues[i]
    requires forall q :: 0 <= q < |s.procs| && q != child && q != s.cur ==> t.procs[q] == s.procs[q]
    requires t.procs[child].pri == s.procs[s.cur].pri == t.procs[s.cur].pri && Schedulable(t.procs[child])
    ensures NoneBetter(t, s.procs[s.cur].pri, false) == NoneBetter(s, s.procs[s.cur].pri, false)
    ensures !NoneBetter(t, s.procs[s.cur].pri, true)
  {
    assert Runnable(t, child);
    assert forall q :: 0 <= q < |s.procs| && q != child ==> Runnable(t, q) == Runnable(s, q);
  }

  // ------------------------------------------------------ real-time values

  /** The quantum rt_parmsset leaves: infinite, the level's own, the one asked for, or the old one. */
  lemma QuantumSet(rt: RtProc, tab: seq<RtDpEnt>, tqntm: int)
    requires 0 <= rt.pri < |tab|
    ensures var r := R.SetQuantum(rt, tab, tqntm);
            && r.pquantum == (if tqntm == R.TQDEF then tab[rt.pri].quantum else if tqntm == R.NOCHANGE then rt.pquantum else tqntm)
            && r.timeleft == (if tqntm == R.NOCHANGE || tqntm == R.TQINF then rt.timeleft else r.pquantum)
            && r == rt.(pquantum := r.pquantum, timeleft := r.timeleft)
  {}

  /** A process that becomes real-time has the level and quantum asked for, level 0 and the quantum of
      its level when none is. */
  lemma StartsLevel(parms: R.Parms, tab: seq<RtDpEnt>)
    requires |tab| > 0 && R.ParmsOk(parms, |tab|)
    ensures var rt := R.Initial(parms, tab);
            && rt.pri == (if parms.Given? && parms.pri != R.NOCHANGE then parms.pri else 0)
            && rt.pquantum == (if parms.Given? && parms.tqntm != R.NOCHANGE && parms.tqntm != R.TQDEF then parms.tqntm
                               else tab[rt.pri].quantum)
            && !rt.backq && !rt.ran && rt.timeleft == 0
  {}

  /** priocntl on a real-time process: its level (GivenLevel), then the quantum of the level it has now. */
  lemma RtParmsTake(c: Config, s: Sched, p: nat, level: int, tqntm: int)
    requires Inv(c, s) && Enabled(c, s, Event.RtParms(p, level, tqntm))
    ensures R.Ready(s, p) && R.TabOk(c.rtTab, |s.queues|) && QueuesMatch(s.procs, s.queues)
    ensures var t, u, rt := Next(c, s, Event.RtParms(p, level, tqntm)), R.SetLevel(s, c.rtTab, p, level), s.procs[p].cls.rt;
            && (level == R.NOCHANGE ==> u == s)
            && p < |t.procs| && t.procs[p].cls.Rt? && p < |u.procs| && u.procs[p].cls.Rt?
            && var w := t.procs[p].cls.rt;
               && w.pri == (if level == R.NOCHANGE then rt.pri else level) && 0 <= w.pri < |c.rtTab|
               && w.pquantum == (if tqntm == R.TQDEF then c.rtTab[w.pri].quantum else if tqntm == R.NOCHANGE then rt.pquantum else tqntm)
               && w.timeleft == (if tqntm == R.NOCHANGE || tqntm == R.TQINF then rt.timeleft else w.pquantum)
               && t == Store(u, p, u.procs[p].(cls := Rt(u.procs[p].cls.rt.(pquantum := w.pquantum, timeleft := w.timeleft))))
  {
    hide QueuesMatch, Good, ListOk, MaxRunPri, R.SetLevel, R.SetQuantum;
    At(c, s, p);
    LevelTaken(s, c.rtTab, p, level);
    QuantumSet(R.SetLevel(s, c.rtTab, p, level).procs[p].cls.rt, c.rtTab, tqntm);
  }

  lemma LevelTaken(s: Sched, tab: seq<RtDpEnt>, p: nat, level: int)
    requires R.Ready(s, p) && R.TabOk(tab, |s.queues|) && QueuesMatch(s.procs, s.queues)
    requires level == R.NOCHANGE || 0 <= level < |tab|
    ensures var u, rt := R.SetLevel(s, tab, p, level), s.procs[p].cls.rt;
            && (level == R.NOCHANGE ==> u == s) && p < |u.procs| && u.procs[p].cls.Rt?
            && u.procs[p].cls.rt == rt.(pri := if level == R.NOCHANGE then rt.pri else level, backq := u.procs[p].cls.rt.backq)
  {
    hide QueuesMatch, MaxRunPri, Remove;
  }

  /** priocntl moving a process into a class: it heads the list of its new class and is on no other, and
      is given the priority of the values it starts with (GivenPriority with StartsMiddle, GivenLevel with
      StartsLevel). */
  lemma EntersTs(c: Config, s: Sched, p: nat, parms: T.Parms)
    requires Inv(c, s) && Enabled(c, s, Event.TsEnter(p, parms))
    ensures T.TabOk(s.tsTab, |s.queues|) && QueuesMatch(s.procs, s.queues) && c.maxUpri > 0 && s.procs[p].pri < |s.queues|
    ensures var t := Next(c, s, Event.TsEnter(p, parms));
            && t.tsList == [p] + s.tsList && t.rtList == Others(s.rtList, p)
            && t.(tsList := s.tsList, rtList := s.rtList) == T.Assign(s, p, T.Initial(parms, |s.tsTab|, c.maxUpri))
  {
    hide QueuesMatch, Good, T.Initial, MaxRunPri, Remove, Others;
    At(c, s, p);
    MaxUpri(c, s);
    OthersIsRemove(s.rtList, p);
  }

  lemma EntersRt(c: Config, s: Sched, p: nat, parms: R.Parms)
    requires Inv(c, s) && Enabled(c, s, Event.RtEnter(p, parms))
    ensures R.TabOk(c.rtTab, |s.queues|) && QueuesMatch(s.procs, s.queues) && s.procs[p].pri < |s.queues|
    ensures var t, rt := Next(c, s, Event.RtEnter(p, parms)), R.Initial(parms, c.rtTab);
            && t.rtList == [p] + s.rtList && t.tsList == Others(s.tsList, p)
            && t.(tsList := s.tsList, rtList := s.rtList) == R.SetPriority(s, p, c.rtTab[rt.pri].globpri, rt)
  {
    hide QueuesMatch, Good, R.Initial, MaxRunPri, Remove, Others;
    At(c, s, p);
    OthersIsRemove(s.tsList, p);
  }

  // --------------------------------------------------- the life of a process

  /** Everything about a process but its priority and class data. */
  predicate SameLife(v: Proc, w: Proc)
  {
    w == v.(pri := w.pri, cls := w.cls)
  }

  ghost predicate SameLives(s: Sched, t: Sched)
  {
    |t.procs| == |s.procs| && forall q :: 0 <= q < |s.procs| ==> SameLife(s.procs[q], t.procs[q])
  }

  /** State and flags of process `q` after the step `e` to `t`. */
  function LifeAfter(s: Sched, e: Event, q: nat, picked: bool): Proc
    requires q < |s.procs|
  {
    var v := s.procs[q];
    match e
    case Fork(child, sys) => if q == child then v.(stat := SRun, load := true, procio := false, sys := sys) else v
    case Reap(p) => if q == p then FreeSlot() else v
    case Exit => if q == s.cur then v.(stat := SZomb) else v
    case Stop => if q == s.cur then v.(stat := SStop) else v
    case Sleep(_) => if q == s.cur then v.(stat := SSleep) else v
    case Wakeup(p, _) => if q == p then v.(stat := SRun) else v
    case SetRun(p) => if q == p then v.(stat := SRun) else v
    case Swtch => if picked then v.(stat := SOnProc) else if v.stat == SOnProc then v.(stat := SRun) else v
    case Load(p) => if q == p then v.(load := true) else v
    case Unload(p) => if q == p then v.(load := false) else v
    case ProcIo(p, on) => if q == p then v.(procio := on) else v
    case ClearSys => if q == s.cur then v.(sys := false) else v
    case ClockTick | TsUpdate | Preempt | TrapRet | TsParms(_, _, _) | TsEnter(_, _) | RtParms(_, _, _) | RtEnter(_, _)
      | SetTable(_) => v
  }

  lemma MoveLives(s: Sched, p: nat, ts: TsProc)
    requires T.TabOk(s.tsTab, |s.queues|) && 0 <= ts.umdpri < |s.tsTab|
    requires p < |s.procs| && s.procs[p].pri < |s.queues|
    ensures SameLives(s, T.MoveToUserPri(s, p, ts))
  {}

  lemma TickLives(s: Sched, p: nat)
    requires T.Ready(s, p)
    ensures SameLives(s, T.Tick(s, p))
  {
    hide T.MoveToUserPri, T.NewUmdPri;
    var ts := s.procs[p].cls.ts;
    if !ts.kpri && ts.timeleft - 1 == 0 {
      MoveLives(s, p, T.NewUmdPri(ts.(timeleft := 0, cpupri := s.tsTab[ts.cpupri].tqexp), |s.tsTab|).(dispwait := 0));
    }
  }

  lemma UpdateOneLives(s: Sched, p: nat)
    requires T.Ready(s, p)
    ensures SameLives(s, T.UpdateOne(s, p))
  {
    hide T.MoveToUserPri, T.NewUmdPri;
    var v := s.procs[p];
    if T.Waits(v) {
      var ts := v.cls.ts.(dispwait := T.ToShort(v.cls.ts.dispwait + 1));
      if ts.dispwait > s.tsTab[ts.umdpri].maxwait {
        MoveLives(s, p, T.NewUmdPri(ts.(cpupri := s.tsTab[ts.cpupri].lwait), |s.tsTab|).(dispwait := 0));
      }
    }
  }

  lemma {:induction false} UpdateLives(s: Sched, list: seq<nat>)
    requires T.AllReady(s, list)
    ensures SameLives(s, T.UpdateList(s, list))
    decreases |list|
  {
    hide T.UpdateOne, T.Ready;
    if list != [] {
      assert T.Ready(s, list[0]);
      UpdateOneLives(s, list[0]);
      forall k | 0 <= k < |list| ensures T.Ready(T.UpdateOne(s, list[0]), list[k]) {
        assert T.Ready(s, list[k]);
        T.UpdateOneReady(s, list[0], list[k]);
      }
      assert forall k :: 0 <= k < |list[1..]| ==> list[1..][k] == list[k + 1];
      UpdateLives(T.UpdateOne(s, list[0]), list[1..]);
    }
  }

  lemma TrapLives(s: Sched, p: nat)
    requires T.Ready(s, p) && QueuesMatch(s.procs, s.queues)
    ensures SameLives(s, T.TrapRet(s, p))
  {
    hide QueuesMatch, MaxRunPri;
  }

  lemma AssignLives(s: Sched, p: nat, ts: TsProc)
    requires T.TabOk(s.tsTab, |s.queues|) && 0 <= ts.umdpri < |s.tsTab|
    requires p < |s.procs| && s.procs[p].pri < |s.queues| && QueuesMatch(s.procs, s.queues)
    ensures SameLives(s, T.Assign(s, p, ts))
  {
    hide QueuesMatch, MaxRunPri, T.MoveToUserPri;
    if p != s.cur { MoveLives(s, p, ts); }
  }

  lemma ParmsLives(s: Sched, p: nat, lim: int, upri: int, maxupri: int)
    requires T.Ready(s, p) && QueuesMatch(s.procs, s.queues) && maxupri > 0
    ensures SameLives(s, T.ParmsSet(s, p, lim, upri, maxupri))
  {
    hide QueuesMatch, T.Assign, T.NewUmdPri, T.NiceOf;
    var ts := AdjustedIs(s.procs[p].cls.ts, lim, upri, |s.tsTab|, maxupri);
    if !s.procs[p].cls.ts.kpri { AssignLives(s, p, ts.(dispwait := 0)); }
  }

  lemma EnterLives(s: Sched, p: nat, parms: T.Parms, maxupri: int)
    requires T.TabOk(s.tsTab, |s.queues|) && QueuesMatch(s.procs, s.queues) && maxupri > 0
    requires p < |s.procs| && s.procs[p].pri < |s.queues|
    ensures SameLives(s, T.EnterClass(s, p, parms, maxupri))
  {
    hide QueuesMatch, T.Assign, T.Initial;
    AssignLives(s, p, T.Initial(parms, |s.tsTab|, maxupri));
  }

  lemma LevelLives(s: Sched, p: nat, pri: nat, queued: RtProc, unqueued: RtProc)
    requires p < |s.procs| && s.procs[p].pri < |s.queues| && pri < |s.queues|
    ensures SameLives(s, R.MoveToLevel(s, p, pri, queued, unqueued))
  {}

  lemma RtParmsLives(s: Sched, tab: seq<RtDpEnt>, p: nat, level: int, tqntm: int)
    requires R.Ready(s, p) && R.TabOk(tab, |s.queues|) && QueuesMatch(s.procs, s.queues)
    requires 0 <= s.procs[p].cls.rt.pri < |tab| && (level == R.NOCHANGE || 0 <= level < |tab|)
    ensures SameLives(s, R.ParmsSet(s, tab, p, level, tqntm))
  {
    hide QueuesMatch, MaxRunPri, R.SetQuantum, R.MoveToLevel;
    if level != R.NOCHANGE && p != s.cur {
      var rt := s.procs[p].cls.rt.(pri := level);
      LevelLives(s, p, tab[level].globpri, rt, rt.(backq := true));
    }
  }

  lemma RtEnterLives(s: Sched, tab: seq<RtDpEnt>, p: nat, parms: R.Parms)
    requires R.TabOk(tab, |s.queues|) && QueuesMatch(s.procs, s.queues) && R.ParmsOk(parms, |tab|)
    requires p < |s.procs| && s.procs[p].pri < |s.queues|
    ensures SameLives(s, R.EnterClass(s, tab, p, parms))
  {
    hide QueuesMatch, MaxRunPri, R.Initial, R.MoveToLevel;
    var rt := R.Initial(parms, tab);
    LevelLives(s, p, tab[rt.pri].globpri, rt.(timeleft := rt.pquantum), rt.(backq := true));
  }

  lemma SwtchLives(c: Config, s: Sched)
    requires Inv(c, s) && Enabled(c, s, Swtch)
    ensures var t := Next(c, s, Swtch);
            |t.procs| == |s.procs| && forall q :: 0 <= q < |s.procs| ==> SameLife(LifeAfter(s, Swtch, q, Runs(t, q)), t.procs[q])
  {
    hide QueuesMatch, ListOk, SomeRunnable, Best, NextToRun, MaxRunPri;
    At(c, s, s.cur);
    forall q | 0 <= q < |s.procs| ensures s.procs[q].stat == SOnProc ==> q == s.cur {
      At(c, s, q);
    }
    var t := if s.procs[s.cur].stat == SOnProc then SetStat(s, s.cur, SRun) else s;
    StatKeepsQueues(s, s.cur, t);
    if MaxRunPri(t) >= 0 { NextIsQueued(t); }
  }

  lemma GivesLife(c: Config, s: Sched)
    requires Inv(c, s) && Running(s)
    ensures SameLives(s, Next(c, s, Event.Preempt))
  {
    hide QueuesMatch, Good, ListOk, Next;
    GivesPlace(c, s);
  }

  lemma WakesLife(c: Config, s: Sched, p: nat, noprmpt: bool)
    requires Inv(c, s) && p < |s.procs|
    ensures Enabled(c, s, Event.Wakeup(p, noprmpt)) ==>
              var t := Next(c, s, Event.Wakeup(p, noprmpt));
              |t.procs| == |s.procs| && forall q :: 0 <= q < |s.procs| ==> SameLife(LifeAfter(s, Event.Wakeup(p, noprmpt), q, false), t.procs[q])
    ensures Enabled(c, s, Event.SetRun(p)) ==>
              var t := Next(c, s, Event.SetRun(p));
              |t.procs| == |s.procs| && forall q :: 0 <= q < |s.procs| ==> SameLife(LifeAfter(s, Event.SetRun(p), q, false), t.procs[q])
  {
    hide QueuesMatch, Good, ListOk;
    if Enabled(c, s, Event.Wakeup(p, noprmpt)) { WakesPlace(c, s, p, noprmpt); }
    if Enabled(c, s, Event.SetRun(p)) { RunnablePlace(c, s, p); }
  }

  /** A change of SLOAD, SPROCIO or SSYS moves nobody. It asks for preemption only where /proc lets go of a
      runnable process, loaded and no system process, that is better than the current one. */
  lemma FlagsMoveNobody(c: Config, s: Sched, e: Event)
    requires Inv(c, s) && Enabled(c, s, e) && (e.Load? || e.Unload? || e.ProcIo? || e.ClearSys?)
    ensures var t := Next(c, s, e);
            && t == s.(procs := t.procs, runrun := t.runrun)
            && t.runrun == (if e.ProcIo? && !e.on && s.procs[e.p].stat == SRun && s.procs[e.p].load && !s.procs[e.p].sys
                               && s.procs[e.p].pri > s.curpri then s.runrun + 1 else s.runrun)
            && |t.procs| == |s.procs|
            && forall q :: 0 <= q < |s.procs| ==> t.procs[q].pri == s.procs[q].pri && t.procs[q].cls == s.procs[q].cls
  {
    hide Good, ListOk, QueuesMatch;
  }

  predicate Quiet(e: Event)
  {
    e.ClockTick? || e.TsUpdate? || e.Preempt? || e.TrapRet? || e.TsParms? || e.TsEnter? || e.RtParms? || e.RtEnter? || e.SetTable?
  }

  lemma QuietLife(c: Config, s: Sched, e: Event)
    requires Inv(c, s) && Enabled(c, s, e) && Quiet(e)
    ensures SameLives(s, Next(c, s, e))
  {
    hide Good, QueuesMatch, ListOk, T.Tick, T.TrapRet, T.ParmsSet, T.EnterClass, R.ParmsSet, R.EnterClass,
         T.UpdateList, ClPreempt, SwtchStep, WakeupStep, SetRunStep, ClSleep, ClFork, T.TabOk, R.TabOk;
    At(c, s, s.cur);
    match e {
      case ClockTick =>
        if s.procs[s.cur].cls.Ts? { TickLives(s, s.cur); }
      case TsUpdate =>
        ListReady(c, s);
        UpdateLives(s, s.tsList);
      case Preempt => GivesLife(c, s);
      case TrapRet => if s.procs[s.cur].cls.Ts? { TrapLives(s, s.cur); }
      case TsParms(p, lim, upri) => At(c, s, p); MaxUpri(c, s); ParmsLives(s, p, lim, upri, c.maxUpri);
      case TsEnter(p, parms) => At(c, s, p); MaxUpri(c, s); EnterLives(s, p, parms, c.maxUpri);
      case RtParms(p, level, tqntm) => At(c, s, p); RtParmsLives(s, c.rtTab, p, level, tqntm);
      case RtEnter(p, parms) => At(c, s, p); RtEnterLives(s, c.rtTab, p, parms);
      case SetTable(_) =>
    }
  }

  /** A step changes the state and the flags of the one process it is about and no other's; what it
      makes of them depends on nothing but the step. */
  lemma LifeOf(c: Config, s: Sched, e: Event, q: nat)
    requires Inv(c, s) && Enabled(c, s, e) && q < |s.procs|
    ensures var t := Next(c, s, e);
            |t.procs| == |s.procs| && SameLife(LifeAfter(s, e, q, e.Swtch? && Runs(t, q)), t.procs[q])
  {
    hide Good, QueuesMatch, ListOk, ClPreempt, SwtchStep, WakeupStep, SetRunStep, ClSleep, ClFork, T.TabOk, R.TabOk, Moved;
    if Quiet(e) {
      hide Next, Inv, Enabled;
      QuietLife(c, s, e);
    } else {
      match e {
        case Swtch => SwtchLives(c, s);
        case Fork(child, sys) => ForksPlace(c, s, child, sys);
        case Sleep(kpri) => SleepsLife(c, s, kpri, q);
        case Wakeup(p, noprmpt) => WakesLife(c, s, p, noprmpt);
        case SetRun(p) => WakesLife(c, s, p, false);
        case Exit | Stop | Reap(_) | Load(_) | Unload(_) | ProcIo(_, _) | ClearSys =>
      }
    }
  }

  lemma SleepsLife(c: Config, s: Sched, kpri: nat, q: nat)
    requires Inv(c, s) && Enabled(c, s, Event.Sleep(kpri)) && q < |s.procs|
    ensures var t := Next(c, s, Event.Sleep(kpri));
            |t.procs| == |s.procs| && SameLife(LifeAfter(s, Event.Sleep(kpri), q, false), t.procs[q])
  {
    hide Good, QueuesMatch, ListOk, Next;
    SleepsOff(c, s, kpri);
  }
}
