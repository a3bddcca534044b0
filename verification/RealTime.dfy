/** What each real-time class function does to the scheduler's state (rt.c). */
module RtSpec {
  import opened SchedState

  const NOCHANGE := -1
  const TQINF := -2
  const TQDEF := -3

  predicate TabOk(tab: seq<RtDpEnt>, npri: nat)
  {
    |tab| > 0 && forall i :: 0 <= i < |tab| ==> tab[i].globpri < npri
  }

  predicate Ready(s: Sched, p: nat)
  {
    p < |s.procs| && s.procs[p].pri < |s.queues| && s.procs[p].cls.Rt?
  }

  function SetRt(v: Proc, rt: RtProc): Proc
  {
    v.(cls := Rt(rt))
  }

  function RequestPreemption(s: Sched): Sched
  {
    s.(runrun := s.runrun + 1, kprunrun := s.kprunrun + 1)
  }

  /** rt_preempt */
  function Preempt(s: Sched, p: nat): Sched
    requires Ready(s, p)
  {
    var rt := s.procs[p].cls.rt;
    var rt := if p == s.cur then rt.(ran := true) else rt;
    if rt.backq then
      SetBackDq(Store(s, p, SetRt(s.procs[p], rt.(timeleft := rt.pquantum, backq := false))), p)
    else
      SetFrontDq(Store(s, p, SetRt(s.procs[p], rt)), p)
  }

  /** rt_setrun and rt_wakeup, which do the same */
  function SetRun(s: Sched, p: nat): Sched
    requires Ready(s, p)
  {
    var rt := s.procs[p].cls.rt;
    var t := SetBackDq(Store(s, p, SetRt(s.procs[p], rt.(timeleft := rt.pquantum, backq := false))), p);
    if s.procs[p].pri > s.curpri then RequestPreemption(t) else t
  }

  /** rt_sleep */
  function Sleep(s: Sched, p: nat): Sched
    requires Ready(s, p)
  {
    Store(s, p, SetRt(s.procs[p], s.procs[p].cls.rt.(ran := true)))
  }

  /** rt_tick */
  function Tick(s: Sched, p: nat): Sched
    requires Ready(s, p)
  {
    var rt := s.procs[p].cls.rt;
    if rt.pquantum == TQINF then s
    else
      var rt := rt.(timeleft := rt.timeleft - 1);
      if rt.timeleft == 0 then RequestPreemption(Store(s, p, SetRt(s.procs[p], rt.(backq := true))))
      else Store(s, p, SetRt(s.procs[p], rt))
  }

  /** Dequeue, give the priority of level `rt.pri`, requeue. */
  function MoveToLevel(s: Sched, p: nat, pri: nat, queued: RtProc, unqueued: RtProc): Sched
    requires p < |s.procs| && s.procs[p].pri < |s.queues| && pri < |s.queues|
  {
    var t := DispDeq(s, p);
    var v := s.procs[p].(pri := pri);
    if OnQueue(s, p) then
      var t := SetBackDq(Store(t, p, SetRt(v, queued)), p);
      if pri > s.curpri then RequestPreemption(t) else t
    else
      Store(t, p, SetRt(v, unqueued))
  }

  /** The quantum part of rt_parmsset. */
  function SetQuantum(rt: RtProc, tab: seq<RtDpEnt>, tqntm: int): RtProc
    requires 0 <= rt.pri < |tab|
  {
    if tqntm == TQINF then rt.(pquantum := TQINF)
    else if tqntm == TQDEF then rt.(timeleft := tab[rt.pri].quantum, pquantum := tab[rt.pri].quantum)
    else if tqntm != NOCHANGE then rt.(timeleft := tqntm, pquantum := tqntm)
    else rt
  }

  /** The priority part of rt_parmsset. */
  function SetLevel(s: Sched, tab: seq<RtDpEnt>, p: nat, pri: int): Sched
    requires Ready(s, p) && TabOk(tab, |s.queues|) && QueuesMatch(s.procs, s.queues)
    requires pri == NOCHANGE || 0 <= pri < |tab|
  {
    if pri == NOCHANGE then s
    else
      var rt := s.procs[p].cls.rt.(pri := pri);
      var g := tab[pri].globpri;
      if p == s.cur then
        var v := s.procs[p].(pri := g);
        if g <= MaxRunPri(s) then
          RequestPreemption(Store(s, p, SetRt(v, rt.(backq := true)))).(curpri := g)
        else
          Store(s, p, SetRt(v, rt)).(curpri := g)
      else MoveToLevel(s, p, g, rt, rt.(backq := true))
  }

  /** rt_parmsset, once past its permission check. */
  function ParmsSet(s: Sched, tab: seq<RtDpEnt>, p: nat, pri: int, tqntm: int): Sched
    requires Ready(s, p) && TabOk(tab, |s.queues|) && QueuesMatch(s.procs, s.queues)
    requires 0 <= s.procs[p].cls.rt.pri < |tab|
    requires pri == NOCHANGE || 0 <= pri < |tab|
  {
    var t := SetLevel(s, tab, p, pri);
    Store(t, p, SetRt(t.procs[p], SetQuantum(t.procs[p].cls.rt, tab, tqntm)))
  }

  datatype Parms = Default | Given(pri: int, tqntm: int)

  predicate ParmsOk(parms: Parms, n: nat)
  {
    parms.Given? ==> parms.pri == NOCHANGE || 0 <= parms.pri < n
  }

  /** The class data rt_enterclass starts a process with. */
  function Initial(parms: Parms, tab: seq<RtDpEnt>): (rt: RtProc)
    requires |tab| > 0 && ParmsOk(parms, |tab|)
    ensures 0 <= rt.pri < |tab|
  {
    match parms
    case Default => RtProc(tab[0].quantum, 0, 0, false, false)
    case Given(pri, tqntm) =>
      var pri := if pri == NOCHANGE then 0 else pri;
      var q := if tqntm == TQINF then TQINF
               else if tqntm == TQDEF || tqntm == NOCHANGE then tab[pri].quantum
               else tqntm;
      RtProc(q, 0, pri, false, false)
  }

  /** rt_enterclass, once past its checks and with the process loaded. */
  function EnterClass(s: Sched, tab: seq<RtDpEnt>, p: nat, parms: Parms): Sched
    requires TabOk(tab, |s.queues|) && QueuesMatch(s.procs, s.queues) && ParmsOk(parms, |tab|)
    requires p < |s.procs| && s.procs[p].pri < |s.queues|
  {
    var rt := Initial(parms, tab);
    SetPriority(s, p, tab[rt.pri].globpri, rt).(rtList := [p] + s.rtList)
  }

  /** Its "reset process priority" step. */
  function SetPriority(s: Sched, p: nat, g: nat, rt: RtProc): Sched
    requires QueuesMatch(s.procs, s.queues) && p < |s.procs| && s.procs[p].pri < |s.queues| && g < |s.queues|
  {
    if p == s.cur then
      var v := s.procs[p].(pri := g);
      if g > MaxRunPri(s) then
        Store(s, p, SetRt(v, rt.(timeleft := rt.pquantum))).(curpri := g)
      else
        RequestPreemption(Store(s, p, SetRt(v, rt.(backq := true)))).(curpri := g)
    else
      MoveToLevel(s, p, g, rt.(timeleft := rt.pquantum), rt.(backq := true))
  }

  /** It does not look at the list. */
  lemma SetPriorityApart(s: Sched, p: nat, g: nat, rt: RtProc, list: seq<nat>)
    requires QueuesMatch(s.procs, s.queues) && p < |s.procs| && s.procs[p].pri < |s.queues| && g < |s.queues|
    ensures SetPriority(s.(rtList := list), p, g, rt) == SetPriority(s, p, g, rt).(rtList := list)
  {}

  /** rt_fork followed by rt_forkret: the parent goes on running. */
  function Fork(s: Sched, parent: nat, child: nat): Sched
    requires Ready(s, parent) && child < |s.procs|
  {
    var pv := s.procs[parent];
    var cv := SetRt(pv, pv.cls.rt.(timeleft := pv.cls.rt.pquantum, backq := false)).(stat := SRun);
    SetBackDq(Store(s, child, cv).(rtList := [child] + s.rtList), child)
  }
}

/** The functions of rt.c, working on the dispatcher's memory. */
module RealTime {
  import opened Errors
  import opened SchedState
  import opened Dispatcher
  import R = RtSpec
  import TS = TimeSharing

  method Preempt(d: Dispatch, p: nat)
    requires d.Valid() && R.Ready(d.Abs(), p) && !OnQueue(d.Abs(), p)
    modifies d
    ensures d.Valid()
    ensures d.Abs() == R.Preempt(old(d.Abs()), p)
  {
    hide AllThreaded, Counted, Summarised;
    var rt := d.procs[p].cls.rt;
    if p == d.curproc {
      rt := rt.(ran := true);
    }
    if rt.backq {
      d.Store(p, R.SetRt(d.procs[p], rt.(timeleft := rt.pquantum, backq := false)));
      d.SetBackDq(p);
    } else {
      d.Store(p, R.SetRt(d.procs[p], rt));
      d.SetFrontDq(p);
    }
  }

  method SetRun(d: Dispatch, p: nat)
    requires d.Valid() && R.Ready(d.Abs(), p) && !OnQueue(d.Abs(), p)
    modifies d
    ensures d.Valid()
    ensures d.Abs() == R.SetRun(old(d.Abs()), p)
  {
    hide AllThreaded, Counted, Summarised;
    var rt := d.procs[p].cls.rt;
    d.Store(p, R.SetRt(d.procs[p], rt.(timeleft := rt.pquantum, backq := false)));
    d.SetBackDq(p);
    if d.procs[p].pri > d.curpri {
      d.runrun, d.kprunrun := d.runrun + 1, d.kprunrun + 1;
    }
  }

  method Tick(d: Dispatch, p: nat)
    requires d.Valid() && R.Ready(d.Abs(), p)
    modifies d
    ensures d.Valid()
    ensures d.Abs() == R.Tick(old(d.Abs()), p)
  {
    hide AllThreaded, Counted, Summarised;
    var rt := d.procs[p].cls.rt;
    if rt.pquantum != R.TQINF {
      rt := rt.(timeleft := rt.timeleft - 1);
      if rt.timeleft == 0 {
        d.Store(p, R.SetRt(d.procs[p], rt.(backq := true)));
        d.runrun, d.kprunrun := d.runrun + 1, d.kprunrun + 1;
      } else {
        d.Store(p, R.SetRt(d.procs[p], rt));
      }
    }
  }

  method MoveToLevel(d: Dispatch, p: nat, pri: nat, queued: RtProc, unqueued: RtProc)
    requires d.Valid() && p < |d.procs| && d.procs[p].pri < |d.queues| && pri < |d.queues|
    modifies d
    ensures d.Valid()
    ensures d.Abs() == R.MoveToLevel(old(d.Abs()), p, pri, queued, unqueued)
  {
    hide AllThreaded, Counted, Summarised;
    ghost var s := d.Abs();
    TS.DeqLeaves(d, p);
    var wasonq := d.DispDeq(p);
    var v := d.procs[p].(pri := pri);
    if wasonq {
      d.Store(p, R.SetRt(v, queued));
      TS.StillOff(d, s, p);
      d.SetBackDq(p);
      if pri > d.curpri {
        d.runrun, d.kprunrun := d.runrun + 1, d.kprunrun + 1;
      }
    } else {
      d.Store(p, R.SetRt(v, unqueued));
    }
  }

  /** rt_parmsset; `fromRt` says the requester is itself real-time. */
  method ParmsSet(d: Dispatch, tab: seq<RtDpEnt>, p: nat, pri: int, tqntm: int, cred: TS.Cred, fromRt: bool)
    returns (err: Errno)
    requires d.Valid() && R.Ready(d.Abs(), p) && R.TabOk(tab, |d.queues|)
    requires 0 <= d.procs[p].cls.rt.pri < |tab|
    requires pri == R.NOCHANGE || 0 <= pri < |tab|
    requires p == d.curproc ==> !OnQueue(d.Abs(), p)
    modifies d
    ensures d.Valid() && QueuesMatch(old(d.procs), old(d.queues))
    ensures err == if cred.Ordinary? && !fromRt then NotPermitted else Ok
    ensures d.Abs() == if err.Ok? then R.ParmsSet(old(d.Abs()), tab, p, pri, tqntm) else old(d.Abs())
  {
    hide AllThreaded, Counted, Summarised, QueuesMatch, R.SetLevel, OnQueue, R.SetQuantum;
    CountedMatches(d.procs, d.queues, d.dqSrunCnt);
    if !cred.Null? && !fromRt && !cred.Super? {
      return NotPermitted;
    }
    ghost var s := d.Abs();
    LevelKept(s, tab, p, pri);
    SetLevel(d, tab, p, pri);
    var rt := R.SetQuantum(d.procs[p].cls.rt, tab, tqntm);
    SameForCounts(d, p, rt);
    d.Store(p, R.SetRt(d.procs[p], rt));
    return Ok;
  }

  lemma SameForCounts(d: Dispatch, p: nat, rt: RtProc)
    requires p < |d.procs|
    ensures R.SetRt(d.procs[p], rt).pri == d.procs[p].pri
    ensures Schedulable(R.SetRt(d.procs[p], rt)) == Schedulable(d.procs[p])
  {}

  lemma LevelKept(s: Sched, tab: seq<RtDpEnt>, p: nat, pri: int)
    requires R.Ready(s, p) && R.TabOk(tab, |s.queues|) && QueuesMatch(s.procs, s.queues)
    requires 0 <= s.procs[p].cls.rt.pri < |tab|
    requires pri == R.NOCHANGE || 0 <= pri < |tab|
    ensures var t := R.SetLevel(s, tab, p, pri);
            && |t.procs| == |s.procs| && t.procs[p].cls.Rt? && 0 <= t.procs[p].cls.rt.pri < |tab|
  {}

  method SetLevel(d: Dispatch, tab: seq<RtDpEnt>, p: nat, pri: int)
    requires d.Valid() && R.Ready(d.Abs(), p) && R.TabOk(tab, |d.queues|)
    requires pri == R.NOCHANGE || 0 <= pri < |tab|
    requires p == d.curproc ==> !OnQueue(d.Abs(), p)
    modifies d
    ensures d.Valid() && QueuesMatch(old(d.procs), old(d.queues))
    ensures d.Abs() == R.SetLevel(old(d.Abs()), tab, p, pri)
  {
    hide AllThreaded, Counted, Summarised, QueuesMatch, MaxRunPri, R.MoveToLevel;
    CountedMatches(d.procs, d.queues, d.dqSrunCnt);
    d.MaxRunPriIsHighest();
    if pri != R.NOCHANGE {
      var rt := d.procs[p].cls.rt.(pri := pri);
      var g := tab[pri].globpri;
      if p == d.curproc {
        d.curpri := g;
        var v := d.procs[p].(pri := g);
        if g <= d.maxrunpri {
          d.Store(p, R.SetRt(v, rt.(backq := true)));
          d.runrun, d.kprunrun := d.runrun + 1, d.kprunrun + 1;
        } else {
          d.Store(p, R.SetRt(v, rt));
        }
      } else {
        MoveToLevel(d, p, g, rt, rt.(backq := true));
      }
    }
  }

  /** rt_enterclass once the process is loaded; see `MarkLoaded` for the step before it. */
  method EnterClass(d: Dispatch, tab: seq<RtDpEnt>, p: nat, parms: R.Parms)
    requires d.Valid() && R.TabOk(tab, |d.queues|) && R.ParmsOk(parms, |tab|)
    requires p < |d.procs| && d.procs[p].pri < |d.queues|
    requires p == d.curproc ==> !OnQueue(d.Abs(), p)
    modifies d
    ensures d.Valid() && QueuesMatch(old(d.procs), old(d.queues))
    ensures d.Abs() == R.EnterClass(old(d.Abs()), tab, p, parms)
  {
    hide AllThreaded, Counted, Summarised, QueuesMatch, R.SetPriority;
    CountedMatches(d.procs, d.queues, d.dqSrunCnt);
    var rt := R.Initial(parms, tab);
    ghost var s := d.Abs();
    R.SetPriorityApart(s, p, tab[rt.pri].globpri, rt, [p] + s.rtList);
    d.rtList := [p] + d.rtList;
    SetPriority(d, p, tab[rt.pri].globpri, rt);
  }

  /** Its "reset process priority" step. */
  method SetPriority(d: Dispatch, p: nat, g: nat, rt: RtProc)
    requires d.Valid() && p < |d.procs| && d.procs[p].pri < |d.queues| && g < |d.queues|
    requires p == d.curproc ==> !OnQueue(d.Abs(), p)
    modifies d
    ensures d.Valid() && QueuesMatch(old(d.procs), old(d.queues))
    ensures d.Abs() == R.SetPriority(old(d.Abs()), p, g, rt)
  {
    hide AllThreaded, Counted, Summarised, QueuesMatch, MaxRunPri, R.MoveToLevel;
    CountedMatches(d.procs, d.queues, d.dqSrunCnt);
    d.MaxRunPriIsHighest();
    if p == d.curproc {
      d.curpri := g;
      var v := d.procs[p].(pri := g);
      if d.curpri > d.maxrunpri {
        d.Store(p, R.SetRt(v, rt.(timeleft := rt.pquantum)));
      } else {
        d.Store(p, R.SetRt(v, rt.(backq := true)));
        d.runrun, d.kprunrun := d.runrun + 1, d.kprunrun + 1;
      }
    } else {
      MoveToLevel(d, p, g, rt.(timeleft := rt.pquantum), rt.(backq := true));
    }
  }
}

/** Changes of SLOAD and SPROCIO that must move the run counts with them. */
module RunFlags {
  import opened SchedState
  import opened Dispatcher

  /** Every runnable process is queued, and system processes stay loaded. */
  predicate Settled(s: Sched, p: nat)
  {
    p < |s.procs| && s.procs[p].pri < |s.queues|
    && (s.procs[p].stat == SRun <==> OnQueue(s, p))
    && (s.procs[p].sys ==> s.procs[p].load)
  }

  /** rt_enterclass and sched() marking an unloaded process loaded. */
  method MarkLoaded(d: Dispatch, p: nat)
    requires d.Valid() && Settled(d.Abs(), p) && !d.procs[p].load
    modifies d
    ensures d.Valid()
    ensures d.Abs() == Store(old(d.Abs()), p, old(d.procs[p]).(load := true))
  {
    hide AllThreaded, Counted, Summarised, OnQueue;
    var v := d.procs[p];
    d.StoreFlags(p, v.(load := true), v.stat == SRun && !v.load && !v.procio, false);
  }

  /** sched() unloading the process it nominated. */
  method MarkUnloaded(d: Dispatch, p: nat)
    requires d.Valid() && Settled(d.Abs(), p)
    requires d.procs[p].load && !d.procs[p].sys && !d.procs[p].procio
    modifies d
    ensures d.Valid()
    ensures d.Abs() == Store(old(d.Abs()), p, old(d.procs[p]).(load := false))
  {
    hide AllThreaded, Counted, Summarised, OnQueue;
    var v := d.procs[p];
    d.StoreFlags(p, v.(load := false), false, v.stat == SRun);
  }

  /** prlock taking hold of another process. */
  method ProcIoBegin(d: Dispatch, p: nat)
    requires d.Valid() && Settled(d.Abs(), p) && !d.procs[p].procio
    modifies d
    ensures d.Valid()
    ensures d.Abs() == Store(old(d.Abs()), p, old(d.procs[p]).(procio := true))
  {
    hide AllThreaded, Counted, Summarised, OnQueue;
    var v := d.procs[p];
    d.StoreFlags(p, v.(procio := true), false, v.stat == SRun && v.load && !v.sys);
  }

  /** prunlock letting go again. */
  method ProcIoEnd(d: Dispatch, p: nat)
    requires d.Valid() && Settled(d.Abs(), p) && d.procs[p].procio
    modifies d
    ensures d.Valid()
    ensures var counted := old(d.procs[p].stat == SRun && d.procs[p].load && !d.procs[p].sys);
            var t := Store(old(d.Abs()), p, old(d.procs[p]).(procio := false));
            d.Abs() == if counted && old(d.procs[p].pri > d.curpri) then t.(runrun := t.runrun + 1) else t
  {
    hide AllThreaded, Counted, Summarised, OnQueue;
    var v := d.procs[p];
    var counted := v.stat == SRun && v.load && !v.sys;
    d.StoreFlags(p, v.(procio := false), counted, false);
    if counted {
      if v.pri > d.curpri {
        d.runrun := d.runrun + 1;
      }
    }
  }

  /** rt_enterclass tests SLOAD and SPROCIO but not SSYS before it counts a newly loaded process:
      the counts stay right exactly when the process is not an unloaded system process that was
      counted already. There is none in any run (`SchedRuns.RunsFromBoot`). */
  lemma MarkLoadedKeepsCountsIff(procs: seq<Proc>, queues: seq<seq<nat>>, cnt: seq<nat>, p: nat)
    requires Counted(procs, queues, cnt) && p < |procs| && procs[p].pri < |queues|
    requires !procs[p].load && (procs[p].stat == SRun <==> p in queues[procs[p].pri])
    ensures |cnt| == |queues|
    ensures var v := procs[p];
            var cnt' := if v.stat == SRun && !v.procio then cnt[v.pri := cnt[v.pri] + 1] else cnt;
            Counted(procs[p := v.(load := true)], queues, cnt') <==> !(v.stat == SRun && v.sys && !v.procio)
  {
    var v := procs[p];
    var v' := v.(load := true);
    if v.stat == SRun && !v.sys && !v.procio {
      CountedFlip(procs, queues, cnt, p, v');
    } else {
      forall i | 0 <= i < |queues| && p in queues[i] ensures i == v.pri {
        assert QueueMatches(procs, queues[i], i);
      }
      CountedStore(procs, queues, cnt, p, v');
    }
  }
}
