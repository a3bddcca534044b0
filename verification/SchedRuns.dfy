/** The invariant of the scheduler as a whole, and its proof over every run. */
module SchedInv {
  import opened Common
  import opened SchedState
  import T = TsSpec
  import R = RtSpec

  /** What never changes: rt_dptbl's priorities, ts_maxupri and proc_sched. */
  datatype Config = Config(rtTab: seq<RtDpEnt>, maxUpri: int, sched: nat)

  /** A process's own record is in order: its priority is the one its class data names. */
  predicate ProcOk(c: Config, tab: seq<TsDpEnt>, npri: nat, v: Proc)
    requires T.TabOk(tab, npri) && R.TabOk(c.rtTab, npri)
  {
    && v.pri < npri
    && (v.stat == SOnProc ==> v.load)
    && (v.sys ==> v.load)
    && match v.cls
       case Sys => true
       case Ts(ts) => T.TsOk(ts, |tab|) && (!ts.kpri ==> v.pri == tab[ts.umdpri].globpri)
       case Rt(rt) => 0 <= rt.pri < |c.rtTab| && v.pri == c.rtTab[rt.pri].globpri
  }

  /** A process is queued exactly when it may be picked: it is runnable, or it is the
      current process on its way out. */
  predicate Placed(s: Sched, q: nat)
    requires q < |s.procs|
  {
    && (s.procs[q].stat == SRun ==> OnQueue(s, q))
    && (OnQueue(s, q) ==> s.procs[q].stat == SRun || (q == s.cur && s.procs[q].stat == SOnProc))
    && (s.procs[q].stat == SOnProc ==> q == s.cur)
  }

  ghost predicate Core(c: Config, s: Sched)
  {
    && T.TabOk(s.tsTab, |s.queues|) && R.TabOk(c.rtTab, |s.queues|)
    && c.maxUpri > 0 && c.sched < |s.procs| && s.cur < |s.procs|
    && QueuesMatch(s.procs, s.queues)
    && forall q :: 0 <= q < |s.procs| ==> ProcOk(c, s.tsTab, |s.queues|, s.procs[q])
  }

  ghost predicate Good(c: Config, s: Sched)
  {
    Core(c, s) && forall q :: 0 <= q < |s.procs| ==> Placed(s, q)
  }

  /** `Good`, but for one process that has been taken off every queue. */
  ghost predicate GoodBut(c: Config, s: Sched, p: nat)
  {
    && Core(c, s) && p < |s.procs|
    && (forall i :: 0 <= i < |s.queues| ==> p !in s.queues[i])
    && forall q :: 0 <= q < |s.procs| && q != p ==> Placed(s, q)
  }

  /** `list` holds the members, once each. */
  predicate Listed(list: seq<nat>, member: seq<bool>)
  {
    && Distinct(list)
    && (forall k :: 0 <= k < |list| ==> list[k] < |member|)
    && forall q :: 0 <= q < |member| ==> (member[q] <==> q in list)
  }

  function TsMembers(s: Sched): (m: seq<bool>)
    ensures |m| == |s.procs| && forall q :: 0 <= q < |m| ==> m[q] == s.procs[q].cls.Ts?
  {
    seq(|s.procs|, q requires 0 <= q < |s.procs| => s.procs[q].cls.Ts?)
  }

  function RtMembers(s: Sched): (m: seq<bool>)
    ensures |m| == |s.procs| && forall q :: 0 <= q < |m| ==> m[q] == s.procs[q].cls.Rt?
  {
    seq(|s.procs|, q requires 0 <= q < |s.procs| => s.procs[q].cls.Rt?)
  }

  /** The lists headed by ts_plisthead and rt_plisthead hold the processes of their classes. */
  predicate ListOk(s: Sched)
  {
    Listed(s.tsList, TsMembers(s)) && Listed(s.rtList, RtMembers(s))
  }

  ghost predicate Inv(c: Config, s: Sched)
  {
    Good(c, s) && ListOk(s)
  }

  // ------------------------------------------------------ steps of a proof

  lemma DeqGood(c: Config, s: Sched, p: nat)
    requires Good(c, s) && p < |s.procs|
    ensures s.procs[p].pri < |s.queues| && GoodBut(c, DispDeq(s, p), p)
  {
    var t := DispDeq(s, p);
    var i := s.procs[p].pri;
    assert ProcOk(c, s.tsTab, |s.queues|, s.procs[p]);
    assert QueueMatches(s.procs, s.queues[i], i);
    RemoveMembers(s.queues[i], p);
    assert QueueMatches(t.procs, t.queues[i], i) by {
      forall k | 0 <= k < |t.queues[i]| ensures t.queues[i][k] in s.queues[i] {
        assert t.queues[i][k] in t.queues[i];
      }
    }
    forall j | 0 <= j < |t.queues| ensures p !in t.queues[j] && QueueMatches(t.procs, t.queues[j], j) {
      assert QueueMatches(s.procs, s.queues[j], j);
    }
    forall q | 0 <= q < |t.procs| && q != p ensures Placed(t, q) {
      assert Placed(s, q);
      assert OnQueue(t, q) == OnQueue(s, q);
    }
  }

  lemma OffGood(c: Config, s: Sched, p: nat)
    requires Good(c, s) && p < |s.procs| && !OnQueue(s, p)
    ensures GoodBut(c, s, p)
  {
    forall i | 0 <= i < |s.queues| ensures p !in s.queues[i] {
      assert QueueMatches(s.procs, s.queues[i], i);
    }
  }

  lemma StoreBut(c: Config, s: Sched, p: nat, v: Proc)
    requires GoodBut(c, s, p) && ProcOk(c, s.tsTab, |s.queues|, v)
    ensures GoodBut(c, Store(s, p, v), p)
  {
    var t := Store(s, p, v);
    forall i | 0 <= i < |t.queues| ensures QueueMatches(t.procs, t.queues[i], i) {
      assert QueueMatches(s.procs, s.queues[i], i);
      assert forall k :: 0 <= k < |s.queues[i]| ==> s.queues[i][k] in s.queues[i];
    }
    forall q | 0 <= q < |t.procs| && q != p ensures Placed(t, q) {
      assert Placed(s, q);
    }
  }

  /** A store that changes neither the priority nor the state. */
  lemma StoreGood(c: Config, s: Sched, p: nat, v: Proc)
    requires Good(c, s) && p < |s.procs| && ProcOk(c, s.tsTab, |s.queues|, v)
    requires v.pri == s.procs[p].pri && v.stat == s.procs[p].stat
    ensures Good(c, Store(s, p, v))
  {
    var t := Store(s, p, v);
    forall i | 0 <= i < |t.queues| ensures QueueMatches(t.procs, t.queues[i], i) {
      assert QueueMatches(s.procs, s.queues[i], i);
    }
    forall q | 0 <= q < |t.procs| ensures Placed(t, q) {
      assert Placed(s, q);
    }
  }

  lemma RequeueGood(c: Config, s: Sched, p: nat, q: seq<nat>)
    requires GoodBut(c, s, p) && s.procs[p].pri < |s.queues|
    requires s.procs[p].stat == SRun || (p == s.cur && s.procs[p].stat == SOnProc)
    requires q == s.queues[s.procs[p].pri] + [p] || q == [p] + s.queues[s.procs[p].pri]
    ensures Good(c, s.(queues := s.queues[s.procs[p].pri := q]))
  {
    var i := s.procs[p].pri;
    var t := s.(queues := s.queues[i := q]);
    assert QueueMatches(s.procs, s.queues[i], i);
    assert QueueMatches(t.procs, t.queues[i], i);
    forall x | 0 <= x < |t.procs| ensures Placed(t, x) {
      if x != p {
        assert Placed(s, x);
        assert OnQueue(t, x) == OnQueue(s, x);
      }
    }
  }

  lemma BackGood(c: Config, s: Sched, p: nat)
    requires GoodBut(c, s, p)
    requires s.procs[p].stat == SRun || (p == s.cur && s.procs[p].stat == SOnProc)
    ensures s.procs[p].pri < |s.queues| && Good(c, SetBackDq(s, p))
  {
    assert ProcOk(c, s.tsTab, |s.queues|, s.procs[p]);
    RequeueGood(c, s, p, s.queues[s.procs[p].pri] + [p]);
  }

  lemma FrontGood(c: Config, s: Sched, p: nat)
    requires GoodBut(c, s, p)
    requires s.procs[p].stat == SRun || (p == s.cur && s.procs[p].stat == SOnProc)
    ensures s.procs[p].pri < |s.queues| && Good(c, SetFrontDq(s, p))
  {
    assert ProcOk(c, s.tsTab, |s.queues|, s.procs[p]);
    RequeueGood(c, s, p, [p] + s.queues[s.procs[p].pri]);
  }

  lemma IdleGood(c: Config, s: Sched, p: nat)
    requires GoodBut(c, s, p)
    requires s.procs[p].stat != SRun && (s.procs[p].stat == SOnProc ==> p == s.cur)
    ensures Good(c, s)
  {
    assert ProcOk(c, s.tsTab, |s.queues|, s.procs[p]);
  }

  /** `Good` reads the processes, the queues, the current process and the table. */
  lemma MetaGood(c: Config, s: Sched, t: Sched)
    requires Good(c, s)
    requires t.procs == s.procs && t.queues == s.queues && t.cur == s.cur && t.tsTab == s.tsTab
    ensures Good(c, t)
  {
    forall q | 0 <= q < |t.procs| ensures Placed(t, q) {
      assert Placed(s, q);
    }
  }

  /** Facts about one process of a good state, without unfolding it. */
  lemma At(c: Config, s: Sched, p: nat)
    requires Good(c, s) && p < |s.procs|
    ensures T.TabOk(s.tsTab, |s.queues|) && R.TabOk(c.rtTab, |s.queues|)
    ensures s.cur < |s.procs| && QueuesMatch(s.procs, s.queues)
    ensures ProcOk(c, s.tsTab, |s.queues|, s.procs[p]) && Placed(s, p)
    ensures s.procs[p].cls.Ts? ==> T.Ready(s, p)
    ensures s.procs[p].cls.Rt? ==> R.Ready(s, p)
  {}

  predicate SameKinds(s: Sched, t: Sched)
  {
    && |t.procs| == |s.procs| && t.tsList == s.tsList && t.rtList == s.rtList
    && forall q :: 0 <= q < |s.procs| ==>
         t.procs[q].cls.Ts? == s.procs[q].cls.Ts? && t.procs[q].cls.Rt? == s.procs[q].cls.Rt?
  }

  lemma ListKept(s: Sched, t: Sched)
    requires ListOk(s) && SameKinds(s, t)
    ensures ListOk(t)
  {
    assert TsMembers(t) == TsMembers(s) && RtMembers(t) == RtMembers(s);
  }

  /** A process joins a list at its head, or leaves it. */
  lemma ListChanged(list: seq<nat>, member: seq<bool>, p: nat)
    requires Listed(list, member) && p < |member|
    ensures !member[p] ==> Listed([p] + list, member[p := true]) && Remove(list, p) == list
    ensures Listed(Remove(list, p), member[p := false])
  {
    RemoveMembers(list, p);
    forall k | 0 <= k < |Remove(list, p)| ensures Remove(list, p)[k] < |member| {
      assert Remove(list, p)[k] in list;
    }
    if !member[p] { RemoveAbsent(list, p); }
  }

  /** The lists after process `p` has changed its class. */
  predicate Relisted(s: Sched, t: Sched, p: nat)
    requires p < |s.procs| == |t.procs|
  {
    && (forall q :: 0 <= q < |s.procs| && q != p ==>
          t.procs[q].cls.Ts? == s.procs[q].cls.Ts? && t.procs[q].cls.Rt? == s.procs[q].cls.Rt?)
    && (t.procs[p].cls.Ts? ==> !s.procs[p].cls.Ts?) && (t.procs[p].cls.Rt? ==> !s.procs[p].cls.Rt?)
    && t.tsList == (if t.procs[p].cls.Ts? then [p] + s.tsList else Remove(s.tsList, p))
    && t.rtList == (if t.procs[p].cls.Rt? then [p] + s.rtList else Remove(s.rtList, p))
  }

  lemma MembersMoved(s: Sched, t: Sched, p: nat)
    requires p < |s.procs| == |t.procs| && Relisted(s, t, p)
    ensures TsMembers(t) == TsMembers(s)[p := t.procs[p].cls.Ts?]
    ensures RtMembers(t) == RtMembers(s)[p := t.procs[p].cls.Rt?]
  {}

  lemma ListMoved(s: Sched, t: Sched, p: nat)
    requires ListOk(s) && p < |s.procs| == |t.procs| && Relisted(s, t, p)
    ensures ListOk(t)
  {
    hide Listed, Remove;
    MembersMoved(s, t, p);
    ListChanged(s.tsList, TsMembers(s), p);
    ListChanged(s.rtList, RtMembers(s), p);
  }

  /** A process that is on neither list is left on neither by taking it off. */
  lemma OffLists(s: Sched, p: nat)
    requires ListOk(s) && p < |s.procs|
    ensures !s.procs[p].cls.Ts? ==> Remove(s.tsList, p) == s.tsList
    ensures !s.procs[p].cls.Rt? ==> Remove(s.rtList, p) == s.rtList
  {
    hide Listed, Remove;
    ListChanged(s.tsList, TsMembers(s), p);
    ListChanged(s.rtList, RtMembers(s), p);
  }
}

/** The scheduler as a state machine: process-level calls, interrupts and pswtch as
    atomic steps, and what holds after every run. */
module SchedRuns {
  import opened SchedState
  import opened SchedInv
  import opened Dispatcher
  import RunFlags
  import T = TsSpec
  import R = RtSpec

  datatype Event =
    | ClockTick                                  // CL_TICK of the current process
    | TsUpdate                                   // ts_update from the callout table
    | Preempt                                    // CL_PREEMPT of the current process
    | Swtch                                      // pswtch
    | Sleep(kpri: nat)                           // sleep() up to swtch()
    | Stop
    | Exit                                       // up to its swtch()
    | Reap(p: nat)                               // freeproc
    | TrapRet
    | Wakeup(p: nat, noprmpt: bool)
    | SetRun(p: nat)
    | TsParms(p: nat, lim: int, upri: int)
    | TsEnter(p: nat, tparms: T.Parms)
    | RtParms(p: nat, level: int, tqntm: int)
    | RtEnter(p: nat, rparms: R.Parms)
    | Fork(child: nat, sys: bool)                // newproc, with or without NP_SYSPROC
    | Load(p: nat)
    | Unload(p: nat)
    | ProcIo(p: nat, on: bool)
    | ClearSys
    | SetTable(table: seq<TsDpEnt>)

  /** The current process is executing, outside the window between CL_PREEMPT and pswtch. */
  predicate Running(s: Sched)
  {
    s.cur < |s.procs| && s.procs[s.cur].stat == SOnProc && !OnQueue(s, s.cur)
  }

  /** Neither a free slot nor a zombie. */
  predicate Live(v: Proc)
  {
    v.stat != SIdl && v.stat != SZomb
  }

  /** A slot of the process table as pid_assign hands it out. */
  function FreeSlot(): Proc
  {
    Proc(SIdl, false, false, false, 0, Sys)
  }

  predicate Enabled(c: Config, s: Sched, e: Event)
  {
    s.cur < |s.procs| &&
    match e
    case ClockTick => s.procs[s.cur].stat == SOnProc
    case TsUpdate => true
    case Preempt => Running(s)
    case Swtch => s.procs[s.cur].stat == SOnProc ==> OnQueue(s, s.cur)
    case Sleep(kpri) => Running(s) && kpri < |s.queues|
    case Stop => Running(s)
    case Exit => Running(s)
    case Reap(p) => Running(s) && p < |s.procs| && p != s.cur && s.procs[p].stat == SZomb && s.procs[p].cls.Sys?
    case TrapRet => Running(s)
    case Wakeup(p, _) => p < |s.procs| && s.procs[p].stat == SSleep
    case SetRun(p) => p < |s.procs| && (s.procs[p].stat == SSleep || s.procs[p].stat == SStop)
    case TsParms(p, _, _) => Running(s) && p < |s.procs| && s.procs[p].cls.Ts?
    case TsEnter(p, _) => Running(s) && p < |s.procs| && !s.procs[p].cls.Ts? && Live(s.procs[p])
    case RtParms(p, level, _) =>
      Running(s) && p < |s.procs| && s.procs[p].cls.Rt? && (level == R.NOCHANGE || 0 <= level < |c.rtTab|)
    case RtEnter(p, parms) =>
      && Running(s) && p < |s.procs| && !s.procs[p].cls.Rt? && Live(s.procs[p]) && s.procs[p].load
      && R.ParmsOk(parms, |c.rtTab|)
    case Fork(child, _) =>
      Running(s) && child < |s.procs| && s.procs[child].stat == SIdl && s.procs[child].cls.Sys?
    case Load(p) => Running(s) && p < |s.procs| && !s.procs[p].load
    case Unload(p) =>
      Running(s) && p < |s.procs| && p != s.cur && s.procs[p].load && !s.procs[p].sys && !s.procs[p].procio
    case ProcIo(p, on) => Running(s) && p < |s.procs| && p != s.cur && s.procs[p].procio != on
    case ClearSys => Running(s)
    case SetTable(table) =>
      Running(s) && T.Acceptable(table, |s.tsTab|) && forall i :: 0 <= i < |table| ==> table[i].maxwait < 0x8000
  }

  /** Everything a step needs to know about a good state before it acts on process `p`. */
  predicate Usable(c: Config, s: Sched, p: nat)
  {
    && T.TabOk(s.tsTab, |s.queues|) && R.TabOk(c.rtTab, |s.queues|) && c.maxUpri > 0
    && QueuesMatch(s.procs, s.queues)
    && p < |s.procs| && ProcOk(c, s.tsTab, |s.queues|, s.procs[p])
  }

  function SetStat(s: Sched, p: nat, stat: Stat): Sched
    requires p < |s.procs|
  {
    Store(s, p, s.procs[p].(stat := stat))
  }

  function ClPreempt(c: Config, s: Sched, p: nat): Sched
    requires Usable(c, s, p)
  {
    match s.procs[p].cls
    case Sys => SetFrontDq(s, p)
    case Ts(_) => T.Preempt(s, p)
    case Rt(_) => R.Preempt(s, p)
  }

  function ClSetRun(c: Config, s: Sched, p: nat): Sched
    requires Usable(c, s, p)
  {
    match s.procs[p].cls
    case Sys => SetBackDq(s, p)
    case Ts(_) => T.SetRun(s, p)
    case Rt(_) => R.SetRun(s, p)
  }

  function ClWakeup(c: Config, s: Sched, p: nat): Sched
    requires Usable(c, s, p)
  {
    match s.procs[p].cls
    case Sys => SetBackDq(s, p)
    case Ts(_) => T.Wakeup(s, p)
    case Rt(_) => R.SetRun(s, p)
  }

  function ClSleep(c: Config, s: Sched, p: nat, kpri: nat): Sched
    requires Usable(c, s, p)
  {
    match s.procs[p].cls
    case Sys => Store(s, p, s.procs[p].(pri := kpri))
    case Ts(_) => T.Sleep(s, p, kpri)
    case Rt(_) => R.Sleep(s, p)
  }

  /** pswtch: a current process still on the processor becomes runnable; then the best
      process is made current, or the machine idles as proc_sched. */
  function SwtchStep(c: Config, s: Sched): Sched
    requires Usable(c, s, s.cur)
  {
    var v := s.procs[s.cur];
    var t := if v.stat == SOnProc then SetStat(s, s.cur, SRun) else s;
    StatKeepsQueues(s, s.cur, t);
    if MaxRunPri(t) == -1 then t.(cur := c.sched, curpri := 0)
    else
      NextIsQueued(t);
      MakeCurrent(t, NextToRun(t))
  }

  lemma StatKeepsQueues(s: Sched, p: nat, t: Sched)
    requires p < |s.procs| && QueuesMatch(s.procs, s.queues)
    requires t == s || t == SetStat(s, p, SRun)
    ensures QueuesMatch(t.procs, t.queues)
  {
    forall i | 0 <= i < |t.queues| ensures QueueMatches(t.procs, t.queues[i], i) {
      assert QueueMatches(s.procs, s.queues[i], i);
    }
  }

  lemma NextIsQueued(s: Sched)
    requires QueuesMatch(s.procs, s.queues) && MaxRunPri(s) >= 0
    ensures NextToRun(s) < |s.procs| && s.procs[NextToRun(s)].pri < |s.queues|
  {}

  /** The wake-up of one process by wakeprocs. */
  function WakeupStep(c: Config, s: Sched, p: nat, noprmpt: bool): Sched
    requires Usable(c, s, p)
  {
    var t := SetStat(s, p, SRun);
    StatKeepsQueues(s, p, t);
    var t := ClWakeup(c, if noprmpt then t.(npwakecnt := t.npwakecnt + 1) else t, p);
    if s.procs[p].load && s.procs[p].pri > s.curpri && !noprmpt then t.(runrun := 1) else t
  }

  function SetRunStep(c: Config, s: Sched, p: nat): Sched
    requires Usable(c, s, p)
  {
    var t := SetStat(s, p, SRun);
    StatKeepsQueues(s, p, t);
    var t := ClSetRun(c, t, p);
    if s.procs[p].load && s.procs[p].pri > s.curpri then t.(runrun := 1) else t
  }

  /** CL_FORK and CL_FORKRET. */
  function ClFork(c: Config, s: Sched, child: nat): (t: Sched)
    requires Usable(c, s, s.cur) && child < |s.procs| && child != s.cur
    ensures |t.procs| == |s.procs|
  {
    match s.procs[s.cur].cls
    case Sys => SetBackDq(Store(s, child, s.procs[s.cur].(stat := SRun)), child)
    case Ts(_) => T.Fork(s, s.cur, child)
    case Rt(_) => R.Fork(s, s.cur, child)
  }

  ghost function Next(c: Config, s: Sched, e: Event): Sched
    requires Inv(c, s) && Enabled(c, s, e)
  {
    match e
    case ClockTick =>
      At(c, s, s.cur);
      if s.procs[s.cur].cls.Ts? then T.Tick(s, s.cur)
      else if s.procs[s.cur].cls.Rt? then R.Tick(s, s.cur)
      else s
    case TsUpdate => ListReady(c, s); T.Update(s)
    case Preempt => ClPreempt(c, s, s.cur)
    case Swtch => SwtchStep(c, s)
    case Sleep(kpri) =>
      StatKeepsQueues'(s, s.cur, SSleep);
      ClSleep(c, SetStat(s, s.cur, SSleep), s.cur, kpri)
    case Stop => SetStat(s, s.cur, SStop)
    case Exit =>
      Store(s, s.cur, s.procs[s.cur].(stat := SZomb, cls := Sys)).(tsList := Remove(s.tsList, s.cur), rtList := Remove(s.rtList, s.cur))
    case Reap(p) => Store(s, p, FreeSlot())
    case TrapRet =>
      At(c, s, s.cur);
      if s.procs[s.cur].cls.Ts? then T.TrapRet(s, s.cur) else s
    case Wakeup(p, noprmpt) => WakeupStep(c, s, p, noprmpt)
    case SetRun(p) => SetRunStep(c, s, p)
    case TsParms(p, lim, upri) => At(c, s, p); T.ParmsSet(s, p, lim, upri, c.maxUpri)
    case TsEnter(p, parms) => At(c, s, p); T.EnterClass(s, p, parms, c.maxUpri).(rtList := Remove(s.rtList, p))
    case RtParms(p, level, tqntm) => At(c, s, p); R.ParmsSet(s, c.rtTab, p, level, tqntm)
    case RtEnter(p, parms) =>
      At(c, s, p);
      var t := R.EnterClass(s, c.rtTab, p, parms);
      t.(tsList := Remove(s.tsList, p))
    case Fork(child, sys) =>
      var t := ClFork(c, s, child);
      Store(t, child, t.procs[child].(load := true, procio := false, sys := sys))
    case Load(p) => Store(s, p, s.procs[p].(load := true))
    case Unload(p) => Store(s, p, s.procs[p].(load := false))
    case ProcIo(p, on) =>
      var t := Store(s, p, s.procs[p].(procio := on));
      var v := s.procs[p];
      if !on && v.stat == SRun && v.load && !v.sys && v.pri > s.curpri then t.(runrun := t.runrun + 1) else t
    case ClearSys => Store(s, s.cur, s.procs[s.cur].(sys := false))
    case SetTable(table) => s.(tsTab := T.Overlay(s.tsTab, table))
  }

  lemma StatKeepsQueues'(s: Sched, p: nat, stat: Stat)
    requires p < |s.procs| && QueuesMatch(s.procs, s.queues)
    ensures QueuesMatch(SetStat(s, p, stat).procs, s.queues)
  {
    forall i | 0 <= i < |s.queues| ensures QueueMatches(SetStat(s, p, stat).procs, s.queues[i], i) {
      assert QueueMatches(s.procs, s.queues[i], i);
    }
  }

  lemma ListReady(c: Config, s: Sched)
    requires Inv(c, s)
    ensures T.AllReady(s, s.tsList)
  {
    forall k | 0 <= k < |s.tsList| ensures T.Ready(s, s.tsList[k]) {
      assert s.tsList[k] in s.tsList;
      At(c, s, s.tsList[k]);
    }
  }

  // -------------------------------------- each class operation keeps `Good`

  lemma MoveUserGood(c: Config, s: Sched, p: nat, ts: TsProc)
    requires Good(c, s) && p < |s.procs| && T.TsOk(ts, |s.tsTab|) && !ts.kpri
    ensures T.TabOk(s.tsTab, |s.queues|) && s.procs[p].pri < |s.queues|
    ensures Good(c, T.MoveToUserPri(s, p, ts))
  {
    hide Good, GoodBut, Core, QueuesMatch;
    At(c, s, p);
    DeqGood(c, s, p);
    var t := DispDeq(s, p);
    var v := s.procs[p].(pri := T.GlobPri(s, ts));
    if OnQueue(s, p) {
      var u := T.SetTs(v, ts.(timeleft := T.Quantum(s, ts)));
      StoreBut(c, t, p, u);
      BackGood(c, Store(t, p, u), p);
    } else {
      var u := T.SetTs(v, ts.(backq := true));
      StoreBut(c, t, p, u);
      IdleGood(c, Store(t, p, u), p);
    }
  }

  lemma MoveLevelGood(c: Config, s: Sched, p: nat, pri: nat, queued: RtProc, unqueued: RtProc)
    requires Good(c, s) && p < |s.procs| && queued.pri == unqueued.pri
    requires 0 <= queued.pri < |c.rtTab| && pri == c.rtTab[queued.pri].globpri
    ensures s.procs[p].pri < |s.queues| && pri < |s.queues|
    ensures Good(c, R.MoveToLevel(s, p, pri, queued, unqueued))
  {
    hide Good, GoodBut, Core, QueuesMatch;
    At(c, s, p);
    DeqGood(c, s, p);
    var t := DispDeq(s, p);
    var v := s.procs[p].(pri := pri);
    if OnQueue(s, p) {
      var u := R.SetRt(v, queued);
      StoreBut(c, t, p, u);
      BackGood(c, Store(t, p, u), p);
      MetaGood(c, SetBackDq(Store(t, p, u), p), R.MoveToLevel(s, p, pri, queued, unqueued));
    } else {
      var u := R.SetRt(v, unqueued);
      StoreBut(c, t, p, u);
      IdleGood(c, Store(t, p, u), p);
    }
  }

  /** A process off every queue may be given any record that is in order and not runnable. */
  lemma StoreIdleGood(c: Config, s: Sched, p: nat, v: Proc)
    requires Good(c, s) && p < |s.procs| && !OnQueue(s, p)
    requires T.TabOk(s.tsTab, |s.queues|) && R.TabOk(c.rtTab, |s.queues|)
    requires ProcOk(c, s.tsTab, |s.queues|, v) && v.stat != SRun && (v.stat == SOnProc ==> p == s.cur)
    ensures Good(c, Store(s, p, v))
  {
    hide Good, GoodBut, Core, QueuesMatch, ProcOk;
    OffGood(c, s, p);
    StoreBut(c, s, p, v);
    IdleGood(c, Store(s, p, v), p);
  }

  /** ... or be made runnable and queued. */
  lemma StoreBackGood(c: Config, s: Sched, p: nat, v: Proc)
    requires Good(c, s) && p < |s.procs| && !OnQueue(s, p)
    requires T.TabOk(s.tsTab, |s.queues|) && R.TabOk(c.rtTab, |s.queues|)
    requires ProcOk(c, s.tsTab, |s.queues|, v) && (v.stat == SRun || (p == s.cur && v.stat == SOnProc))
    ensures v.pri < |s.queues|
    ensures Good(c, SetBackDq(Store(s, p, v), p)) && Good(c, SetFrontDq(Store(s, p, v), p))
  {
    hide Good, GoodBut, Core, QueuesMatch;
    OffGood(c, s, p);
    StoreBut(c, s, p, v);
    BackGood(c, Store(s, p, v), p);
    FrontGood(c, Store(s, p, v), p);
  }

  lemma TickGood(c: Config, s: Sched, p: nat)
    requires Good(c, s) && p < |s.procs| && s.procs[p].cls.Ts?
    ensures T.Ready(s, p) && Good(c, T.Tick(s, p)) && SameKinds(s, T.Tick(s, p))
  {
    hide Good, GoodBut, Core, QueuesMatch;
    At(c, s, p);
    var ts := s.procs[p].cls.ts;
    if !ts.kpri {
      if ts.timeleft - 1 != 0 {
        StoreGood(c, s, p, T.SetTs(s.procs[p], ts.(timeleft := ts.timeleft - 1)));
      } else {
        var ts := T.NewUmdPri(ts.(timeleft := 0, cpupri := s.tsTab[ts.cpupri].tqexp), |s.tsTab|);
        MoveUserGood(c, s, p, ts.(dispwait := 0));
        MetaGood(c, T.MoveToUserPri(s, p, ts.(dispwait := 0)), T.Tick(s, p));
      }
    }
  }

  lemma UpdateOneGood(c: Config, s: Sched, p: nat)
    requires Good(c, s) && p < |s.procs| && s.procs[p].cls.Ts?
    ensures T.Ready(s, p) && Good(c, T.UpdateOne(s, p)) && SameKinds(s, T.UpdateOne(s, p))
  {
    hide Good, GoodBut, Core, QueuesMatch;
    At(c, s, p);
    var v := s.procs[p];
    if T.Waits(v) {
      var ts := v.cls.ts.(dispwait := T.ToShort(v.cls.ts.dispwait + 1));
      if ts.dispwait <= s.tsTab[ts.umdpri].maxwait {
        StoreGood(c, s, p, T.SetTs(v, ts));
      } else {
        var ts := T.NewUmdPri(ts.(cpupri := s.tsTab[ts.cpupri].lwait), |s.tsTab|);
        MoveUserGood(c, s, p, ts.(dispwait := 0));
        MetaGood(c, T.MoveToUserPri(s, p, ts.(dispwait := 0)), T.UpdateOne(s, p));
      }
    }
  }

  lemma {:induction false} UpdateListGood(c: Config, s: Sched, list: seq<nat>)
    requires Good(c, s) && T.AllReady(s, list)
    ensures Good(c, T.UpdateList(s, list)) && SameKinds(s, T.UpdateList(s, list))
    decreases |list|
  {
    hide Good, GoodBut, Core, QueuesMatch, T.UpdateOne;
    if list != [] {
      var t := T.UpdateOne(s, list[0]);
      assert T.Ready(s, list[0]);
      UpdateOneGood(c, s, list[0]);
      forall k | 0 <= k < |list| ensures T.Ready(t, list[k]) {
        T.UpdateOneReady(s, list[0], list[k]);
      }
      assert forall k :: 0 <= k < |list[1..]| ==> list[1..][k] == list[k + 1];
      UpdateListGood(c, t, list[1..]);
    }
  }

  lemma PreemptGood(c: Config, s: Sched)
    requires Good(c, s) && Running(s)
    ensures Usable(c, s, s.cur)
    ensures Good(c, ClPreempt(c, s, s.cur)) && SameKinds(s, ClPreempt(c, s, s.cur))
  {
    hide GoodBut, QueuesMatch;
    var p := s.cur;
    At(c, s, p);
    var v := s.procs[p];
    match v.cls {
      case Sys =>
        StoreBackGood(c, s, p, v);
        assert Store(s, p, v) == s;
      case Ts(ts) =>
        StoreBackGood(c, s, p, T.SetTs(v, ts.(timeleft := T.Quantum(s, ts), dispwait := 0, backq := false)));
        StoreBackGood(c, s, p, T.SetTs(v, ts.(backq := false)));
        StoreBackGood(c, s, p, T.SetTs(v, ts.(dispwait := 0, backq := false, fork := false)));
        StoreBackGood(c, s, p, v);
        assert Store(s, p, v) == s;
      case Rt(rt) =>
        var rt := rt.(ran := true);
        StoreBackGood(c, s, p, R.SetRt(v, rt));
        StoreBackGood(c, s, p, R.SetRt(v, rt.(timeleft := rt.pquantum, backq := false)));
    }
  }

  lemma SwtchGood(c: Config, s: Sched)
    requires Good(c, s) && Enabled(c, s, Swtch)
    ensures Usable(c, s, s.cur)
    ensures Good(c, SwtchStep(c, s)) && SameKinds(s, SwtchStep(c, s))
  {
    At(c, s, s.cur);
    var v := s.procs[s.cur];
    var t := if v.stat == SOnProc then SetStat(s, s.cur, SRun) else s;
    OutgoingGood(c, s, t);
    if MaxRunPri(t) == -1 {
      NobodyGood(c, t, c.sched);
    } else {
      NextIsQueued(t);
      CurrentGood(c, t, NextToRun(t));
    }
  }

  /** No process is on the processor between the two halves of pswtch. */
  ghost predicate NoneOnProc(s: Sched)
  {
    forall q :: 0 <= q < |s.procs| ==> s.procs[q].stat != SOnProc
  }

  lemma OutgoingGood(c: Config, s: Sched, t: Sched)
    requires Good(c, s) && Enabled(c, s, Swtch)
    requires t == if s.procs[s.cur].stat == SOnProc then SetStat(s, s.cur, SRun) else s
    ensures Good(c, t) && NoneOnProc(t)
  {
    StatKeepsQueues'(s, s.cur, SRun);
    forall q | 0 <= q < |t.procs|
      ensures Placed(t, q) && ProcOk(c, t.tsTab, |t.queues|, t.procs[q]) && t.procs[q].stat != SOnProc
    {
      assert Placed(s, q);
    }
  }

  lemma NobodyGood(c: Config, t: Sched, sched: nat)
    requires Good(c, t) && NoneOnProc(t) && sched < |t.procs|
    ensures Good(c, t.(cur := sched, curpri := 0))
  {
    var u := t.(cur := sched, curpri := 0);
    forall q | 0 <= q < |u.procs| ensures Placed(u, q) {
      assert Placed(t, q);
    }
  }

  lemma CurrentGood(c: Config, t: Sched, p: nat)
    requires Good(c, t) && NoneOnProc(t)
    requires OnQueue(t, p) && Schedulable(t.procs[p])
    ensures Good(c, MakeCurrent(t, p))
  {
    DeqGood(c, t, p);
    var u := DispDeq(t, p);
    var w := MakeCurrent(t, p);
    assert ProcOk(c, t.tsTab, |t.queues|, t.procs[p]);
    StoreBut(c, u, p, t.procs[p].(stat := SOnProc));
    assert w.procs == Store(u, p, t.procs[p].(stat := SOnProc)).procs;
    forall q | 0 <= q < |w.procs| ensures Placed(w, q) {
      assert Placed(t, q);
      if q != p {
        assert Placed(u, q);
      }
    }
    forall q | 0 <= q < |w.procs| ensures ProcOk(c, w.tsTab, |w.queues|, w.procs[q]) {}
  }

  lemma SleepGood(c: Config, s: Sched, kpri: nat)
    requires Good(c, s) && Running(s) && kpri < |s.queues|
    ensures Usable(c, SetStat(s, s.cur, SSleep), s.cur)
    ensures var t := ClSleep(c, SetStat(s, s.cur, SSleep), s.cur, kpri); Good(c, t) && SameKinds(s, t)
  {
    hide GoodBut, Good;
    var p := s.cur;
    At(c, s, p);
    MaxUpri(c, s);
    StatKeepsQueues'(s, p, SSleep);
    var t := ClSleep(c, SetStat(s, p, SSleep), p, kpri);
    StoreIdleGood(c, s, p, t.procs[p]);
    assert t == Store(s, p, t.procs[p]);
  }

  lemma TrapRetGood(c: Config, s: Sched)
    requires Good(c, s) && Running(s) && s.procs[s.cur].cls.Ts?
    ensures T.Ready(s, s.cur) && QueuesMatch(s.procs, s.queues)
    ensures Good(c, T.TrapRet(s, s.cur)) && SameKinds(s, T.TrapRet(s, s.cur))
  {
    hide GoodBut, Good, QueuesMatch;
    var p := s.cur;
    At(c, s, p);
    var t := T.TrapRet(s, p);
    StoreIdleGood(c, s, p, t.procs[p]);
    MetaGood(c, Store(s, p, t.procs[p]), t);
  }

  lemma WakeupGood(c: Config, s: Sched, p: nat, noprmpt: bool)
    requires Good(c, s) && p < |s.procs| && s.procs[p].stat == SSleep
    ensures Usable(c, s, p)
    ensures Good(c, WakeupStep(c, s, p, noprmpt)) && SameKinds(s, WakeupStep(c, s, p, noprmpt))
  {
    hide GoodBut, Good, QueuesMatch, T.TabOk, R.TabOk, MaxRunPri, Placed;
    At(c, s, p);
    MaxUpri(c, s);
    var v := s.procs[p].(stat := SRun);
    var t := WakeupStep(c, s, p, noprmpt);
    match v.cls {
      case Sys =>
        BackWith(c, s, p, v, t);
      case Ts(ts) =>
        BackWith(c, s, p, T.SetTs(v, ts.(backq := false, fork := false)), t);
      case Rt(rt) =>
        BackWith(c, s, p, R.SetRt(v, rt.(timeleft := rt.pquantum, backq := false)), t);
    }
  }

  lemma SetRunGood(c: Config, s: Sched, p: nat)
    requires Good(c, s) && p < |s.procs| && (s.procs[p].stat == SSleep || s.procs[p].stat == SStop)
    ensures Usable(c, s, p)
    ensures Good(c, SetRunStep(c, s, p)) && SameKinds(s, SetRunStep(c, s, p))
  {
    hide GoodBut, Good, QueuesMatch, T.TabOk, R.TabOk, MaxRunPri, Placed;
    At(c, s, p);
    MaxUpri(c, s);
    var v := s.procs[p].(stat := SRun);
    var t := SetRunStep(c, s, p);
    match v.cls {
      case Sys =>
        BackWith(c, s, p, v, t);
      case Ts(ts) =>
        var ts' := (if ts.kpri then ts else ts.(timeleft := T.Quantum(s, ts), dispwait := 0)).(backq := false, fork := false);
        BackWith(c, s, p, T.SetTs(v, ts'), t);
      case Rt(rt) =>
        BackWith(c, s, p, R.SetRt(v, rt.(timeleft := rt.pquantum, backq := false)), t);
    }
  }

  /** `t` is `s` with an idle process made runnable and put at the back of its queue. */
  lemma BackWith(c: Config, s: Sched, p: nat, w: Proc, t: Sched)
    requires Good(c, s) && p < |s.procs| && !OnQueue(s, p)
    requires T.TabOk(s.tsTab, |s.queues|) && R.TabOk(c.rtTab, |s.queues|)
    requires ProcOk(c, s.tsTab, |s.queues|, w) && w.stat == SRun
    requires w.cls.Ts? == s.procs[p].cls.Ts? && w.cls.Rt? == s.procs[p].cls.Rt?
    requires t.procs == s.procs[p := w] && t.cur == s.cur && t.tsTab == s.tsTab && t.tsList == s.tsList && t.rtList == s.rtList
    requires t.queues == s.queues[w.pri := s.queues[w.pri] + [p]]
    ensures Good(c, t) && SameKinds(s, t)
  {
    hide GoodBut, Good, QueuesMatch, ProcOk;
    StoreBackGood(c, s, p, w);
    MetaGood(c, SetBackDq(Store(s, p, w), p), t);
  }

  lemma AssignGood(c: Config, s: Sched, p: nat, ts: TsProc)
    requires Good(c, s) && p < |s.procs| && T.TsOk(ts, |s.tsTab|) && !ts.kpri
    requires Running(s)
    ensures T.TabOk(s.tsTab, |s.queues|) && s.procs[p].pri < |s.queues| && QueuesMatch(s.procs, s.queues)
    ensures var t := T.Assign(s, p, ts);
            && Good(c, t) && t.tsList == s.tsList && t.rtList == s.rtList && |t.procs| == |s.procs| && t.procs[p].cls.Ts?
            && forall q :: 0 <= q < |s.procs| && q != p ==> t.procs[q] == s.procs[q]
  {
    hide GoodBut, Good, QueuesMatch, MaxRunPri;
    At(c, s, p);
    var t := T.Assign(s, p, ts);
    if p == s.cur {
      StoreIdleGood(c, s, p, t.procs[p]);
      MetaGood(c, Store(s, p, t.procs[p]), t);
    } else {
      MoveUserGood(c, s, p, ts);
      MetaGood(c, T.MoveToUserPri(s, p, ts), t);
    }
  }

  lemma ParmsSetGood(c: Config, s: Sched, p: nat, lim: int, upri: int)
    requires Good(c, s) && Running(s) && p < |s.procs| && s.procs[p].cls.Ts? && c.maxUpri > 0
    ensures T.Ready(s, p) && QueuesMatch(s.procs, s.queues)
    ensures var t := T.ParmsSet(s, p, lim, upri, c.maxUpri); Good(c, t) && SameKinds(s, t)
  {
    hide GoodBut, Good, QueuesMatch, T.Assign;
    At(c, s, p);
    var ts := s.procs[p].cls.ts;
    var lim := T.Requested(ts.uprilim, lim);
    var pri := T.Requested(ts.upri, upri);
    pri := if pri > lim then lim else pri;
    ts := T.NewUmdPri(ts.(uprilim := lim, upri := pri), |s.tsTab|).(nice := T.NiceOf(upri, c.maxUpri));
    if ts.kpri {
      StoreGood(c, s, p, T.SetTs(s.procs[p], ts));
    } else {
      AssignGood(c, s, p, ts.(dispwait := 0));
    }
  }

  lemma TsEnterGood(c: Config, s: Sched, p: nat, parms: T.Parms)
    requires Inv(c, s) && Running(s) && p < |s.procs| && !s.procs[p].cls.Ts?
    ensures T.TabOk(s.tsTab, |s.queues|) && QueuesMatch(s.procs, s.queues) && c.maxUpri > 0
    ensures s.procs[p].pri < |s.queues|
    ensures Inv(c, T.EnterClass(s, p, parms, c.maxUpri).(rtList := Remove(s.rtList, p)))
  {
    hide GoodBut, QueuesMatch, T.Assign, T.Initial, ListOk;
    At(c, s, p);
    var ts := T.Initial(parms, |s.tsTab|, c.maxUpri);
    AssignGood(c, s, p, ts);
    var t := T.Assign(s, p, ts);
    var u := T.EnterClass(s, p, parms, c.maxUpri).(rtList := Remove(s.rtList, p));
    MetaGood(c, t, u);
    ListMoved(s, u, p);
  }

  lemma SetLevelGood(c: Config, s: Sched, p: nat, level: int)
    requires Good(c, s) && Running(s) && p < |s.procs| && s.procs[p].cls.Rt?
    requires level == R.NOCHANGE || 0 <= level < |c.rtTab|
    ensures R.Ready(s, p) && R.TabOk(c.rtTab, |s.queues|) && QueuesMatch(s.procs, s.queues)
    ensures var t := R.SetLevel(s, c.rtTab, p, level); Good(c, t) && SameKinds(s, t) && t.procs[p].cls.Rt?
  {
    hide GoodBut, Good, QueuesMatch, MaxRunPri;
    At(c, s, p);
    var t := R.SetLevel(s, c.rtTab, p, level);
    if level != R.NOCHANGE {
      var rt := s.procs[p].cls.rt.(pri := level);
      if p == s.cur {
        StoreIdleGood(c, s, p, t.procs[p]);
        MetaGood(c, Store(s, p, t.procs[p]), t);
      } else {
        MoveLevelGood(c, s, p, c.rtTab[level].globpri, rt, rt.(backq := true));
      }
    }
  }

  lemma RtParmsGood(c: Config, s: Sched, p: nat, level: int, tqntm: int)
    requires Good(c, s) && Running(s) && p < |s.procs| && s.procs[p].cls.Rt?
    requires level == R.NOCHANGE || 0 <= level < |c.rtTab|
    ensures R.Ready(s, p) && R.TabOk(c.rtTab, |s.queues|) && QueuesMatch(s.procs, s.queues)
    ensures 0 <= s.procs[p].cls.rt.pri < |c.rtTab|
    ensures var t := R.ParmsSet(s, c.rtTab, p, level, tqntm); Good(c, t) && SameKinds(s, t)
  {
    hide GoodBut, Good, QueuesMatch, R.SetLevel;
    At(c, s, p);
    SetLevelGood(c, s, p, level);
    var t := R.SetLevel(s, c.rtTab, p, level);
    At(c, t, p);
    StoreGood(c, t, p, R.SetRt(t.procs[p], R.SetQuantum(t.procs[p].cls.rt, c.rtTab, tqntm)));
  }

  lemma SetPriorityGood(c: Config, s: Sched, p: nat, rt: RtProc)
    requires Good(c, s) && Running(s) && p < |s.procs| && 0 <= rt.pri < |c.rtTab|
    ensures QueuesMatch(s.procs, s.queues) && s.procs[p].pri < |s.queues| && c.rtTab[rt.pri].globpri < |s.queues|
    ensures var t := R.SetPriority(s, p, c.rtTab[rt.pri].globpri, rt);
            && Good(c, t) && |t.procs| == |s.procs| && t.procs[p].cls.Rt? && t.tsList == s.tsList && t.rtList == s.rtList
            && forall q :: 0 <= q < |s.procs| && q != p ==> t.procs[q] == s.procs[q]
  {
    hide GoodBut, Good, QueuesMatch, MaxRunPri;
    At(c, s, p);
    var t := R.SetPriority(s, p, c.rtTab[rt.pri].globpri, rt);
    if p == s.cur {
      StoreIdleGood(c, s, p, t.procs[p]);
      MetaGood(c, Store(s, p, t.procs[p]), t);
    } else {
      MoveLevelGood(c, s, p, c.rtTab[rt.pri].globpri, rt.(timeleft := rt.pquantum), rt.(backq := true));
    }
  }

  lemma RtEnterGood(c: Config, s: Sched, p: nat, parms: R.Parms)
    requires Inv(c, s) && Running(s) && p < |s.procs| && !s.procs[p].cls.Rt? && R.ParmsOk(parms, |c.rtTab|)
    ensures R.TabOk(c.rtTab, |s.queues|) && QueuesMatch(s.procs, s.queues) && s.procs[p].pri < |s.queues|
    ensures Inv(c, R.EnterClass(s, c.rtTab, p, parms).(tsList := Remove(s.tsList, p)))
  {
    hide GoodBut, Good, QueuesMatch, MaxRunPri, R.Initial, ListOk, R.SetPriority, Remove;
    At(c, s, p);
    var rt := R.Initial(parms, c.rtTab);
    SetPriorityGood(c, s, p, rt);
    var t := R.SetPriority(s, p, c.rtTab[rt.pri].globpri, rt);
    var u := R.EnterClass(s, c.rtTab, p, parms).(tsList := Remove(s.tsList, p));
    MetaGood(c, t, u);
    ListMoved(s, u, p);
  }

  lemma FlagGood(c: Config, s: Sched, p: nat, v: Proc)
    requires Good(c, s) && p < |s.procs|
    requires v == s.procs[p].(load := v.load, procio := v.procio, sys := v.sys)
    requires (v.stat == SOnProc ==> v.load) && (v.sys ==> v.load)
    ensures Good(c, Store(s, p, v)) && SameKinds(s, Store(s, p, v))
  {
    hide GoodBut, Good, QueuesMatch;
    At(c, s, p);
    StoreGood(c, s, p, v);
  }

  lemma RtForkGood(c: Config, s: Sched, child: nat)
    requires Inv(c, s) && Running(s) && child < |s.procs| && s.procs[child].stat == SIdl && s.procs[child].cls.Sys?
    requires s.procs[s.cur].cls.Rt? && Usable(c, s, s.cur)
    ensures Inv(c, R.Fork(s, s.cur, child)) && R.Fork(s, s.cur, child).procs[child].stat == SRun
  {
    hide GoodBut, Good, QueuesMatch, ListOk, Remove;
    At(c, s, s.cur);
    At(c, s, child);
    var pv, u := s.procs[s.cur], R.Fork(s, s.cur, child);
    var cv := R.SetRt(pv, pv.cls.rt.(timeleft := pv.cls.rt.pquantum, backq := false)).(stat := SRun);
    StoreBackGood(c, s, child, cv);
    MetaGood(c, SetBackDq(Store(s, child, cv), child), u);
    OffLists(s, child);
    ListMoved(s, u, child);
  }

  lemma TsForkGood(c: Config, s: Sched, child: nat)
    requires Inv(c, s) && Running(s) && child < |s.procs| && s.procs[child].stat == SIdl && s.procs[child].cls.Sys?
    requires s.procs[s.cur].cls.Ts? && Usable(c, s, s.cur)
    ensures T.Ready(s, s.cur) && Inv(c, T.Fork(s, s.cur, child)) && T.Fork(s, s.cur, child).procs[child].stat == SRun
  {
    hide GoodBut, Good, QueuesMatch, ListOk, Remove;
    At(c, s, s.cur);
    At(c, s, child);
    var p := s.cur;
    var pv, u := s.procs[p], T.Fork(s, p, child);
    var cv := T.SetTs(pv, pv.cls.ts.(timeleft := T.Quantum(s, pv.cls.ts), dispwait := 0, backq := false)).(stat := SRun);
    StoreBackGood(c, s, child, cv);
    var t := SetBackDq(Store(s, child, cv), child);
    var v := T.SetTs(pv, pv.cls.ts.(backq := true, fork := true));
    StoreGood(c, t, p, v);
    assert u.procs == Store(t, p, v).procs;
    MetaGood(c, Store(t, p, v), u);
    OffLists(s, child);
    ListMoved(s, u, child);
  }

  lemma ClForkGood(c: Config, s: Sched, child: nat)
    requires Inv(c, s) && Running(s) && child < |s.procs| && s.procs[child].stat == SIdl && s.procs[child].cls.Sys?
    ensures Usable(c, s, s.cur) && Inv(c, ClFork(c, s, child))
    ensures ClFork(c, s, child).procs[child].stat == SRun
  {
    hide GoodBut, Good, QueuesMatch, ListOk, T.Fork, R.Fork;
    At(c, s, s.cur);
    At(c, s, child);
    MaxUpri(c, s);
    match s.procs[s.cur].cls {
      case Sys =>
        StoreBackGood(c, s, child, s.procs[s.cur].(stat := SRun));
        ListKept(s, ClFork(c, s, child));
      case Rt(_) => RtForkGood(c, s, child);
      case Ts(_) => TsForkGood(c, s, child);
    }
  }

  lemma ForkGood(c: Config, s: Sched, child: nat, sys: bool)
    requires Inv(c, s) && Enabled(c, s, Event.Fork(child, sys))
    ensures Inv(c, Next(c, s, Event.Fork(child, sys)))
  {
    hide GoodBut, Good, QueuesMatch, ListOk, ClFork;
    ClForkGood(c, s, child);
    var t := ClFork(c, s, child);
    var v := t.procs[child].(load := true, procio := false, sys := sys);
    FlagGood(c, t, child, v);
    ListKept(t, Store(t, child, v));
  }

  lemma ExitGood(c: Config, s: Sched)
    requires Inv(c, s) && Enabled(c, s, Event.Exit)
    ensures Inv(c, Next(c, s, Event.Exit))
  {
    hide GoodBut, Good, QueuesMatch, ListOk;
    At(c, s, s.cur);
    var v := s.procs[s.cur].(stat := SZomb, cls := Sys);
    StoreIdleGood(c, s, s.cur, v);
    var u := Store(s, s.cur, v).(tsList := Remove(s.tsList, s.cur), rtList := Remove(s.rtList, s.cur));
    MetaGood(c, Store(s, s.cur, v), u);
    ListMoved(s, u, s.cur);
  }

  lemma ReapGood(c: Config, s: Sched, p: nat)
    requires Inv(c, s) && Enabled(c, s, Reap(p))
    ensures Inv(c, Next(c, s, Reap(p)))
  {
    hide GoodBut, Good, QueuesMatch, ListOk;
    At(c, s, p);
    StoreIdleGood(c, s, p, FreeSlot());
    ListKept(s, Store(s, p, FreeSlot()));
  }

  lemma SetTableGood(c: Config, s: Sched, table: seq<TsDpEnt>)
    requires Good(c, s) && T.Acceptable(table, |s.tsTab|)
    requires forall i :: 0 <= i < |table| ==> table[i].maxwait < 0x8000
    ensures Good(c, s.(tsTab := T.Overlay(s.tsTab, table)))
  {
    var t := s.(tsTab := T.Overlay(s.tsTab, table));
    T.AcceptedTableOk(s.tsTab, table, |s.queues|);
    forall q | 0 <= q < |t.procs| ensures Placed(t, q) && ProcOk(c, t.tsTab, |t.queues|, t.procs[q]) {
      assert Placed(s, q) && ProcOk(c, s.tsTab, |s.queues|, s.procs[q]);
    }
  }

  // ----------------------------------------------------------- every run

  /** Every step the machine can take keeps the invariant: class code that moves queued
      processes between queues, ticks between CL_PREEMPT and pswtch, and flag changes. */
  lemma StepKeepsInv(c: Config, s: Sched, e: Event)
    requires Inv(c, s) && Enabled(c, s, e)
    ensures Inv(c, Next(c, s, e))
  {
    hide Good, Core, GoodBut, QueuesMatch, ListOk, T.Tick, T.TrapRet, T.ParmsSet, T.EnterClass, R.ParmsSet, R.EnterClass,
         T.UpdateList, ClPreempt, SwtchStep, WakeupStep, SetRunStep, ClSleep;
    At(c, s, s.cur);
    var t := Next(c, s, e);
    match e {
      case ClockTick =>
        if s.procs[s.cur].cls.Ts? {
          TickGood(c, s, s.cur);
        } else if s.procs[s.cur].cls.Rt? {
          RtTickGood(c, s, s.cur);
        }
        ListKept(s, t);
      case TsUpdate =>
        ListReady(c, s);
        UpdateListGood(c, s, s.tsList);
        MetaGood(c, T.UpdateList(s, s.tsList), t);
        ListKept(s, t);
      case Preempt => PreemptGood(c, s); ListKept(s, t);
      case Swtch => SwtchGood(c, s); ListKept(s, t);
      case Sleep(kpri) => SleepGood(c, s, kpri); ListKept(s, t);
      case Stop =>
        StoreIdleGood(c, s, s.cur, s.procs[s.cur].(stat := SStop));
        ListKept(s, t);
      case Exit => ExitGood(c, s);
      case Reap(p) => ReapGood(c, s, p);
      case TrapRet =>
        if s.procs[s.cur].cls.Ts? { TrapRetGood(c, s); }
        ListKept(s, t);
      case Wakeup(p, noprmpt) => WakeupGood(c, s, p, noprmpt); ListKept(s, t);
      case SetRun(p) => SetRunGood(c, s, p); ListKept(s, t);
      case TsParms(p, lim, upri) => MaxUpri(c, s); ParmsSetGood(c, s, p, lim, upri); ListKept(s, t);
      case TsEnter(p, parms) => TsEnterGood(c, s, p, parms);
      case RtParms(p, level, tqntm) => RtParmsGood(c, s, p, level, tqntm); ListKept(s, t);
      case RtEnter(p, parms) => RtEnterGood(c, s, p, parms);
      case Fork(child, sys) => ForkGood(c, s, child, sys);
      case Load(p) => FlagGood(c, s, p, s.procs[p].(load := true)); ListKept(s, t);
      case Unload(p) => At(c, s, p); FlagGood(c, s, p, s.procs[p].(load := false)); ListKept(s, t);
      case ProcIo(p, on) =>
        At(c, s, p);
        FlagGood(c, s, p, s.procs[p].(procio := on));
        MetaGood(c, Store(s, p, s.procs[p].(procio := on)), t);
        ListKept(s, t);
      case ClearSys => FlagGood(c, s, s.cur, s.procs[s.cur].(sys := false)); ListKept(s, t);
      case SetTable(table) => SetTableGood(c, s, table); ListKept(s, t);
    }
  }

  lemma MaxUpri(c: Config, s: Sched)
    requires Good(c, s)
    ensures c.maxUpri > 0
  {}

  lemma RtTickGood(c: Config, s: Sched, p: nat)
    requires Good(c, s) && p < |s.procs| && s.procs[p].cls.Rt?
    ensures R.Ready(s, p) && Good(c, R.Tick(s, p)) && SameKinds(s, R.Tick(s, p))
  {
    hide GoodBut, Good, QueuesMatch;
    At(c, s, p);
    var t := R.Tick(s, p);
    StoreGood(c, s, p, t.procs[p]);
    assert t.procs == Store(s, p, t.procs[p]).procs;
    MetaGood(c, Store(s, p, t.procs[p]), t);
  }

  /** `t` is what event `e` makes of `s`; states outside the invariant are not constrained
      here, because `RunKeepsInv` shows that no run reaches one. */
  ghost predicate Step(c: Config, s: Sched, e: Event, t: Sched)
  {
    Inv(c, s) ==> Enabled(c, s, e) && t == Next(c, s, e)
  }

  ghost predicate Run(c: Config, ss: seq<Sched>, es: seq<Event>)
  {
    |ss| == |es| + 1 && forall i :: 0 <= i < |es| ==> Step(c, ss[i], es[i], ss[i + 1])
  }

  /** The invariant holds in every state of every run. */
  lemma {:induction false} RunKeepsInv(c: Config, ss: seq<Sched>, es: seq<Event>, n: nat)
    requires Run(c, ss, es) && Inv(c, ss[0]) && n < |ss|
    ensures Inv(c, ss[n])
  {
    hide Inv, Step, Enabled;
    if n > 0 {
      RunKeepsInv(c, ss, es, n - 1);
      var i := n - 1;
      assert Step(c, ss[i], es[i], ss[i + 1]);
      OneStep(c, ss[i], es[i], ss[i + 1]);
    }
  }

  lemma OneStep(c: Config, s: Sched, e: Event, t: Sched)
    requires Inv(c, s) && Step(c, s, e, t)
    ensures Inv(c, t)
  {
    hide Inv, Next, Enabled;
    StepKeepsInv(c, s, e);
  }

  /** The machine as startup leaves it: proc_sched on the processor, a loaded system process, and
      every other slot free. */
  predicate Boot(c: Config, s: Sched)
  {
    && T.TabOk(s.tsTab, |s.queues|) && R.TabOk(c.rtTab, |s.queues|) && c.maxUpri > 0
    && s.cur == c.sched < |s.procs| && s.procs[s.cur].pri < |s.queues|
    && s.procs[s.cur] == Proc(SOnProc, true, false, true, s.procs[s.cur].pri, Sys)
    && (forall q :: 0 <= q < |s.procs| && q != s.cur ==> s.procs[q] == FreeSlot())
    && (forall i :: 0 <= i < |s.queues| ==> s.queues[i] == [])
    && s.tsList == [] && s.rtList == []
  }

  lemma BootInv(c: Config, s: Sched)
    requires Boot(c, s)
    ensures Inv(c, s)
  {
    assert T.EntryOk(s.tsTab[0], |s.tsTab|, |s.queues|);
    forall q | 0 <= q < |s.procs| ensures Placed(s, q) && ProcOk(c, s.tsTab, |s.queues|, s.procs[q]) {}
  }

  /** Whatever happens from then on: the invariant holds, system processes stay loaded, and while
      a process is running, every process is as RunFlags expects it. */
  lemma RunsFromBoot(c: Config, ss: seq<Sched>, es: seq<Event>, n: nat, p: nat)
    requires Run(c, ss, es) && Boot(c, ss[0]) && n < |ss| && p < |ss[n].procs|
    ensures Inv(c, ss[n])
    ensures ss[n].procs[p].sys ==> ss[n].procs[p].load
    ensures Running(ss[n]) ==> RunFlags.Settled(ss[n], p)
  {
    hide Run, Boot, QueuesMatch, ListOk;
    assert Inv(c, ss[0]) by { BootInv(c, ss[0]); }
    RunKeepsInv(c, ss, es, n);
    At(c, ss[n], p);
  }

  /** dispinit, and process 0 made by startup. */
  method Start(c: Config, nproc: nat, npri: nat, pri: nat, tab: seq<TsDpEnt>) returns (d: Dispatch)
    requires T.TabOk(tab, npri) && R.TabOk(c.rtTab, npri) && c.maxUpri > 0 && c.sched < nproc && pri < npri
    ensures fresh(d) && d.Valid() && Boot(c, d.Abs()) && d.curpri == pri
  {
    var table := seq(nproc, _ => FreeSlot())[c.sched := Proc(SOnProc, true, false, true, pri, Sys)];
    d := new Dispatch(npri, table, c.sched, tab);
    d.curpri := pri;
  }

  /** Queued, and allowed to run. */
  predicate Runnable(s: Sched, q: nat)
  {
    OnQueue(s, q) && Schedulable(s.procs[q])
  }

  ghost predicate SomeRunnable(s: Sched)
  {
    exists q :: 0 <= q < |s.procs| && Runnable(s, q)
  }

  /** `p` has the highest priority among the runnable processes of `s` and is the first
      of them on its queue. */
  ghost predicate Best(s: Sched, p: nat)
  {
    && p < |s.procs| && Runnable(s, p)
    && (forall q :: 0 <= q < |s.procs| && Runnable(s, q) ==> s.procs[q].pri <= s.procs[p].pri)
    && exists k :: 0 <= k < |s.queues[s.procs[p].pri]| && s.queues[s.procs[p].pri][k] == p
         && forall j :: 0 <= j < k ==> !Runnable(s, s.queues[s.procs[p].pri][j])
  }

  /** pswtch leaves the processor with a process that may run, of the highest priority
      among all queued processes that may run, and the first such on its queue; it idles
      only when there is none. */
  lemma SwtchPicksBest(c: Config, s: Sched)
    requires Inv(c, s) && Enabled(c, s, Swtch)
    ensures var t := Next(c, s, Swtch);
            if SomeRunnable(s) then
              && Best(s, t.cur) && t.curpri == s.procs[t.cur].pri
              && t.procs[t.cur].stat == SOnProc && !OnQueue(t, t.cur)
            else t.cur == c.sched && t.curpri == 0 && t.queues == s.queues
  {
    hide Best, SomeRunnable;
    At(c, s, s.cur);
    var v := s.procs[s.cur];
    var u := if v.stat == SOnProc then SetStat(s, s.cur, SRun) else s;
    StatKeepsQueues(s, s.cur, u);
    SameBest(s, u);
    SomeRunnableIff(u);
    if MaxRunPri(u) != -1 {
      NextIsBest(u);
      NextIsQueued(u);
      CurrentOffQueue(u, NextToRun(u));
    }
  }

  lemma SameBest(s: Sched, u: Sched)
    requires s.cur < |s.procs| && (u == s || u == SetStat(s, s.cur, SRun))
    ensures SomeRunnable(u) == SomeRunnable(s)
    ensures forall p: nat :: Best(u, p) == Best(s, p)
    ensures |u.procs| == |s.procs| && forall p :: 0 <= p < |s.procs| ==> u.procs[p].pri == s.procs[p].pri
  {
    SameSchedulable(s, u);
    assert forall q: nat :: Runnable(u, q) == Runnable(s, q);
  }

  lemma SomeRunnableIff(s: Sched)
    requires QueuesMatch(s.procs, s.queues)
    ensures SomeRunnable(s) <==> MaxRunPri(s) != -1
  {
    if SomeRunnable(s) {
      var q :| 0 <= q < |s.procs| && Runnable(s, q);
      QueuedBound(s, q);
    }
    if MaxRunPri(s) != -1 {
      assert Runnable(s, NextToRun(s));
    }
  }

  lemma NextIsBest(s: Sched)
    requires QueuesMatch(s.procs, s.queues) && MaxRunPri(s) >= 0
    ensures Best(s, NextToRun(s))
  {
    forall q | 0 <= q < |s.procs| && Runnable(s, q)
      ensures s.procs[q].pri <= MaxRunPri(s)
    {
      QueuedBound(s, q);
    }
    FirstInQueue(s);
    assert QueueMatches(s.procs, s.queues[MaxRunPri(s)], MaxRunPri(s));
  }

  lemma CurrentOffQueue(s: Sched, p: nat)
    requires QueuesMatch(s.procs, s.queues) && p < |s.procs| && s.procs[p].pri < |s.queues|
    ensures !OnQueue(MakeCurrent(s, p), p)
  {
    assert QueueMatches(s.procs, s.queues[s.procs[p].pri], s.procs[p].pri);
    RemoveMembers(s.queues[s.procs[p].pri], p);
  }

  lemma SameSchedulable(s: Sched, u: Sched)
    requires s.cur < |s.procs| && (u == s || u == SetStat(s, s.cur, SRun))
    ensures |u.procs| == |s.procs| && u.queues == s.queues
    ensures forall q :: 0 <= q < |s.procs| ==>
              OnQueue(u, q) == OnQueue(s, q) && Schedulable(u.procs[q]) == Schedulable(s.procs[q])
              && u.procs[q].pri == s.procs[q].pri
  {}

  lemma QueuedBound(s: Sched, q: nat)
    requires QueuesMatch(s.procs, s.queues) && q < |s.procs| && OnQueue(s, q) && Schedulable(s.procs[q])
    ensures s.procs[q].pri <= MaxRunPri(s)
  {
    var i := s.procs[q].pri;
    assert QueueMatches(s.procs, s.queues[i], i);
    var k :| 0 <= k < |s.queues[i]| && s.queues[i][k] == q;
    assert HasSchedulable(s.procs, s.queues[i]);
  }

  lemma FirstInQueue(s: Sched)
    requires QueuesMatch(s.procs, s.queues) && MaxRunPri(s) >= 0
    ensures var q := s.queues[MaxRunPri(s)];
            exists k :: 0 <= k < |q| && q[k] == NextToRun(s)
              && forall j :: 0 <= j < k ==> q[j] < |s.procs| && !Schedulable(s.procs[q[j]])
  {
    var i := MaxRunPri(s);
    assert QueueMatches(s.procs, s.queues[i], i);
    FirstIndex(s.procs, s.queues[i]);
  }

  lemma {:induction false} FirstIndex(procs: seq<Proc>, q: seq<nat>)
    requires forall k :: 0 <= k < |q| ==> q[k] < |procs|
    requires HasSchedulable(procs, q)
    ensures exists k :: 0 <= k < |q| && q[k] == FirstSchedulable(procs, q)
              && forall j :: 0 <= j < k ==> !Schedulable(procs[q[j]])
  {
    if Schedulable(procs[q[0]]) {
      assert q[0] == FirstSchedulable(procs, q);
    } else {
      assert HasSchedulable(procs, q[1..]) by {
        var k :| 0 <= k < |q| && Schedulable(procs[q[k]]);
        assert q[1..][k - 1] == q[k];
      }
      FirstIndex(procs, q[1..]);
      var k :| 0 <= k < |q[1..]| && q[1..][k] == FirstSchedulable(procs, q[1..])
               && forall j :: 0 <= j < k ==> !Schedulable(procs[q[1..][j]]);
      assert q[k + 1] == FirstSchedulable(procs, q);
      forall j | 0 <= j < k + 1 ensures !Schedulable(procs[q[j]]) {
        if j > 0 { assert q[j] == q[1..][j - 1]; }
      }
    }
  }

  /** pswtch, one pass of its idle loop included, on the dispatcher's memory. */
  method Pswtch(d: Dispatch, c: Config)
    requires d.Valid() && Usable(c, d.Abs(), d.curproc)
    modifies d
    ensures d.Valid()
    ensures d.Abs() == SwtchStep(c, old(d.Abs()))
  {
    hide AllThreaded, Counted, Summarised, QueuesMatch, MaxRunPri, NextToRun;
    ghost var s := d.Abs();
    if d.procs[d.curproc].stat == SOnProc {
      d.Store(d.curproc, d.procs[d.curproc].(stat := SRun));
    }
    CountedMatches(d.procs, d.queues, d.dqSrunCnt);
    d.MaxRunPriIsHighest();
    if d.maxrunpri == -1 {
      d.curpri := 0;
      d.curproc := c.sched;
    } else {
      NextIsQueued(d.Abs());
      var _ := d.DispatchNext();
    }
  }
}
