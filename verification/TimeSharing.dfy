/** What each time-sharing class function does to the scheduler's state (ts.c). */
module TsSpec {
  import opened SchedState

  /** ts_maxumdpri is the last index of the table. */
  predicate TabOk(tab: seq<TsDpEnt>, npri: nat)
  {
    && 0 < |tab| <= 0x8000
    && forall i :: 0 <= i < |tab| ==> EntryOk(tab[i], |tab|, npri)
  }

  predicate EntryOk(e: TsDpEnt, n: nat, npri: nat)
  {
    && e.globpri < npri && e.quantum > 0 && 0 <= e.maxwait < 0x8000
    && 0 <= e.tqexp < n && 0 <= e.slpret < n && 0 <= e.lwait < n
  }

  predicate TsOk(ts: TsProc, n: nat)
  {
    0 <= ts.cpupri < n && 0 <= ts.umdpri < n && ts.upri <= ts.uprilim
  }

  predicate Ready(s: Sched, p: nat)
  {
    && TabOk(s.tsTab, |s.queues|)
    && p < |s.procs| && s.procs[p].pri < |s.queues|
    && s.procs[p].cls.Ts? && TsOk(s.procs[p].cls.ts, |s.tsTab|)
  }

  /** The value a 16-bit field holds after an assignment. */
  function ToShort(x: int): (r: int)
    ensures -0x8000 <= r < 0x8000
    ensures -0x8000 <= x < 0x8000 ==> r == x
  {
    (x + 0x8000) % 0x1_0000 - 0x8000
  }

  /** TS_NEWUMDPRI: the sum of the two components, held inside the table. */
  function NewUmdPri(ts: TsProc, n: nat): (r: TsProc)
    requires n > 0
    ensures r == ts.(umdpri := r.umdpri) && 0 <= r.umdpri < n
  {
    var u := ToShort(ts.cpupri + ts.upri);
    ts.(umdpri := if u > n - 1 then n - 1 else if u < 0 then 0 else u)
  }

  function GlobPri(s: Sched, ts: TsProc): (g: nat)
    requires TabOk(s.tsTab, |s.queues|) && 0 <= ts.umdpri < |s.tsTab|
    ensures g < |s.queues|
  {
    s.tsTab[ts.umdpri].globpri
  }

  function Quantum(s: Sched, ts: TsProc): int
    requires 0 <= ts.umdpri < |s.tsTab|
  {
    s.tsTab[ts.umdpri].quantum
  }

  function SetTs(v: Proc, ts: TsProc): Proc
  {
    v.(cls := Ts(ts))
  }

  /** Move a process to the priority its `umdpri` names: a queued process goes to the
      back of the new queue with a fresh quantum, any other is marked TSBACKQ. */
  function MoveToUserPri(s: Sched, p: nat, ts: TsProc): Sched
    requires TabOk(s.tsTab, |s.queues|) && 0 <= ts.umdpri < |s.tsTab|
    requires p < |s.procs| && s.procs[p].pri < |s.queues|
  {
    var t := DispDeq(s, p);
    var v := s.procs[p].(pri := GlobPri(s, ts));
    if OnQueue(s, p) then
      SetBackDq(Store(t, p, SetTs(v, ts.(timeleft := Quantum(s, ts)))), p)
    else
      Store(t, p, SetTs(v, ts.(backq := true)))
  }

  /** Moving a process neither reads nor writes `curpri`. */
  lemma MoveKeepsCurPri(s: Sched, p: nat, ts: TsProc, c: int)
    requires TabOk(s.tsTab, |s.queues|) && 0 <= ts.umdpri < |s.tsTab|
    requires p < |s.procs| && s.procs[p].pri < |s.queues|
    ensures MoveToUserPri(s.(curpri := c), p, ts) == MoveToUserPri(s, p, ts).(curpri := c)
  {}

  /** ts_tick: a quantum that runs out lowers the process. */
  function Tick(s: Sched, p: nat): Sched
    requires Ready(s, p)
  {
    var ts := s.procs[p].cls.ts;
    if ts.kpri then s
    else if ts.timeleft - 1 != 0 then
      Store(s, p, SetTs(s.procs[p], ts.(timeleft := ts.timeleft - 1)))
    else
      var ts := NewUmdPri(ts.(timeleft := 0, cpupri := s.tsTab[ts.cpupri].tqexp), |s.tsTab|);
      var t := MoveToUserPri(s, p, ts.(dispwait := 0));
      t.(curpri := GlobPri(s, ts), runrun := s.runrun + 1)
  }

  /** Is the process one whose wait ts_update counts? */
  predicate Waits(v: Proc)
  {
    v.cls.Ts? && !v.cls.ts.kpri && (v.stat == SRun || v.stat == SOnProc) && !v.procio
  }

  /** One process's share of ts_update. */
  function UpdateOne(s: Sched, p: nat): Sched
    requires Ready(s, p)
  {
    var v := s.procs[p];
    if !Waits(v) then s
    else
      var ts := v.cls.ts.(dispwait := ToShort(v.cls.ts.dispwait + 1));
      if ts.dispwait <= s.tsTab[ts.umdpri].maxwait then Store(s, p, SetTs(v, ts))
      else
        var ts := NewUmdPri(ts.(cpupri := s.tsTab[ts.cpupri].lwait), |s.tsTab|);
        var t := MoveToUserPri(s, p, ts.(dispwait := 0));
        if p == s.cur then t.(curpri := GlobPri(s, ts)) else t
  }

  predicate AllReady(s: Sched, list: seq<nat>)
  {
    forall k :: 0 <= k < |list| ==> Ready(s, list[k])
  }

  lemma MoveReady(s: Sched, p: nat, ts: TsProc, q: nat)
    requires Ready(s, p) && Ready(s, q) && TsOk(ts, |s.tsTab|)
    ensures Ready(MoveToUserPri(s, p, ts), q) && MoveToUserPri(s, p, ts).tsTab == s.tsTab
  {
    hide TabOk, EntryOk;
    assert TabOk(s.tsTab, |s.queues|);
  }

  /** Updating one process leaves all time-sharing processes inside their ranges. */
  lemma UpdateOneReady(s: Sched, p: nat, q: nat)
    requires Ready(s, p) && Ready(s, q)
    ensures Ready(UpdateOne(s, p), q)
  {
    hide MoveToUserPri;
    if Waits(s.procs[p]) {
      var ts := s.procs[p].cls.ts.(dispwait := ToShort(s.procs[p].cls.ts.dispwait + 1));
      if ts.dispwait > s.tsTab[ts.umdpri].maxwait {
        ts := NewUmdPri(ts.(cpupri := s.tsTab[ts.cpupri].lwait), |s.tsTab|);
        MoveReady(s, p, ts.(dispwait := 0), q);
      }
    }
  }

  /** ts_update over the rest of the process list. */
  function UpdateList(s: Sched, list: seq<nat>): Sched
    requires AllReady(s, list)
    decreases |list|
  {
    if list == [] then s
    else
      assert forall k :: 0 <= k < |list| ==> Ready(UpdateOne(s, list[0]), list[k]) by {
        forall k | 0 <= k < |list| ensures Ready(UpdateOne(s, list[0]), list[k]) {
          UpdateOneReady(s, list[0], list[k]);
        }
      }
      UpdateList(UpdateOne(s, list[0]), list[1..])
  }

  function Update(s: Sched): Sched
    requires AllReady(s, s.tsList)
  {
    var t := UpdateList(s, s.tsList);
    t.(runrun := t.runrun + 1)
  }

  /** ts_preempt: where a process giving up the processor goes. */
  function Preempt(s: Sched, p: nat): Sched
    requires Ready(s, p)
  {
    var ts := s.procs[p].cls.ts;
    if ts.backq && !ts.kpri && !ts.fork then
      SetBackDq(Store(s, p, SetTs(s.procs[p], ts.(timeleft := Quantum(s, ts), dispwait := 0, backq := false))), p)
    else if ts.backq && ts.kpri && !ts.fork then
      SetBackDq(Store(s, p, SetTs(s.procs[p], ts.(backq := false))), p)
    else if ts.backq && !ts.kpri && ts.fork then
      SetBackDq(Store(s, p, SetTs(s.procs[p], ts.(dispwait := 0, backq := false, fork := false))), p)
    else
      SetFrontDq(s, p)
  }

  /** ts_setrun */
  function SetRun(s: Sched, p: nat): Sched
    requires Ready(s, p)
  {
    var ts := s.procs[p].cls.ts;
    var ts := if ts.kpri then ts else ts.(timeleft := Quantum(s, ts), dispwait := 0);
    SetBackDq(Store(s, p, SetTs(s.procs[p], ts.(backq := false, fork := false))), p)
  }

  /** ts_wakeup */
  function Wakeup(s: Sched, p: nat): Sched
    requires Ready(s, p)
  {
    SetBackDq(Store(s, p, SetTs(s.procs[p], s.procs[p].cls.ts.(backq := false, fork := false))), p)
  }

  /** ts_sleep, `kpri` being the kernel priority the `disp` argument selects. */
  function Sleep(s: Sched, p: nat, kpri: nat): Sched
    requires Ready(s, p)
  {
    Store(s, p, SetTs(s.procs[p], s.procs[p].cls.ts.(kpri := true)).(pri := kpri))
  }

  /** ts_trapret: back to a user-mode priority. */
  function TrapRet(s: Sched, p: nat): Sched
    requires Ready(s, p) && QueuesMatch(s.procs, s.queues)
  {
    var ts := s.procs[p].cls.ts;
    if !ts.kpri then s
    else
      var ts := NewUmdPri(ts.(cpupri := s.tsTab[ts.cpupri].slpret), |s.tsTab|);
      var ts := ts.(kpri := false, timeleft := Quantum(s, ts), dispwait := 0);
      var g := GlobPri(s, ts);
      var t := Store(s, p, SetTs(s.procs[p], ts).(pri := g));
      t.(curpri := g, runrun := if s.npwakecnt == 0 && g < MaxRunPri(s) then s.runrun + 1 else s.runrun)
  }

  /** The part ts_enterclass and ts_parmsset share: give `p` the class data `ts` and the
      priority it names. */
  function Assign(s: Sched, p: nat, ts: TsProc): Sched
    requires TabOk(s.tsTab, |s.queues|) && 0 <= ts.umdpri < |s.tsTab|
    requires p < |s.procs| && s.procs[p].pri < |s.queues| && QueuesMatch(s.procs, s.queues)
  {
    var g := GlobPri(s, ts);
    if p == s.cur then
      var v := s.procs[p].(pri := g);
      if g > MaxRunPri(s) then
        Store(s, p, SetTs(v, ts.(timeleft := Quantum(s, ts)))).(curpri := g)
      else
        Store(s, p, SetTs(v, ts.(backq := true))).(curpri := g, runrun := s.runrun + 1)
    else
      var t := MoveToUserPri(s, p, ts);
      if OnQueue(s, p) && g > s.curpri then t.(runrun := s.runrun + 1) else t
  }

  /** TS_NOCHANGE */
  const NOCHANGE := -32768

  /** The user priority limit and user priority ts_parmsset installs. */
  function Requested(old_: int, req: int): int
  {
    if req == NOCHANGE then old_ else req
  }

  /** C division, which rounds towards zero. */
  function CDiv(a: int, b: int): int
    requires b > 0
  {
    if a >= 0 then a / b else -((-a) / b)
  }

  /** The value of a signed 8-bit field after an assignment. */
  function ToChar(x: int): int
  {
    (x + 128) % 256 - 128
  }

  function NiceOf(upri: int, maxupri: int): int
    requires maxupri > 0
  {
    var nice := ToChar(20 - CDiv(upri * 20, maxupri));
    if nice == 40 then 39 else nice
  }

  /** ts_parmsset, once past its permission check. */
  function ParmsSet(s: Sched, p: nat, uprilim: int, upri: int, maxupri: int): Sched
    requires Ready(s, p) && QueuesMatch(s.procs, s.queues) && maxupri > 0
  {
    var ts := s.procs[p].cls.ts;
    var lim := Requested(ts.uprilim, uprilim);
    var pri := Requested(ts.upri, upri);
    var pri := if pri > lim then lim else pri;
    var ts := NewUmdPri(ts.(uprilim := lim, upri := pri), |s.tsTab|).(nice := NiceOf(upri, maxupri));
    if ts.kpri then Store(s, p, SetTs(s.procs[p], ts))
    else Assign(s, p, ts.(dispwait := 0))
  }

  /** The class data ts_enterclass starts a process with; `parms` is None for NULL. */
  datatype Parms = Default | Given(uprilim: int, upri: int)

  function Initial(parms: Parms, n: nat, maxupri: int): (ts: TsProc)
    requires n > 0 && maxupri > 0
    ensures TsOk(ts, n) && !ts.kpri
  {
    var med := (n - 1) / 2;
    match parms
    case Default =>
      TsProc(0, med, 0, 0, med, 20, false, false, false, 0)
    case Given(uprilim, upri) =>
      var lim := if uprilim == NOCHANGE then 0 else uprilim;
      var pri := if upri == NOCHANGE then lim else if upri > lim then lim else upri;
      var ts := TsProc(0, med, lim, pri, med, ToChar(20 - CDiv(20 * pri, maxupri)), false, false, false, 0);
      NewUmdPri(ts, n)
  }

  /** ts_enterclass, once past its permission check. */
  function EnterClass(s: Sched, p: nat, parms: Parms, maxupri: int): Sched
    requires TabOk(s.tsTab, |s.queues|) && QueuesMatch(s.procs, s.queues) && maxupri > 0
    requires p < |s.procs| && s.procs[p].pri < |s.queues|
  {
    var t := Assign(s, p, Initial(parms, |s.tsTab|, maxupri));
    t.(tsList := [p] + s.tsList)
  }

  /** ts_fork followed by ts_forkret: `child` becomes a copy of its parent, is queued at the
      back, and the parent will give way at its next preemption. */
  function Fork(s: Sched, parent: nat, child: nat): Sched
    requires Ready(s, parent) && child < |s.procs| && child != parent
  {
    var pv := s.procs[parent];
    var ts := pv.cls.ts;
    var cv := SetTs(pv, ts.(timeleft := Quantum(s, ts), dispwait := 0, backq := false)).(stat := SRun);
    var t := SetBackDq(Store(s, child, cv).(tsList := [child] + s.tsList), child);
    Store(t, parent, SetTs(pv, ts.(backq := true, fork := true))).(runrun := s.runrun + 1)
  }

  /** The table ts_admin accepts for TS_SETDPTBL; ts_globpri is read-only. */
  predicate Acceptable(new_: seq<TsDpEnt>, n: nat)
  {
    && |new_| == n
    && forall i :: 0 <= i < n ==>
         && new_[i].quantum > 0 && new_[i].maxwait >= 0
         && 0 <= new_[i].tqexp < n && 0 <= new_[i].slpret < n && 0 <= new_[i].lwait < n
  }

  function Overlay(tab: seq<TsDpEnt>, new_: seq<TsDpEnt>): (r: seq<TsDpEnt>)
    requires |new_| == |tab|
    ensures |r| == |tab|
    ensures forall i :: 0 <= i < |tab| ==> r[i] == new_[i].(globpri := tab[i].globpri)
  {
    seq(|tab|, i requires 0 <= i < |tab| && |new_| == |tab| => new_[i].(globpri := tab[i].globpri))
  }

  /** A table accepted leaves every level at the priority it had, and is again one the class can
      use, provided that the waits fit a short, as the kernel's do. */
  lemma AcceptedTableOk(tab: seq<TsDpEnt>, new_: seq<TsDpEnt>, npri: nat)
    requires TabOk(tab, npri) && Acceptable(new_, |tab|)
    ensures var r := Overlay(tab, new_);
            && (TabOk(r, npri) <==> forall i :: 0 <= i < |new_| ==> new_[i].maxwait < 0x8000)
            && forall i :: 0 <= i < |tab| ==> r[i].globpri == tab[i].globpri
  {
    var r := Overlay(tab, new_);
    forall i | 0 <= i < |tab| ensures EntryOk(r[i], |tab|, npri) <==> new_[i].maxwait < 0x8000 {
      assert EntryOk(tab[i], |tab|, npri);
    }
  }
}

/** The functions of ts.c, working on the dispatcher's memory. */
module TimeSharing {
  import opened Errors
  import opened SchedState
  import opened Dispatcher
  import T = TsSpec

  /** The credential passed with a request: none, a super-user's, or another. */
  datatype Cred = Null | Super | Ordinary

  predicate Ready(d: Dispatch, p: nat)
    reads d
  {
    && T.TabOk(d.tsTab, |d.dqFirst|)
    && p < |d.procs| && d.procs[p].pri < |d.dqFirst|
    && d.procs[p].cls.Ts? && T.TsOk(d.procs[p].cls.ts, |d.tsTab|)
  }

  lemma ReadyAbs(d: Dispatch, p: nat)
    requires d.Valid()
    ensures |d.queues| == |d.dqFirst|
    ensures Ready(d, p) == T.Ready(d.Abs(), p)
    ensures QueuesMatch(d.procs, d.queues)
  {}

  /** The dequeue, re-prioritise, requeue sequence. */
  method MoveToUserPri(d: Dispatch, p: nat, ts: TsProc) returns (wasonq: bool)
    requires d.Valid() && T.TabOk(d.tsTab, |d.queues|) && 0 <= ts.umdpri < |d.tsTab|
    requires p < |d.procs| && d.procs[p].pri < |d.queues|
    modifies d
    ensures d.Valid()
    ensures d.Abs() == T.MoveToUserPri(old(d.Abs()), p, ts)
    ensures wasonq == OnQueue(old(d.Abs()), p)
  {
    hide AllThreaded, Counted, Summarised, T.TabOk, T.EntryOk;
    ghost var s := d.Abs();
    GlobPriFits(d.tsTab, |d.queues|, ts.umdpri);
    DeqLeaves(d, p);
    wasonq := d.DispDeq(p);
    var v := d.procs[p].(pri := d.tsTab[ts.umdpri].globpri);
    if wasonq {
      d.Store(p, T.SetTs(v, ts.(timeleft := d.tsTab[ts.umdpri].quantum)));
      StillOff(d, s, p);
      d.SetBackDq(p);
    } else {
      d.Store(p, T.SetTs(v, ts.(backq := true)));
    }
  }

  lemma GlobPriFits(tab: seq<TsDpEnt>, npri: nat, i: nat)
    requires T.TabOk(tab, npri) && i < |tab|
    ensures tab[i].globpri < npri
  {}

  /** After dispdeq the process is on no queue at all. */
  lemma DeqLeaves(d: Dispatch, p: nat)
    requires d.Valid() && p < |d.procs| && d.procs[p].pri < |d.queues|
    ensures var t := SchedState.DispDeq(d.Abs(), p);
            forall i :: 0 <= i < |t.queues| ==> p !in t.queues[i]
  {
    var pri := d.procs[p].pri;
    assert QueueMatches(d.procs, d.queues[pri], pri);
    RemoveMembers(d.queues[pri], p);
    forall i | 0 <= i < |d.queues| && i != pri ensures p !in d.queues[i] {
      assert QueueMatches(d.procs, d.queues[i], i);
    }
  }

  lemma StillOff(d: Dispatch, s: Sched, p: nat)
    requires p < |s.procs| && s.procs[p].pri < |s.queues|
    requires forall i :: 0 <= i < |d.queues| ==> p !in d.queues[i]
    ensures !OnQueue(d.Abs(), p)
  {}

  method Tick(d: Dispatch, p: nat)
    requires d.Valid() && Ready(d, p)
    modifies d
    ensures d.Valid()
    ensures T.Ready(old(d.Abs()), p) && d.Abs() == T.Tick(old(d.Abs()), p)
  {
    hide AllThreaded, Counted, Summarised, T.TabOk, T.EntryOk, Remove, QueuesMatch, OnQueue;
    ReadyAbs(d, p);
    var ts := d.procs[p].cls.ts;
    if ts.kpri {
      return;
    }
    ts := ts.(timeleft := ts.timeleft - 1);
    if ts.timeleft == 0 {
      TabRange(d.tsTab, |d.queues|, ts.cpupri);
      ghost var s := d.Abs();
      ts := T.NewUmdPri(ts.(cpupri := d.tsTab[ts.cpupri].tqexp), |d.tsTab|).(dispwait := 0);
      d.curpri := d.tsTab[ts.umdpri].globpri;
      var _ := MoveToUserPri(d, p, ts);
      T.MoveKeepsCurPri(s, p, ts, d.curpri);
      d.runrun := d.runrun + 1;
    } else {
      d.Store(p, T.SetTs(d.procs[p], ts));
    }
  }

  lemma TabRange(tab: seq<TsDpEnt>, npri: nat, i: nat)
    requires T.TabOk(tab, npri) && i < |tab|
    ensures T.EntryOk(tab[i], |tab|, npri)
  {}

  /** The loop of ts_update, in list order. */
  method Update(d: Dispatch)
    requires d.Valid() && T.AllReady(d.Abs(), d.tsList)
    modifies d
    ensures d.Valid()
    ensures d.Abs() == T.Update(old(d.Abs()))
  {
    hide AllThreaded, Counted, Summarised, T.TabOk, T.EntryOk, T.UpdateOne, T.Ready;
    ghost var s := d.Abs();
    var list := d.tsList;
    while list != []
      invariant d.Valid() && T.AllReady(d.Abs(), list)
      invariant T.UpdateList(d.Abs(), list) == T.UpdateList(s, s.tsList)
      decreases |list|
    {
      assert T.Ready(d.Abs(), list[0]);
      ghost var t := d.Abs();
      UpdateOne(d, list[0]);
      forall k | 0 <= k < |list| ensures T.Ready(d.Abs(), list[k]) {
        T.UpdateOneReady(t, list[0], list[k]);
      }
      list := list[1..];
    }
    d.runrun := d.runrun + 1;
  }

  method UpdateOne(d: Dispatch, p: nat)
    requires d.Valid() && T.Ready(d.Abs(), p)
    modifies d
    ensures d.Valid()
    ensures d.Abs() == T.UpdateOne(old(d.Abs()), p)
  {
    hide AllThreaded, Counted, Summarised, T.TabOk, T.EntryOk, Remove, QueuesMatch, OnQueue;
    var v := d.procs[p];
    if v.cls.ts.kpri {
      return;
    }
    if (v.stat != SRun && v.stat != SOnProc) || v.procio {
      return;
    }
    var ts := v.cls.ts.(dispwait := T.ToShort(v.cls.ts.dispwait + 1));
    if ts.dispwait <= d.tsTab[ts.umdpri].maxwait {
      d.Store(p, T.SetTs(v, ts));
      return;
    }
    TabRange(d.tsTab, |d.queues|, ts.cpupri);
    ts := T.NewUmdPri(ts.(cpupri := d.tsTab[ts.cpupri].lwait), |d.tsTab|);
    ts := ts.(dispwait := 0);
    ghost var s := d.Abs();
    if p == d.curproc {
      d.curpri := d.tsTab[ts.umdpri].globpri;
      T.MoveKeepsCurPri(s, p, ts, d.curpri);
    }
    var _ := MoveToUserPri(d, p, ts);
  }

  method Preempt(d: Dispatch, p: nat)
    requires d.Valid() && T.Ready(d.Abs(), p) && !OnQueue(d.Abs(), p)
    modifies d
    ensures d.Valid()
    ensures d.Abs() == T.Preempt(old(d.Abs()), p)
  {
    hide AllThreaded, Counted, Summarised, T.TabOk, T.EntryOk;
    var ts := d.procs[p].cls.ts;
    if ts.backq && !ts.kpri && !ts.fork {
      d.Store(p, T.SetTs(d.procs[p], ts.(timeleft := d.tsTab[ts.umdpri].quantum, dispwait := 0, backq := false)));
      d.SetBackDq(p);
    } else if ts.backq && ts.kpri && !ts.fork {
      d.Store(p, T.SetTs(d.procs[p], ts.(backq := false)));
      d.SetBackDq(p);
    } else if ts.backq && !ts.kpri && ts.fork {
      d.Store(p, T.SetTs(d.procs[p], ts.(dispwait := 0, backq := false, fork := false)));
      d.SetBackDq(p);
    } else {
      d.SetFrontDq(p);
    }
  }

  method SetRun(d: Dispatch, p: nat)
    requires d.Valid() && T.Ready(d.Abs(), p) && !OnQueue(d.Abs(), p)
    modifies d
    ensures d.Valid()
    ensures d.Abs() == T.SetRun(old(d.Abs()), p)
  {
    hide AllThreaded, Counted, Summarised, T.TabOk, T.EntryOk;
    var ts := d.procs[p].cls.ts;
    if !ts.kpri {
      ts := ts.(timeleft := d.tsTab[ts.umdpri].quantum, dispwait := 0);
    }
    d.Store(p, T.SetTs(d.procs[p], ts.(backq := false, fork := false)));
    d.SetBackDq(p);
  }

  method Wakeup(d: Dispatch, p: nat)
    requires d.Valid() && T.Ready(d.Abs(), p) && !OnQueue(d.Abs(), p)
    modifies d
    ensures d.Valid()
    ensures d.Abs() == T.Wakeup(old(d.Abs()), p)
  {
    hide AllThreaded, Counted, Summarised, T.TabOk, T.EntryOk;
    d.Store(p, T.SetTs(d.procs[p], d.procs[p].cls.ts.(backq := false, fork := false)));
    d.SetBackDq(p);
  }

  /** `kmdpris` is ts_kmdpris and `disp` the masked `disp` argument of sleep(). */
  method Sleep(d: Dispatch, p: nat, kmdpris: seq<nat>, disp: nat)
    requires d.Valid() && T.Ready(d.Abs(), p) && !OnQueue(d.Abs(), p)
    requires disp < |kmdpris|
    modifies d
    ensures d.Valid()
    ensures d.Abs() == T.Sleep(old(d.Abs()), p, kmdpris[|kmdpris| - 1 - disp])
  {
    hide AllThreaded, Counted, Summarised, T.TabOk, T.EntryOk;
    var ts := d.procs[p].cls.ts.(kpri := true);
    d.Store(p, T.SetTs(d.procs[p], ts).(pri := kmdpris[|kmdpris| - 1 - disp]));
  }

  method TrapRet(d: Dispatch, p: nat)
    requires d.Valid() && T.Ready(d.Abs(), p) && !OnQueue(d.Abs(), p)
    modifies d
    ensures d.Valid()
    ensures QueuesMatch(old(d.procs), old(d.queues)) && d.Abs() == T.TrapRet(old(d.Abs()), p)
  {
    hide AllThreaded, Counted, Summarised, T.TabOk, T.EntryOk, QueuesMatch, MaxRunPri;
    CountedMatches(d.procs, d.queues, d.dqSrunCnt);
    d.MaxRunPriIsHighest();
    var ts := d.procs[p].cls.ts;
    if !ts.kpri {
      return;
    }
    TabRange(d.tsTab, |d.queues|, ts.cpupri);
    ts := T.NewUmdPri(ts.(cpupri := d.tsTab[ts.cpupri].slpret), |d.tsTab|);
    ts := ts.(kpri := false, timeleft := d.tsTab[ts.umdpri].quantum, dispwait := 0);
    var g := d.tsTab[ts.umdpri].globpri;
    d.Store(p, T.SetTs(d.procs[p], ts).(pri := g));
    d.curpri := g;
    if d.npwakecnt == 0 && d.curpri < d.maxrunpri {
      d.runrun := d.runrun + 1;
    }
  }

  method Assign(d: Dispatch, p: nat, ts: TsProc)
    requires d.Valid() && T.TabOk(d.tsTab, |d.queues|) && 0 <= ts.umdpri < |d.tsTab|
    requires p < |d.procs| && d.procs[p].pri < |d.queues|
    requires p == d.curproc ==> !OnQueue(d.Abs(), p)
    modifies d
    ensures d.Valid()
    ensures QueuesMatch(old(d.procs), old(d.queues)) && d.Abs() == T.Assign(old(d.Abs()), p, ts)
    ensures d.tsTab == old(d.tsTab) && d.tsList == old(d.tsList)
  {
    hide AllThreaded, Counted, Summarised, T.TabOk, T.EntryOk, QueuesMatch, MaxRunPri, Remove;
    CountedMatches(d.procs, d.queues, d.dqSrunCnt);
    d.MaxRunPriIsHighest();
    ghost var s := d.Abs();
    var g := d.tsTab[ts.umdpri].globpri;
    if p == d.curproc {
      d.curpri := g;
      var v := d.procs[p].(pri := g);
      if g > d.maxrunpri {
        d.Store(p, T.SetTs(v, ts.(timeleft := d.tsTab[ts.umdpri].quantum)));
      } else {
        d.Store(p, T.SetTs(v, ts.(backq := true)));
        d.runrun := d.runrun + 1;
      }
    } else {
      var wasonq := MoveToUserPri(d, p, ts);
      if wasonq && g > d.curpri {
        d.runrun := d.runrun + 1;
      }
    }
  }

  /** ts_parmsset; `cred` is the requester's credential, None for NULL. */
  method ParmsSet(d: Dispatch, p: nat, uprilim: int, upri: int, maxupri: int, cred: Cred) returns (err: Errno)
    requires d.Valid() && T.Ready(d.Abs(), p) && maxupri > 0
    requires p == d.curproc ==> !OnQueue(d.Abs(), p)
    modifies d
    ensures d.Valid() && QueuesMatch(old(d.procs), old(d.queues))
    ensures var lim := T.Requested(old(d.procs[p].cls.ts.uprilim), uprilim);
            err == if cred.Ordinary? && lim > old(d.procs[p].cls.ts.uprilim) then NotPermitted else Ok
    ensures d.Abs() == if err.Ok? then T.ParmsSet(old(d.Abs()), p, uprilim, upri, maxupri) else old(d.Abs())
  {
    hide AllThreaded, Counted, Summarised, T.TabOk, T.EntryOk, QueuesMatch, T.Assign;
    CountedMatches(d.procs, d.queues, d.dqSrunCnt);
    var ts := d.procs[p].cls.ts;
    var lim := if uprilim == T.NOCHANGE then ts.uprilim else uprilim;
    var pri := if upri == T.NOCHANGE then ts.upri else upri;
    if pri > lim {
      pri := lim;
    }
    if !cred.Null? {
      if lim > ts.uprilim && !cred.Super? {
        return NotPermitted;
      }
    }
    ts := T.NewUmdPri(ts.(uprilim := lim, upri := pri), |d.tsTab|);
    ts := ts.(nice := T.NiceOf(upri, maxupri));
    if ts.kpri {
      d.Store(p, T.SetTs(d.procs[p], ts));
      return Ok;
    }
    Assign(d, p, ts.(dispwait := 0));
    return Ok;
  }

  /** ts_enterclass, memory for the class structure being available. */
  method EnterClass(d: Dispatch, p: nat, parms: T.Parms, maxupri: int, cred: Cred) returns (err: Errno)
    requires d.Valid() && T.TabOk(d.tsTab, |d.queues|) && maxupri > 0
    requires p < |d.procs| && d.procs[p].pri < |d.queues|
    requires p == d.curproc ==> !OnQueue(d.Abs(), p)
    modifies d
    ensures d.Valid() && QueuesMatch(old(d.procs), old(d.queues))
    ensures err == if cred.Ordinary? && parms.Given? && T.Requested(0, parms.uprilim) > 0 && parms.uprilim != T.NOCHANGE
                   then NotPermitted else Ok
    ensures d.Abs() == if err.Ok? then T.EnterClass(old(d.Abs()), p, parms, maxupri) else old(d.Abs())
  {
    hide AllThreaded, Counted, Summarised, T.EntryOk, QueuesMatch, T.Assign;
    CountedMatches(d.procs, d.queues, d.dqSrunCnt);
    if parms.Given? && !cred.Null? {
      var lim := if parms.uprilim == T.NOCHANGE then 0 else parms.uprilim;
      if lim > 0 && !cred.Super? {
        return NotPermitted;
      }
    }
    ghost var s := d.Abs();
    Assign(d, p, T.Initial(parms, |d.tsTab|, maxupri));
    d.tsList := [p] + d.tsList;
    return Ok;
  }

  /** ts_fork and ts_forkret: `child`, still being made, becomes a runnable copy. */
  method Fork(d: Dispatch, parent: nat, child: nat)
    requires d.Valid() && T.Ready(d.Abs(), parent)
    requires child < |d.procs| && child != parent
    requires d.procs[child].pri < |d.queues| && !OnQueue(d.Abs(), child) && !OnQueue(d.Abs(), parent)
    modifies d
    ensures d.Valid()
    ensures d.Abs() == T.Fork(old(d.Abs()), parent, child)
  {
    hide AllThreaded, Counted, Summarised, T.TabOk, T.EntryOk;
    ghost var s := d.Abs();
    CountedMatches(d.procs, d.queues, d.dqSrunCnt);
    NotQueued(d.Abs(), child);
    NotQueued(d.Abs(), parent);
    var pv := d.procs[parent];
    var ts := pv.cls.ts;
    var cts := ts.(timeleft := d.tsTab[ts.umdpri].quantum, dispwait := 0, backq := false);
    d.Store(child, T.SetTs(pv, cts).(stat := SRun));
    d.tsList := [child] + d.tsList;
    d.SetBackDq(child);
    NowBehind(s, d.Abs(), parent, child);
    d.Store(parent, T.SetTs(d.procs[parent], ts.(backq := true, fork := true)));
    d.runrun := d.runrun + 1;
  }

  lemma NowBehind(s: Sched, t: Sched, parent: nat, child: nat)
    requires parent < |s.procs| && |t.procs| == |s.procs| && parent != child
    requires forall i :: 0 <= i < |s.queues| ==> parent !in s.queues[i]
    requires exists i :: 0 <= i < |s.queues| && t.queues == s.queues[i := s.queues[i] + [child]]
    ensures !OnQueue(t, parent)
  {}

  /** The TS_SETDPTBL command of ts_admin, the copied-in table being `new_`. */
  method SetTable(d: Dispatch, new_: seq<TsDpEnt>, super_: bool) returns (err: Errno)
    requires d.Valid() && forall i :: 0 <= i < |new_| ==> -0x8000 <= new_[i].maxwait < 0x8000
    modifies d
    ensures d.Valid()
    ensures err == if !super_ then NotPermitted else if T.Acceptable(new_, |d.tsTab|) then Ok else Invalid
    ensures err.Ok? ==> |new_| == |old(d.tsTab)|
    ensures d.Abs() == if err.Ok? then old(d.Abs()).(tsTab := T.Overlay(old(d.tsTab), new_)) else old(d.Abs())
  {
    hide AllThreaded, Counted, Summarised;
    if !super_ {
      return NotPermitted;
    }
    if |new_| != |d.tsTab| {
      return Invalid;
    }
    var max := |d.tsTab| - 1;
    var i := 0;
    while i < |new_|
      invariant 0 <= i <= |new_|
      invariant forall j :: 0 <= j < i ==>
                  && new_[j].quantum > 0 && new_[j].maxwait >= 0
                  && 0 <= new_[j].tqexp <= max && 0 <= new_[j].slpret <= max && 0 <= new_[j].lwait <= max
    {
      if new_[i].quantum <= 0 {
        return Invalid;
      }
      if new_[i].tqexp > max || new_[i].tqexp < 0 {
        return Invalid;
      }
      if new_[i].slpret > max || new_[i].slpret < 0 {
        return Invalid;
      }
      if new_[i].maxwait < 0 {
        return Invalid;
      }
      if new_[i].lwait > max || new_[i].lwait < 0 {
        return Invalid;
      }
      i := i + 1;
    }
    var tab := d.tsTab;
    i := 0;
    while i < |new_|
      invariant 0 <= i <= |new_| == |tab| == |d.tsTab|
      invariant d.tsTab == old(d.tsTab)
      invariant forall j :: 0 <= j < |tab| ==> tab[j] == if j < i then new_[j].(globpri := d.tsTab[j].globpri) else d.tsTab[j]
    {
      tab := tab[i := TsDpEnt(tab[i].globpri, new_[i].quantum, new_[i].tqexp, new_[i].slpret, new_[i].maxwait, new_[i].lwait)];
      i := i + 1;
    }
    assert tab == T.Overlay(d.tsTab, new_);
    d.tsTab := tab;
    return Ok;
  }
}
