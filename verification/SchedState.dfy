/** What the scheduler keeps about processes, and the dispatcher queues as
    sequences of process table indices (proc.h, disp.h, ts.h, rt.h). */
module SchedState {
  import opened Common

  datatype Stat = SSleep | SRun | SZomb | SStop | SIdl | SOnProc

  /** ts.h, `struct tsproc`; the three flag bits are separate fields. */
  datatype TsProc = TsProc(
    timeleft: int, cpupri: int, uprilim: int, upri: int, umdpri: int, nice: int,
    kpri: bool, backq: bool, fork: bool, dispwait: int)

  /** rt.h, `struct rtproc`. */
  datatype RtProc = RtProc(pquantum: int, timeleft: int, pri: int, ran: bool, backq: bool)

  datatype Class = Sys | Ts(ts: TsProc) | Rt(rt: RtProc)

  /** `load`, `procio` and `sys` are the SLOAD, SPROCIO and SSYS bits of `p_flag`. */
  datatype Proc = Proc(stat: Stat, load: bool, procio: bool, sys: bool, pri: nat, cls: Class)

  datatype TsDpEnt = TsDpEnt(globpri: nat, quantum: int, tqexp: int, slpret: int, maxwait: int, lwait: int)
  datatype RtDpEnt = RtDpEnt(globpri: nat, quantum: int)

  /** `queues[i]` lists, front first, the processes on `dispq[i]`. */
  datatype Sched = Sched(
    procs: seq<Proc>, queues: seq<seq<nat>>, cur: nat, curpri: int,
    runrun: nat, kprunrun: nat, npwakecnt: nat, tsList: seq<nat>, rtList: seq<nat>,
    tsTab: seq<TsDpEnt>)

  /** `(p_flag & (SLOAD|SPROCIO)) == SLOAD || (p_flag & SSYS)` */
  predicate Schedulable(p: Proc)
  {
    (p.load && !p.procio) || p.sys
  }

  /** Every queued process is listed once, on the queue its priority names. */
  predicate QueuesMatch(procs: seq<Proc>, queues: seq<seq<nat>>)
  {
    forall i :: 0 <= i < |queues| ==> QueueMatches(procs, queues[i], i)
  }

  predicate QueueMatches(procs: seq<Proc>, q: seq<nat>, i: nat)
  {
    Distinct(q) && forall k :: 0 <= k < |q| ==> q[k] < |procs| && procs[q[k]].pri == i
  }

  predicate OnQueue(s: Sched, p: nat)
  {
    p < |s.procs| && s.procs[p].pri < |s.queues| && p in s.queues[s.procs[p].pri]
  }

  /** `q` without `p`. */
  function Remove(q: seq<nat>, p: nat): (r: seq<nat>)
    ensures |r| <= |q|
  {
    if q == [] then []
    else if q[0] == p then q[1..]
    else [q[0]] + Remove(q[1..], p)
  }

  lemma {:induction false} RemoveAbsent(q: seq<nat>, p: nat)
    requires p !in q
    ensures Remove(q, p) == q
  {
    if q != [] {
      RemoveAbsent(q[1..], p);
      assert q == [q[0]] + q[1..];
    }
  }

  lemma {:induction false} RemoveAt(q: seq<nat>, k: nat)
    requires k < |q| && Distinct(q)
    ensures Remove(q, q[k]) == q[..k] + q[k + 1..]
  {
    if k > 0 {
      assert q[1..][k - 1] == q[k];
      RemoveAt(q[1..], k - 1);
      assert q[1..][..k - 1] == q[1..k] && q[1..][k..] == q[k + 1..];
      assert [q[0]] + q[1..k] == q[..k];
    }
  }

  lemma RemoveMembers(q: seq<nat>, p: nat)
    requires Distinct(q)
    ensures Distinct(Remove(q, p)) && p !in Remove(q, p)
    ensures forall x :: x in Remove(q, p) <==> x in q && x != p
  {
    if p in q {
      var k :| 0 <= k < |q| && q[k] == p;
      RemoveAt(q, k);
    } else {
      RemoveAbsent(q, p);
    }
  }

  function SetBackDq(s: Sched, p: nat): Sched
    requires p < |s.procs| && s.procs[p].pri < |s.queues|
  {
    var i := s.procs[p].pri;
    s.(queues := s.queues[i := s.queues[i] + [p]])
  }

  function SetFrontDq(s: Sched, p: nat): Sched
    requires p < |s.procs| && s.procs[p].pri < |s.queues|
  {
    var i := s.procs[p].pri;
    s.(queues := s.queues[i := [p] + s.queues[i]])
  }

  function DispDeq(s: Sched, p: nat): Sched
    requires p < |s.procs| && s.procs[p].pri < |s.queues|
  {
    var i := s.procs[p].pri;
    s.(queues := s.queues[i := Remove(s.queues[i], p)])
  }

  lemma {:induction false} RemoveLast(q: seq<nat>, p: nat)
    requires p !in q
    ensures Remove(q + [p], p) == q
  {
    if q != [] {
      assert (q + [p])[1..] == q[1..] + [p];
      RemoveLast(q[1..], p);
    }
  }

  /** dispdeq undoes setbackdq and setfrontdq, and finds nothing to do for a process not queued. */
  lemma DeqUndoes(s: Sched, p: nat)
    requires p < |s.procs| && s.procs[p].pri < |s.queues| && !OnQueue(s, p)
    ensures DispDeq(SetBackDq(s, p), p) == s && DispDeq(SetFrontDq(s, p), p) == s && DispDeq(s, p) == s
  {
    var q := s.queues[s.procs[p].pri];
    RemoveLast(q, p);
    RemoveAbsent(q, p);
    assert ([p] + q)[1..] == q;
  }

  function Store(s: Sched, p: nat, v: Proc): Sched
    requires p < |s.procs|
  {
    s.(procs := s.procs[p := v])
  }

  // ------------------------------------------- the schedulable processes

  predicate HasSchedulable(procs: seq<Proc>, q: seq<nat>)
    requires forall k :: 0 <= k < |q| ==> q[k] < |procs|
  {
    exists k :: 0 <= k < |q| && Schedulable(procs[q[k]])
  }

  /** Number of loaded or system processes on a queue (`dq_sruncnt`). */
  function CountRun(procs: seq<Proc>, q: seq<nat>): (n: nat)
    requires forall k :: 0 <= k < |q| ==> q[k] < |procs|
  {
    if q == [] then 0
    else (if Schedulable(procs[q[0]]) then 1 else 0) + CountRun(procs, q[1..])
  }

  lemma {:induction false} CountPositive(procs: seq<Proc>, q: seq<nat>)
    requires forall k :: 0 <= k < |q| ==> q[k] < |procs|
    ensures CountRun(procs, q) > 0 <==> HasSchedulable(procs, q)
  {
    if q != [] {
      CountPositive(procs, q[1..]);
      if HasSchedulable(procs, q[1..]) {
        var k :| 0 <= k < |q[1..]| && Schedulable(procs[q[1..][k]]);
        assert Schedulable(procs[q[k + 1]]);
      }
      if HasSchedulable(procs, q) {
        var k :| 0 <= k < |q| && Schedulable(procs[q[k]]);
        if k > 0 { assert q[1..][k - 1] == q[k]; }
      }
    }
  }

  lemma {:induction false} CountConcat(procs: seq<Proc>, q: seq<nat>, r: seq<nat>)
    requires forall k :: 0 <= k < |q| ==> q[k] < |procs|
    requires forall k :: 0 <= k < |r| ==> r[k] < |procs|
    ensures CountRun(procs, q + r) == CountRun(procs, q) + CountRun(procs, r)
  {
    if q == [] {
      assert q + r == r;
    } else {
      assert (q + r)[1..] == q[1..] + r;
      CountConcat(procs, q[1..], r);
    }
  }

  lemma {:induction false} CountFrame(procs: seq<Proc>, procs': seq<Proc>, q: seq<nat>)
    requires |procs'| == |procs|
    requires forall k :: 0 <= k < |q| ==> q[k] < |procs|
    requires forall k :: 0 <= k < |q| ==> Schedulable(procs'[q[k]]) == Schedulable(procs[q[k]])
    ensures CountRun(procs', q) == CountRun(procs, q)
  {
    if q != [] {
      CountFrame(procs, procs', q[1..]);
    }
  }

  lemma CountSplit(procs: seq<Proc>, q: seq<nat>, k: nat)
    requires forall k :: 0 <= k < |q| ==> q[k] < |procs|
    requires k < |q|
    ensures CountRun(procs, q) == CountRun(procs, q[..k] + q[k + 1..]) + if Schedulable(procs[q[k]]) then 1 else 0
  {
    var a, b := q[..k], q[k + 1..];
    assert q == a + ([q[k]] + b);
    CountConcat(procs, a, [q[k]] + b);
    CountConcat(procs, [q[k]], b);
    CountConcat(procs, a, b);
  }

  /** Changing one queued process's flags moves its queue's count by one. */
  lemma CountFlip(procs: seq<Proc>, q: seq<nat>, k: nat, v: Proc)
    requires Distinct(q) && k < |q|
    requires forall k :: 0 <= k < |q| ==> q[k] < |procs|
    ensures CountRun(procs[q[k] := v], q) ==
            CountRun(procs, q) + (if Schedulable(v) then 1 else 0) - (if Schedulable(procs[q[k]]) then 1 else 0)
  {
    var procs' := procs[q[k] := v];
    CountSplit(procs, q, k);
    CountSplit(procs', q, k);
    CountFrame(procs, procs', q[..k] + q[k + 1..]);
  }

  /** `h` is the highest queue below `n` holding a schedulable process, or -1. */
  predicate IsHighest(procs: seq<Proc>, queues: seq<seq<nat>>, h: int)
    requires QueuesMatch(procs, queues)
  {
    && -1 <= h < |queues|
    && (h >= 0 ==> HasSchedulable(procs, queues[h]))
    && forall i :: h < i < |queues| ==> !HasSchedulable(procs, queues[i])
  }

  /** `maxrunpri` read off the queues. */
  function Highest(procs: seq<Proc>, queues: seq<seq<nat>>, n: nat): (h: int)
    requires QueuesMatch(procs, queues) && n <= |queues|
    ensures -1 <= h < n
    ensures h >= 0 ==> HasSchedulable(procs, queues[h])
    ensures forall i :: h < i < n ==> !HasSchedulable(procs, queues[i])
  {
    if n == 0 then -1
    else if HasSchedulable(procs, queues[n - 1]) then n - 1
    else Highest(procs, queues, n - 1)
  }

  function MaxRunPri(s: Sched): (h: int)
    requires QueuesMatch(s.procs, s.queues)
    ensures IsHighest(s.procs, s.queues, h)
  {
    Highest(s.procs, s.queues, |s.queues|)
  }
}
