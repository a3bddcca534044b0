/** The dispatcher queues as disp.c keeps them: singly linked lists threaded
    through the process table, with a count per queue, a bitmap of active queues,
    a total and the priority of the highest active queue. */
module Dispatcher {
  import opened Common
  import opened SchedState
  import opened Bitmap

  /** NULL */
  const NIL := -1

  /** `first` and `last` delimit the list `q` threaded through `link`. */
  ghost predicate Threads(q: seq<nat>, first: int, last: int, link: seq<int>)
  {
    && (forall k :: 0 <= k < |q| ==> q[k] < |link|)
    && (q == [] ==> first == NIL && last == NIL)
    && (q != [] ==> first == q[0] && last == q[|q| - 1] && link[q[|q| - 1]] == NIL)
    && (forall k :: 0 <= k < |q| - 1 ==> link[q[k]] == q[k + 1])
  }

  ghost predicate AllThreaded(queues: seq<seq<nat>>, first: seq<int>, last: seq<int>, link: seq<int>)
  {
    && |first| == |queues| && |last| == |queues|
    && forall i :: 0 <= i < |queues| ==> Threads(queues[i], first[i], last[i], link)
  }

  ghost predicate Counted(procs: seq<Proc>, queues: seq<seq<nat>>, cnt: seq<nat>)
  {
    && QueuesMatch(procs, queues)
    && |cnt| == |queues|
    && forall i :: 0 <= i < |queues| ==> cnt[i] == CountRun(procs, queues[i])
  }

  function Total(cnt: seq<nat>): (t: nat)
  {
    if cnt == [] then 0 else Total(cnt[..|cnt| - 1]) + cnt[|cnt| - 1]
  }

  lemma {:induction false} TotalUpdate(cnt: seq<nat>, i: nat, v: nat)
    requires i < |cnt|
    ensures Total(cnt[i := v]) == Total(cnt) - cnt[i] + v
  {
    var n := |cnt| - 1;
    var new_ := cnt[i := v];
    if i == n {
      assert new_[..n] == cnt[..n];
    } else {
      TotalUpdate(cnt[..n], i, v);
      assert new_[..n] == cnt[..n][i := v];
    }
  }

  lemma {:induction false} TotalZero(cnt: seq<nat>)
    ensures Total(cnt) == 0 <==> forall i :: 0 <= i < |cnt| ==> cnt[i] == 0
  {
    if cnt != [] {
      var n := |cnt| - 1;
      TotalZero(cnt[..n]);
      assert forall i :: 0 <= i < n ==> cnt[..n][i] == cnt[i];
    }
  }

  /** What the bitmap, the total and `maxrunpri` say about the counts. */
  ghost predicate Summarised(cnt: seq<nat>, actmap: seq<Word>, srunprocs: int, maxrunpri: int)
  {
    && |actmap| == |cnt| / 32 + 1
    && (forall i: nat :: i / 32 < |actmap| ==> (Test(actmap, i) <==> i < |cnt| && cnt[i] > 0))
    && srunprocs == Total(cnt)
    && -1 <= maxrunpri < |cnt|
    && (maxrunpri >= 0 ==> cnt[maxrunpri] > 0)
    && forall i :: maxrunpri < i < |cnt| ==> cnt[i] == 0
  }

  // -------------------------------------------- relinking, one list at a time

  lemma FrameThreads(q: seq<nat>, first: int, last: int, link: seq<int>, link': seq<int>)
    requires Threads(q, first, last, link) && |link'| == |link|
    requires forall k :: 0 <= k < |q| ==> link'[q[k]] == link[q[k]]
    ensures Threads(q, first, last, link')
  {}

  lemma AppendThreads(q: seq<nat>, first: int, last: int, link: seq<int>, p: nat)
    requires Threads(q, first, last, link) && Distinct(q) && p !in q && p < |link|
    ensures q == [] ==> Threads([p], p, p, link[p := NIL])
    ensures q != [] ==> 0 <= last < |link| && Threads(q + [p], first, p, link[p := NIL][last := p])
  {
    if q != [] {
      var link' := link[p := NIL][last := p];
      var r := q + [p];
      forall k | 0 <= k < |r| - 1 ensures link'[r[k]] == r[k + 1] {
        assert q[k] != p;
      }
    }
  }

  lemma PrependThreads(q: seq<nat>, first: int, last: int, link: seq<int>, p: nat)
    requires Threads(q, first, last, link) && p !in q && p < |link|
    ensures q == [] ==> Threads([p], p, p, link[p := NIL])
    ensures q != [] ==> Threads([p] + q, p, last, link[p := first])
  {
    if q != [] {
      var link' := link[p := first];
      var r := [p] + q;
      forall k | 0 <= k < |r| - 1 ensures link'[r[k]] == r[k + 1] {
        if k > 0 { assert r[k] == q[k - 1] && q[k - 1] != p; }
      }
      assert q[|q| - 1] != p;
    }
  }

  lemma UnlinkFirst(q: seq<nat>, first: int, last: int, link: seq<int>)
    requires Threads(q, first, last, link) && q != []
    ensures Threads(q[1..], link[q[0]], if link[q[0]] == NIL then NIL else last, link)
  {
    if |q| > 1 { assert link[q[0]] == q[1]; }
  }

  lemma UnlinkLater(q: seq<nat>, first: int, last: int, link: seq<int>, k: nat)
    requires Threads(q, first, last, link) && Distinct(q) && 0 < k < |q|
    ensures Threads(q[..k] + q[k + 1..], first,
                    if link[q[k]] == NIL then q[k - 1] else last, link[q[k - 1] := link[q[k]]])
  {
    var link' := link[q[k - 1] := link[q[k]]];
    var r := q[..k] + q[k + 1..];
    forall j | 0 <= j < |r| - 1 ensures link'[r[j]] == r[j + 1] {
      if j >= k {
        assert r[j] == q[j + 1] && q[j + 1] != q[k - 1];
      } else if j < k - 1 {
        assert r[j] == q[j] && q[j] != q[k - 1];
      }
    }
    if k < |q| - 1 { assert link[q[k]] == q[k + 1]; assert q[|q| - 1] != q[k - 1]; }
  }

  // ------------------------------------------------- relinking, all the lists

  /** What the representation says about queue `i`. */
  lemma QueueFacts(procs: seq<Proc>, queues: seq<seq<nat>>, first: seq<int>, last: seq<int>, link: seq<int>, i: nat)
    requires AllThreaded(queues, first, last, link) && QueuesMatch(procs, queues) && i < |queues|
    ensures |first| == |queues| == |last|
    ensures Threads(queues[i], first[i], last[i], link)
    ensures QueueMatches(procs, queues[i], i) && Distinct(queues[i])
    ensures queues[i] == [] <==> first[i] == NIL
    ensures queues[i] == [] <==> last[i] == NIL
    ensures queues[i] != [] ==> first[i] == queues[i][0] && 0 <= last[i] < |link|
    ensures forall k :: 0 <= k < |queues[i]| ==> queues[i][k] < |procs| && queues[i][k] < |link|
    ensures forall k :: 0 <= k < |queues[i]| ==>
              link[queues[i][k]] == if k == |queues[i]| - 1 then NIL else queues[i][k + 1]
  {}

  lemma NotQueued(s: Sched, p: nat)
    requires QueuesMatch(s.procs, s.queues) && p < |s.procs| && !OnQueue(s, p)
    ensures forall i :: 0 <= i < |s.queues| ==> p !in s.queues[i]
  {
    forall i | 0 <= i < |s.queues| ensures p !in s.queues[i] {
      assert QueueMatches(s.procs, s.queues[i], i);
    }
  }

  lemma FrameOthers(procs: seq<Proc>, queues: seq<seq<nat>>, first: seq<int>, last: seq<int>,
                    link: seq<int>, i: nat, q': seq<nat>, f: int, l: int, link': seq<int>)
    requires AllThreaded(queues, first, last, link) && QueuesMatch(procs, queues)
    requires i < |queues| && |link| == |procs| && |link'| == |link|
    requires Threads(q', f, l, link')
    requires forall x: nat :: x < |procs| && procs[x].pri != i && (exists j :: 0 <= j < |queues| && x in queues[j]) ==> link'[x] == link[x]
    ensures AllThreaded(queues[i := q'], first[i := f], last[i := l], link')
  {
    forall j | 0 <= j < |queues| && j != i
      ensures Threads(queues[j], first[j], last[j], link')
    {
      assert QueueMatches(procs, queues[j], j);
      assert forall k :: 0 <= k < |queues[j]| ==> queues[j][k] in queues[j];
      FrameThreads(queues[j], first[j], last[j], link, link');
    }
  }

  lemma AppendAll(procs: seq<Proc>, queues: seq<seq<nat>>, first: seq<int>, last: seq<int>, link: seq<int>, p: nat)
    requires AllThreaded(queues, first, last, link) && QueuesMatch(procs, queues)
    requires |link| == |procs| && p < |procs| && procs[p].pri < |queues|
    requires forall i :: 0 <= i < |queues| ==> p !in queues[i]
    ensures |first| == |queues| == |last|
    ensures var i := procs[p].pri;
            if last[i] == NIL then
              AllThreaded(queues[i := queues[i] + [p]], first[i := p], last[i := p], link[p := NIL])
            else
              && 0 <= last[i] < |link|
              && AllThreaded(queues[i := queues[i] + [p]], first, last[i := p], link[p := NIL][last[i] := p])
  {
    hide Threads, AllThreaded, QueuesMatch, QueueMatches, Distinct;
    var i := procs[p].pri;
    var q := queues[i];
    QueueFacts(procs, queues, first, last, link, i);
    AppendThreads(q, first[i], last[i], link, p);
    if last[i] == NIL {
      FrameOthers(procs, queues, first, last, link, i, q + [p], p, p, link[p := NIL]);
    } else {
      FrameOthers(procs, queues, first, last, link, i, q + [p], first[i], p, link[p := NIL][last[i] := p]);
      assert first == first[i := first[i]];
    }
  }

  lemma PrependAll(procs: seq<Proc>, queues: seq<seq<nat>>, first: seq<int>, last: seq<int>, link: seq<int>, p: nat)
    requires AllThreaded(queues, first, last, link) && QueuesMatch(procs, queues)
    requires |link| == |procs| && p < |procs| && procs[p].pri < |queues|
    requires forall i :: 0 <= i < |queues| ==> p !in queues[i]
    ensures |first| == |queues| == |last|
    ensures var i := procs[p].pri;
            if first[i] == NIL then
              AllThreaded(queues[i := [p] + queues[i]], first[i := p], last[i := p], link[p := NIL])
            else
              AllThreaded(queues[i := [p] + queues[i]], first[i := p], last, link[p := first[i]])
  {
    hide Threads, AllThreaded, QueuesMatch, QueueMatches, Distinct;
    var i := procs[p].pri;
    var q := queues[i];
    QueueFacts(procs, queues, first, last, link, i);
    PrependThreads(q, first[i], last[i], link, p);
    if first[i] == NIL {
      FrameOthers(procs, queues, first, last, link, i, [p] + q, p, p, link[p := NIL]);
    } else {
      FrameOthers(procs, queues, first, last, link, i, [p] + q, p, last[i], link[p := first[i]]);
      assert last == last[i := last[i]];
    }
  }

  lemma CountedMatches(procs: seq<Proc>, queues: seq<seq<nat>>, cnt: seq<nat>)
    requires Counted(procs, queues, cnt)
    ensures QueuesMatch(procs, queues) && |cnt| == |queues|
  {}

  lemma SomeSchedulable(procs: seq<Proc>, q: seq<nat>)
    requires forall k :: 0 <= k < |q| ==> q[k] < |procs|
    requires HasSchedulable(procs, q)
    ensures exists k :: 0 <= k < |q| && Schedulable(procs[q[k]])
  {}

  /** Exchanging queue `i` for a queue `q` with count `n`. */
  lemma CountedReplace(procs: seq<Proc>, queues: seq<seq<nat>>, cnt: seq<nat>, i: nat, q: seq<nat>, n: nat)
    requires Counted(procs, queues, cnt) && i < |queues| && QueueMatches(procs, q, i)
    requires n == CountRun(procs, q)
    ensures |cnt| == |queues| && Counted(procs, queues[i := q], cnt[i := n])
  {}

  lemma CountedAdd(procs: seq<Proc>, queues: seq<seq<nat>>, cnt: seq<nat>, p: nat, q: seq<nat>)
    requires Counted(procs, queues, cnt) && p < |procs| && procs[p].pri < |queues|
    requires p !in queues[procs[p].pri]
    requires q == queues[procs[p].pri] + [p] || q == [p] + queues[procs[p].pri]
    ensures |cnt| == |queues| && QueueMatches(procs, q, procs[p].pri)
    ensures var i := procs[p].pri;
            Counted(procs, queues[i := q], if Schedulable(procs[p]) then cnt[i := cnt[i] + 1] else cnt)
  {
    var i := procs[p].pri;
    assert QueueMatches(procs, queues[i], i);
    assert QueueMatches(procs, q, i);
    CountConcat(procs, queues[i], [p]);
    CountConcat(procs, [p], queues[i]);
    CountedReplace(procs, queues, cnt, i, q, CountRun(procs, q));
    if !Schedulable(procs[p]) { assert cnt[i := cnt[i]] == cnt; }
  }

  lemma CountedRemove(procs: seq<Proc>, queues: seq<seq<nat>>, cnt: seq<nat>, i: nat, k: nat)
    requires Counted(procs, queues, cnt) && i < |queues| && k < |queues[i]|
    ensures |cnt| == |queues| && queues[i][k] < |procs|
    ensures Remove(queues[i], queues[i][k]) == queues[i][..k] + queues[i][k + 1..]
    ensures var p := queues[i][k];
            && (Schedulable(procs[p]) ==> cnt[i] > 0)
            && Counted(procs, queues[i := Remove(queues[i], p)],
                       if Schedulable(procs[p]) then cnt[i := cnt[i] - 1] else cnt)
  {
    var q := queues[i];
    assert QueueMatches(procs, q, i);
    RemoveAt(q, k);
    CountSplit(procs, q, k);
    RemoveMembers(q, q[k]);
    var r := Remove(q, q[k]);
    assert QueueMatches(procs, r, i) by {
      forall j | 0 <= j < |r| ensures r[j] < |procs| && procs[r[j]].pri == i { assert r[j] in q; }
    }
    CountedReplace(procs, queues, cnt, i, r, CountRun(procs, r));
    if !Schedulable(procs[q[k]]) { assert cnt[i := cnt[i]] == cnt; }
  }

  /** A store that moves no queued process and changes no queued process's schedulability. */
  lemma CountedStore(procs: seq<Proc>, queues: seq<seq<nat>>, cnt: seq<nat>, p: nat, v: Proc)
    requires Counted(procs, queues, cnt) && p < |procs|
    requires forall i :: 0 <= i < |queues| && p in queues[i] ==> v.pri == procs[p].pri && Schedulable(v) == Schedulable(procs[p])
    ensures Counted(procs[p := v], queues, cnt)
  {
    var procs' := procs[p := v];
    forall i | 0 <= i < |queues|
      ensures QueueMatches(procs', queues[i], i)
      ensures cnt[i] == CountRun(procs', queues[i])
    {
      assert QueueMatches(procs, queues[i], i);
      assert forall k :: 0 <= k < |queues[i]| ==> queues[i][k] in queues[i];
      CountFrame(procs, procs', queues[i]);
    }
  }

  /** A change of flags moves the count of the process's own queue. */
  lemma CountedFlip(procs: seq<Proc>, queues: seq<seq<nat>>, cnt: seq<nat>, p: nat, v: Proc)
    requires Counted(procs, queues, cnt) && p < |procs| && v.pri == procs[p].pri < |queues|
    requires p in queues[v.pri] && Schedulable(v) != Schedulable(procs[p])
    ensures |cnt| == |queues|
    ensures Schedulable(procs[p]) ==> cnt[v.pri] > 0
    ensures Counted(procs[p := v], queues,
                    cnt[v.pri := if Schedulable(v) then cnt[v.pri] + 1 else cnt[v.pri] - 1])
  {
    var procs' := procs[p := v];
    var k :| 0 <= k < |queues[v.pri]| && queues[v.pri][k] == p;
    assert QueueMatches(procs, queues[v.pri], v.pri);
    CountFlip(procs, queues[v.pri], k, v);
    CountPositive(procs, queues[v.pri]);
    forall i | 0 <= i < |queues|
      ensures QueueMatches(procs', queues[i], i)
      ensures i != v.pri ==> cnt[i] == CountRun(procs', queues[i])
    {
      assert QueueMatches(procs, queues[i], i);
      if i != v.pri {
        assert forall k :: 0 <= k < |queues[i]| ==> queues[i][k] != p;
        CountFrame(procs, procs', queues[i]);
      }
    }
  }

  class Dispatch {
    var procs: seq<Proc>       // the process table
    var pLink: seq<int>        // p_link of every process
    var dqFirst: seq<int>
    var dqLast: seq<int>
    var dqSrunCnt: seq<nat>
    var dqActMap: seq<Word>
    var srunprocs: int
    var maxrunpri: int
    var curproc: nat
    var curpri: int
    var runrun: nat
    var kprunrun: nat
    var npwakecnt: nat
    var tsList: seq<nat>       // the processes on the list headed by ts_plisthead
    var rtList: seq<nat>       // and on that headed by rt_plisthead
    var tsTab: seq<TsDpEnt>    // ts_dptbl
    ghost var queues: seq<seq<nat>>

    ghost predicate Valid()
      reads this
    {
      && |pLink| == |procs|
      && AllThreaded(queues, dqFirst, dqLast, pLink)
      && Counted(procs, queues, dqSrunCnt)
      && Summarised(dqSrunCnt, dqActMap, srunprocs, maxrunpri)
    }

    ghost function Abs(): Sched
      reads this
    {
      Sched(procs, queues, curproc, curpri, runrun, kprunrun, npwakecnt, tsList, rtList, tsTab)
    }

    /** dispinit: empty queues, empty bitmap. */
    constructor (nglobpris: nat, table: seq<Proc>, sched: nat, tab: seq<TsDpEnt>)
      ensures Valid()
      ensures Abs() == Sched(table, seq(nglobpris, _ => []), sched, 0, 0, 0, 0, [], [], tab)
    {
      procs := table;
      pLink := seq(|table|, _ => NIL);
      dqFirst := seq(nglobpris, _ => NIL);
      dqLast := seq(nglobpris, _ => NIL);
      dqSrunCnt := seq(nglobpris, _ => 0);
      dqActMap := seq(nglobpris / 32 + 1, _ => 0);
      srunprocs := 0;
      maxrunpri := -1;
      curproc, curpri := sched, 0;
      runrun, kprunrun, npwakecnt := 0, 0, 0;
      tsList, rtList, tsTab := [], [], tab;
      queues := seq(nglobpris, _ => []);
      new;
      TotalZero(dqSrunCnt);
      forall i: nat | i / 32 < |dqActMap| ensures !Test(dqActMap, i) { ZeroHasNoBit(i % 32); }
    }

    /** `maxrunpri` is the highest queue with a schedulable process. */
    lemma MaxRunPriIsHighest()
      requires Valid()
      ensures maxrunpri == MaxRunPri(Abs())
    {
      forall i | 0 <= i < |queues|
        ensures dqSrunCnt[i] > 0 <==> HasSchedulable(procs, queues[i])
      {
        CountPositive(procs, queues[i]);
      }
    }

    method DqSrunInc(pri: nat)
      requires Summarised(dqSrunCnt, dqActMap, srunprocs, maxrunpri) && pri < |dqSrunCnt|
      modifies this`srunprocs, this`dqSrunCnt, this`dqActMap, this`maxrunpri
      ensures Summarised(dqSrunCnt, dqActMap, srunprocs, maxrunpri)
      ensures dqSrunCnt == old(dqSrunCnt[pri := dqSrunCnt[pri] + 1])
    {
      hide Total, Bit, Test, Set, Clear;
      TotalUpdate(dqSrunCnt, pri, dqSrunCnt[pri] + 1);
      srunprocs := srunprocs + 1;
      dqSrunCnt := dqSrunCnt[pri := dqSrunCnt[pri] + 1];
      if dqSrunCnt[pri] == 1 {
        dqActMap := Set(dqActMap, pri);
        if pri > maxrunpri {
          maxrunpri := pri;
        }
      }
    }

    method DqSrunDec(pri: nat)
      requires Summarised(dqSrunCnt, dqActMap, srunprocs, maxrunpri)
      requires pri < |dqSrunCnt| && dqSrunCnt[pri] > 0
      modifies this`srunprocs, this`dqSrunCnt, this`dqActMap, this`maxrunpri
      ensures Summarised(dqSrunCnt, dqActMap, srunprocs, maxrunpri)
      ensures dqSrunCnt == old(dqSrunCnt[pri := dqSrunCnt[pri] - 1])
    {
      hide Total, Bit, Test, Set, Clear;
      TotalUpdate(dqSrunCnt, pri, dqSrunCnt[pri] - 1);
      srunprocs := srunprocs - 1;
      dqSrunCnt := dqSrunCnt[pri := dqSrunCnt[pri] - 1];
      if dqSrunCnt[pri] == 0 {
        dqActMap := Clear(dqActMap, pri);
        if srunprocs == 0 {
          TotalZero(dqSrunCnt);
          maxrunpri := -1;
        } else if pri == maxrunpri {
          maxrunpri := GetHighBit(dqActMap, maxrunpri / 32);
        }
      }
    }

    /** Link a process behind the last of its queue. */
    method LinkLast(pp: nat, ppri: nat)
      requires |pLink| == |procs| && AllThreaded(queues, dqFirst, dqLast, pLink) && QueuesMatch(procs, queues)
      requires pp < |procs| && ppri == procs[pp].pri < |queues| && forall i :: 0 <= i < |queues| ==> pp !in queues[i]
      modifies this`dqFirst, this`dqLast, this`pLink, this`queues
      ensures |pLink| == |procs| && AllThreaded(queues, dqFirst, dqLast, pLink)
      ensures queues == old(queues)[ppri := old(queues)[ppri] + [pp]]
    {
      hide Threads, AllThreaded, QueuesMatch;
      AppendAll(procs, queues, dqFirst, dqLast, pLink, pp);
      if dqLast[ppri] == NIL {
        pLink := pLink[pp := NIL];
        dqFirst, dqLast := dqFirst[ppri := pp], dqLast[ppri := pp];
      } else {
        pLink := pLink[pp := NIL];
        pLink := pLink[dqLast[ppri] := pp];
        dqLast := dqLast[ppri := pp];
      }
      queues := queues[ppri := queues[ppri] + [pp]];
    }

    /** ... or before the first. */
    method LinkFirst(pp: nat, ppri: nat)
      requires |pLink| == |procs| && AllThreaded(queues, dqFirst, dqLast, pLink) && QueuesMatch(procs, queues)
      requires pp < |procs| && ppri == procs[pp].pri < |queues| && forall i :: 0 <= i < |queues| ==> pp !in queues[i]
      modifies this`dqFirst, this`dqLast, this`pLink, this`queues
      ensures |pLink| == |procs| && AllThreaded(queues, dqFirst, dqLast, pLink)
      ensures queues == old(queues)[ppri := [pp] + old(queues)[ppri]]
    {
      hide Threads, AllThreaded, QueuesMatch;
      PrependAll(procs, queues, dqFirst, dqLast, pLink, pp);
      if dqFirst[ppri] == NIL {
        pLink := pLink[pp := NIL];
        dqFirst, dqLast := dqFirst[ppri := pp], dqLast[ppri := pp];
      } else {
        pLink := pLink[pp := dqFirst[ppri]];
        dqFirst := dqFirst[ppri := pp];
      }
      queues := queues[ppri := [pp] + queues[ppri]];
    }

    method SetBackDq(pp: nat)
      requires Valid() && pp < |procs| && procs[pp].pri < |queues|
      requires !OnQueue(Abs(), pp)
      modifies this
      ensures Valid()
      ensures Abs() == SchedState.SetBackDq(old(Abs()), pp)
    {
      hide Threads, AllThreaded, Counted, QueuesMatch, QueueMatches, Summarised, CountRun, Remove, Distinct, OnQueue;
      CountedMatches(procs, queues, dqSrunCnt);
      var ppri := procs[pp].pri;
      NotQueued(Abs(), pp);
      CountedAdd(procs, queues, dqSrunCnt, pp, queues[ppri] + [pp]);
      LinkLast(pp, ppri);
      if Schedulable(procs[pp]) {
        DqSrunInc(ppri);
      }
    }

    method SetFrontDq(pp: nat)
      requires Valid() && pp < |procs| && procs[pp].pri < |queues|
      requires !OnQueue(Abs(), pp)
      modifies this
      ensures Valid()
      ensures Abs() == SchedState.SetFrontDq(old(Abs()), pp)
    {
      hide Threads, AllThreaded, Counted, QueuesMatch, QueueMatches, Summarised, CountRun, Remove, Distinct, OnQueue;
      CountedMatches(procs, queues, dqSrunCnt);
      var ppri := procs[pp].pri;
      NotQueued(Abs(), pp);
      CountedAdd(procs, queues, dqSrunCnt, pp, [pp] + queues[ppri]);
      LinkFirst(pp, ppri);
      if Schedulable(procs[pp]) {
        DqSrunInc(ppri);
      }
    }

    /** Unlink the process at position `k` of its queue, whose predecessor is `prp`. */
    method Unlink(i: nat, ghost k: nat, rp: nat, prp: int)
      requires |pLink| == |procs| && AllThreaded(queues, dqFirst, dqLast, pLink)
      requires QueuesMatch(procs, queues)
      requires i < |queues| && k < |queues[i]| && queues[i][k] == rp
      requires prp == if k == 0 then NIL else queues[i][k - 1]
      modifies this`dqFirst, this`dqLast, this`pLink, this`queues
      ensures |pLink| == |procs| && AllThreaded(queues, dqFirst, dqLast, pLink)
      ensures queues == old(queues)[i := old(queues[i])[..k] + old(queues[i])[k + 1..]]
    {
      hide Threads, AllThreaded, QueuesMatch, QueueMatches, Distinct;
      QueueFacts(procs, queues, dqFirst, dqLast, pLink, i);
      ghost var q := queues[i];
      ghost var r := q[..k] + q[k + 1..];
      ghost var link := pLink;
      if prp == NIL {
        UnlinkFirst(q, dqFirst[i], dqLast[i], pLink);
        assert r == q[1..];
        assert dqLast == dqLast[i := dqLast[i]];
        FrameOthers(procs, queues, dqFirst, dqLast, link, i, r, pLink[rp], if pLink[rp] == NIL then NIL else dqLast[i], pLink);
        dqFirst := dqFirst[i := pLink[rp]];
        if dqFirst[i] == NIL {
          dqLast := dqLast[i := NIL];
        }
      } else {
        UnlinkLater(q, dqFirst[i], dqLast[i], pLink, k);
        pLink := pLink[prp := pLink[rp]];
        FrameOthers(procs, queues, dqFirst, dqLast, link, i, r, dqFirst[i], if pLink[prp] == NIL then prp else dqLast[i], pLink);
        assert dqFirst == dqFirst[i := dqFirst[i]] && dqLast == dqLast[i := dqLast[i]];
        if pLink[prp] == NIL {
          dqLast := dqLast[i := prp];
        }
      }
      queues := queues[i := r];
    }

    /** The search of dispdeq: a process with its predecessor, or the end of the queue. */
    method FindOnQueue(pp: nat, ppri: nat) returns (rp: int, prp: int, ghost k: nat)
      requires |pLink| == |procs| && AllThreaded(queues, dqFirst, dqLast, pLink) && QueuesMatch(procs, queues) && ppri < |queues|
      ensures k <= |queues[ppri]| && prp == if k == 0 then NIL else queues[ppri][k - 1]
      ensures if rp == NIL then pp !in queues[ppri] else k < |queues[ppri]| && rp == queues[ppri][k] == pp
    {
      hide Threads, AllThreaded, QueuesMatch, QueueMatches, Distinct;
      ghost var q := queues[ppri];
      QueueFacts(procs, queues, dqFirst, dqLast, pLink, ppri);
      rp, prp, k := dqFirst[ppri], NIL, 0;
      while rp != pp && rp != NIL
        invariant k <= |q|
        invariant rp == if k < |q| then q[k] else NIL
        invariant prp == if k == 0 then NIL else q[k - 1]
        invariant forall j :: 0 <= j < k ==> q[j] != pp
        decreases |q| - k
      {
        prp := rp;
        rp := pLink[prp];
        k := k + 1;
      }
    }

    method DispDeq(pp: nat) returns (found: bool)
      requires Valid() && pp < |procs| && procs[pp].pri < |queues|
      modifies this
      ensures Valid()
      ensures found == old(OnQueue(Abs(), pp))
      ensures Abs() == SchedState.DispDeq(old(Abs()), pp)
    {
      hide Threads, AllThreaded, Counted, QueuesMatch, QueueMatches, Summarised, CountRun, Remove, Distinct;
      CountedMatches(procs, queues, dqSrunCnt);
      var ppri := procs[pp].pri;
      var rp, prp;
      ghost var k;
      rp, prp, k := FindOnQueue(pp, ppri);
      if rp == NIL {
        RemoveAbsent(queues[ppri], pp);
        return false;
      }
      CountedRemove(procs, queues, dqSrunCnt, ppri, k);
      Unlink(ppri, k, pp, prp);
      if Schedulable(procs[pp]) {
        DqSrunDec(ppri);
      }
      return true;
    }

    /** The stores class code makes through `ts_pstatp`, `ts_pprip` and the class
        structure: they may move a process off-queue or change what no count depends on. */
    method Store(pp: nat, v: Proc)
      requires Valid() && pp < |procs|
      requires OnQueue(Abs(), pp) ==> v.pri == procs[pp].pri && Schedulable(v) == Schedulable(procs[pp])
      modifies this`procs
      ensures Valid()
      ensures Abs() == SchedState.Store(old(Abs()), pp, v)
    {
      hide Threads, AllThreaded, Counted, QueuesMatch, QueueMatches, Summarised, CountRun, Remove, Distinct;
      CountedMatches(procs, queues, dqSrunCnt);
      if !OnQueue(Abs(), pp) {
        NotQueued(Abs(), pp);
      }
      CountedStore(procs, queues, dqSrunCnt, pp, v);
      procs := procs[pp := v];
    }

    /** A change of SLOAD, SPROCIO or SSYS made together with the matching call of
        dq_sruninc or dq_srundec; `inc` and `dec` say which call the source makes. */
    method StoreFlags(pp: nat, v: Proc, inc: bool, dec: bool)
      requires Valid() && pp < |procs| && v.pri == procs[pp].pri < |queues|
      requires inc <==> OnQueue(Abs(), pp) && !Schedulable(procs[pp]) && Schedulable(v)
      requires dec <==> OnQueue(Abs(), pp) && Schedulable(procs[pp]) && !Schedulable(v)
      modifies this
      ensures Valid()
      ensures Abs() == SchedState.Store(old(Abs()), pp, v)
    {
      hide Threads, AllThreaded, Counted, QueuesMatch, QueueMatches, Summarised, CountRun, Remove, Distinct;
      CountedMatches(procs, queues, dqSrunCnt);
      var ppri := procs[pp].pri;
      if inc || dec {
        CountedFlip(procs, queues, dqSrunCnt, pp, v);
      } else {
        if !OnQueue(Abs(), pp) {
          NotQueued(Abs(), pp);
        }
        CountedStore(procs, queues, dqSrunCnt, pp, v);
      }
      procs := procs[pp := v];
      if inc {
        DqSrunInc(ppri);
      } else if dec {
        DqSrunDec(ppri);
      }
    }

    /** The skip loop of pswtch: it always stops, at the first process that may run. */
    method SkipToSchedulable(i: nat) returns (pp: nat, rp: int, ghost k: nat)
      requires |pLink| == |procs| && AllThreaded(queues, dqFirst, dqLast, pLink)
      requires QueuesMatch(procs, queues) && i < |queues| && HasSchedulable(procs, queues[i])
      ensures k < |queues[i]| && pp == queues[i][k] < |procs| && Schedulable(procs[pp])
      ensures rp == if k == 0 then NIL else queues[i][k - 1]
      ensures pp == FirstSchedulable(procs, queues[i])
    {
      hide Threads, AllThreaded, QueuesMatch, QueueMatches, FirstSchedulable, HasSchedulable, Distinct;
      ghost var q := queues[i];
      QueueFacts(procs, queues, dqFirst, dqLast, pLink, i);
      SomeSchedulable(procs, q);
      pp := dqFirst[i];
      rp := NIL;
      k := 0;
      while !Schedulable(procs[pp])
        invariant 0 <= k < |q| && pp == q[k]
        invariant rp == if k == 0 then NIL else q[k - 1]
        invariant forall j :: 0 <= j < k ==> !Schedulable(procs[q[j]])
        decreases |q| - k
      {
        assert k < |q| - 1 by {
          var j :| 0 <= j < |q| && Schedulable(procs[q[j]]);
          assert k < j;
        }
        assert pLink[q[k]] == q[k + 1];
        rp := pp;
        pp := pLink[pp];
        k := k + 1;
      }
      FirstSchedulableAt(procs, q, k);
    }

    /** Take the first schedulable process off queue `maxrunpri`. */
    method TakeNext() returns (pp: nat)
      requires Valid() && MaxRunPri(Abs()) != -1
      modifies this`dqFirst, this`dqLast, this`pLink, this`queues,
               this`srunprocs, this`dqSrunCnt, this`dqActMap, this`maxrunpri
      ensures Valid()
      ensures pp == NextToRun(old(Abs()))
      ensures Abs() == SchedState.DispDeq(old(Abs()), pp)
      ensures pp < |procs| && procs[pp].pri < |queues| && !OnQueue(Abs(), pp)
    {
      hide Threads, AllThreaded, Counted, QueuesMatch, QueueMatches, Summarised, CountRun, Remove, Distinct, FirstSchedulable,
           HasSchedulable, Schedulable, MaxRunPri, OnQueue, SchedState.DispDeq;
      CountedMatches(procs, queues, dqSrunCnt);
      MaxRunPriIsHighest();
      HighestQueue(Abs());
      var i := maxrunpri;
      var rp;
      ghost var k;
      pp, rp, k := SkipToSchedulable(i);
      NextOff(Abs(), dqSrunCnt, k);
      Unlink(i, k, pp, rp);
      DqSrunDec(i);
    }

    /** pswtch from `dq = &dispq[maxrunpri]` on: skip what may not run, unlink the
        first process that may, and make it current. */
    method DispatchNext() returns (pp: nat)
      requires Valid() && MaxRunPri(Abs()) != -1
      modifies this
      ensures Valid()
      ensures NextToRun(old(Abs())) == pp
      ensures Abs() == MakeCurrent(old(Abs()), pp)
    {
      hide AllThreaded, Counted, QueuesMatch, Summarised, Remove, Schedulable, MaxRunPri, NextToRun, OnQueue,
           SchedState.DispDeq, MakeCurrent;
      ghost var s := Abs();
      CountedMatches(procs, queues, dqSrunCnt);
      runrun, kprunrun, npwakecnt := 0, 0, 0;
      SameNext(s, Abs());
      pp := TakeNext();
      MadeCurrent(s, Abs(), pp);
      Store(pp, procs[pp].(stat := SOnProc));
      curpri := procs[pp].pri;
      curproc := pp;
    }
  }

  /** The first schedulable process of a queue. */
  function FirstSchedulable(procs: seq<Proc>, q: seq<nat>): (p: nat)
    requires forall k :: 0 <= k < |q| ==> q[k] < |procs|
    requires HasSchedulable(procs, q)
    ensures p in q && Schedulable(procs[p])
  {
    if Schedulable(procs[q[0]]) then q[0]
    else
      assert HasSchedulable(procs, q[1..]) by {
        var k :| 0 <= k < |q| && Schedulable(procs[q[k]]);
        assert q[1..][k - 1] == q[k];
      }
      FirstSchedulable(procs, q[1..])
  }

  lemma {:induction false} FirstSchedulableAt(procs: seq<Proc>, q: seq<nat>, k: nat)
    requires forall k :: 0 <= k < |q| ==> q[k] < |procs|
    requires k < |q| && Schedulable(procs[q[k]])
    requires forall j :: 0 <= j < k ==> !Schedulable(procs[q[j]])
    ensures HasSchedulable(procs, q) && FirstSchedulable(procs, q) == q[k]
  {
    if k > 0 {
      assert !Schedulable(procs[q[0]]);
      FirstSchedulableAt(procs, q[1..], k - 1);
    }
  }

  function NextToRun(s: Sched): (p: nat)
    requires QueuesMatch(s.procs, s.queues) && MaxRunPri(s) >= 0
    ensures OnQueue(s, p) && Schedulable(s.procs[p]) && s.procs[p].pri == MaxRunPri(s)
  {
    assert QueueMatches(s.procs, s.queues[MaxRunPri(s)], MaxRunPri(s));
    FirstSchedulable(s.procs, s.queues[MaxRunPri(s)])
  }

  lemma SameNext(s: Sched, t: Sched)
    requires QueuesMatch(s.procs, s.queues) && MaxRunPri(s) >= 0
    requires t.procs == s.procs && t.queues == s.queues
    ensures MaxRunPri(t) >= 0 && NextToRun(t) == NextToRun(s)
  {}

  function MakeCurrent(s: Sched, p: nat): Sched
    requires p < |s.procs| && s.procs[p].pri < |s.queues|
  {
    var t := DispDeq(s, p);
    t.(procs := t.procs[p := t.procs[p].(stat := SOnProc)],
       cur := p, curpri := t.procs[p].pri,
       runrun := 0, kprunrun := 0, npwakecnt := 0)
  }

  lemma HighestQueue(s: Sched)
    requires QueuesMatch(s.procs, s.queues) && MaxRunPri(s) != -1
    ensures 0 <= MaxRunPri(s) < |s.queues| && HasSchedulable(s.procs, s.queues[MaxRunPri(s)])
  {}

  /** The first process that may run, at place `k` of the highest queue, is the next to run; what
      is left when it is unlinked, with its queue's count lowered. */
  lemma NextOff(s: Sched, cnt: seq<nat>, k: nat)
    requires Counted(s.procs, s.queues, cnt) && QueuesMatch(s.procs, s.queues) && MaxRunPri(s) >= 0
    requires HasSchedulable(s.procs, s.queues[MaxRunPri(s)]) && k < |s.queues[MaxRunPri(s)]|
    requires s.queues[MaxRunPri(s)][k] == NextToRun(s)
    ensures var i, p := MaxRunPri(s), NextToRun(s);
            var r := s.queues[i][..k] + s.queues[i][k + 1..];
            && i < |cnt| && cnt[i] > 0 && Counted(s.procs, s.queues[i := r], cnt[i := cnt[i] - 1])
            && p < |s.procs| && s.procs[p].pri == i
            && DispDeq(s, p) == s.(queues := s.queues[i := r]) && !OnQueue(DispDeq(s, p), p)
  {
    hide Counted, QueuesMatch, Remove, Distinct, FirstSchedulable, HasSchedulable, Schedulable, MaxRunPri, NextToRun, CountRun;
    var i, p := MaxRunPri(s), NextToRun(s);
    CountedRemove(s.procs, s.queues, cnt, i, k);
    QueueAt(s.procs, s.queues, i);
    RemoveMembers(s.queues[i], p);
  }

  lemma QueueAt(procs: seq<Proc>, queues: seq<seq<nat>>, i: nat)
    requires QueuesMatch(procs, queues) && i < |queues|
    ensures Distinct(queues[i])
  {
    assert QueueMatches(procs, queues[i], i);
  }

  /** What remains to be done when `p` has been taken off its queue and the flags are cleared. */
  lemma MadeCurrent(s: Sched, t: Sched, p: nat)
    requires p < |s.procs| && s.procs[p].pri < |s.queues|
    requires t == DispDeq(s.(runrun := 0, kprunrun := 0, npwakecnt := 0), p)
    ensures t.procs == s.procs
    ensures Store(t, p, s.procs[p].(stat := SOnProc)).(cur := p, curpri := s.procs[p].pri) == MakeCurrent(s, p)
  {}
}
