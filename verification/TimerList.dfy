/** The high-resolution timer list (hrtimers.c): each entry holds the ticks between its
    own firing and that of the entry before it. */
module TimerSpec {
  import opened Common
  import opened Arith
  import opened DoubleLong
  import HrTime

  datatype Cmd = IntSlp | Other

  /** hrtsys.h, `struct timer`, without its links and event control block but its id. */
  datatype Timer = Timer(time: U32, interval: U32, rem: U32, crem: U32, proc: nat, eid: int, cmd: Cmd)

  /** A pending timer and the ticks until it fires. */
  datatype Entry = Entry(id: nat, due: nat)

  predicate InRange(list: seq<nat>, timers: seq<Timer>)
  {
    forall k :: 0 <= k < |list| ==> list[k] < |timers|
  }

  /** The ticks until the first `k` entries have fired. */
  function Elapsed(list: seq<nat>, timers: seq<Timer>, k: nat): nat
    requires InRange(list, timers) && k <= |list|
  {
    if k == 0 then 0 else Elapsed(list, timers, k - 1) + timers[list[k - 1]].time
  }

  /** The remaining times a delta list stands for. */
  function Schedule(list: seq<nat>, timers: seq<Timer>): (a: seq<Entry>)
    requires InRange(list, timers)
    ensures |a| == |list|
    ensures forall k :: 0 <= k < |list| ==> a[k] == Entry(list[k], Elapsed(list, timers, k + 1))
  {
    seq(|list|, k requires 0 <= k < |list| => Entry(list[k], Elapsed(list, timers, k + 1)))
  }

  predicate Sorted(a: seq<Entry>)
  {
    forall i, j :: 0 <= i < j < |a| ==> a[i].due <= a[j].due
  }

  lemma {:induction false} ElapsedGrows(list: seq<nat>, timers: seq<Timer>, i: nat, j: nat)
    requires InRange(list, timers) && i <= j <= |list|
    ensures Elapsed(list, timers, i) <= Elapsed(list, timers, j)
    decreases j
  {
    if i < j { ElapsedGrows(list, timers, i, j - 1); }
  }

  lemma ScheduleSorted(list: seq<nat>, timers: seq<Timer>)
    requires InRange(list, timers)
    ensures Sorted(Schedule(list, timers))
  {
    forall i, j | 0 <= i < j < |list|
      ensures Schedule(list, timers)[i].due <= Schedule(list, timers)[j].due
    {
      ElapsedGrows(list, timers, i + 1, j + 1);
    }
  }

  // ----------------------------------------------- the abstract operations

  /** Where a new entry goes: behind everything due no later than it. */
  function InsertDue(a: seq<Entry>, e: Entry): seq<Entry>
  {
    if a == [] || e.due < a[0].due then [e] + a
    else [a[0]] + InsertDue(a[1..], e)
  }

  lemma {:induction false} InsertDueAt(a: seq<Entry>, e: Entry, k: nat)
    requires k <= |a|
    requires forall j :: 0 <= j < k ==> a[j].due <= e.due
    requires k < |a| ==> e.due < a[k].due
    ensures InsertDue(a, e) == a[..k] + [e] + a[k..]
  {
    if k == 0 {
      assert a[..0] == [];
    } else {
      InsertDueAt(a[1..], e, k - 1);
      assert a[1..][..k - 1] == a[1..k] && a[1..][k - 1..] == a[k..];
    }
  }

  // ------------------------------------------- relinking the delta list

  /** The list and times after `x` is put in front of entry `k` with what is left of its
      time, which is taken off entry `k`. */
  ghost predicate Inserted(list: seq<nat>, timers: seq<Timer>, timers': seq<Timer>, k: nat, x: nat, due: nat)
    requires InRange(list, timers) && k <= |list|
  {
    && x < |timers| == |timers'|
    && Elapsed(list, timers, k) <= due
    && timers'[x].time == due - Elapsed(list, timers, k)
    && (k < |list| ==> timers'[list[k]].time == timers[list[k]].time - timers'[x].time)
    && forall j :: 0 <= j < |list| && j != k ==> timers'[list[j]].time == timers[list[j]].time
  }

  lemma {:induction false} InsertElapsed(list: seq<nat>, timers: seq<Timer>, timers': seq<Timer>,
                                         k: nat, x: nat, due: nat, j: nat)
    requires InRange(list, timers) && k <= |list| && Inserted(list, timers, timers', k, x, due)
    requires j <= |list| + 1
    ensures InRange(list[..k] + [x] + list[k..], timers')
    ensures Elapsed(list[..k] + [x] + list[k..], timers', j) ==
            if j <= k then Elapsed(list, timers, j) else if j == k + 1 then due else Elapsed(list, timers, j - 1)
  {
    var list' := list[..k] + [x] + list[k..];
    if j > 0 {
      InsertElapsed(list, timers, timers', k, x, due, j - 1);
      assert list'[j - 1] == if j - 1 < k then list[j - 1] else if j == k + 1 then x else list[j - 2];
    }
  }

  /** ... gives `x` the time asked for and leaves every other firing time alone. */
  lemma InsertKeepsDues(list: seq<nat>, timers: seq<Timer>, timers': seq<Timer>, k: nat, x: nat, due: nat)
    requires InRange(list, timers) && k <= |list| && Inserted(list, timers, timers', k, x, due)
    ensures InRange(list[..k] + [x] + list[k..], timers')
    ensures var a := Schedule(list, timers);
            Schedule(list[..k] + [x] + list[k..], timers') == a[..k] + [Entry(x, due)] + a[k..]
  {
    var list' := list[..k] + [x] + list[k..];
    InsertElapsed(list, timers, timers', k, x, due, 0);
    var a, b := Schedule(list, timers), Schedule(list', timers');
    forall j | 0 <= j < |list'| ensures b[j] == (a[..k] + [Entry(x, due)] + a[k..])[j] {
      InsertElapsed(list, timers, timers', k, x, due, j + 1);
    }
  }

  /** The times after entry `k` is taken out and its time added to the entry after it. */
  ghost predicate Deleted(list: seq<nat>, timers: seq<Timer>, timers': seq<Timer>, k: nat)
    requires InRange(list, timers) && k < |list|
  {
    && |timers'| == |timers|
    && (k + 1 < |list| ==> timers'[list[k + 1]].time == timers[list[k + 1]].time + timers[list[k]].time)
    && forall j :: 0 <= j < |list| && j != k && j != k + 1 ==> timers'[list[j]].time == timers[list[j]].time
  }

  lemma {:induction false} DeleteElapsed(list: seq<nat>, timers: seq<Timer>, timers': seq<Timer>, k: nat, j: nat)
    requires InRange(list, timers) && k < |list| && Deleted(list, timers, timers', k) && j < |list|
    ensures InRange(list[..k] + list[k + 1..], timers')
    ensures Elapsed(list[..k] + list[k + 1..], timers', j) ==
            if j <= k then Elapsed(list, timers, j) else Elapsed(list, timers, j + 1)
  {
    var list' := list[..k] + list[k + 1..];
    if j > 0 {
      DeleteElapsed(list, timers, timers', k, j - 1);
      assert list'[j - 1] == if j - 1 < k then list[j - 1] else list[j];
    }
  }

  /** ... leave every other firing time alone. */
  lemma DeleteKeepsDues(list: seq<nat>, timers: seq<Timer>, timers': seq<Timer>, k: nat)
    requires InRange(list, timers) && k < |list| && Deleted(list, timers, timers', k)
    ensures InRange(list[..k] + list[k + 1..], timers')
    ensures Schedule(list[..k] + list[k + 1..], timers') == DeleteAt(Schedule(list, timers), k)
  {
    var list' := list[..k] + list[k + 1..];
    DeleteElapsed(list, timers, timers', k, 0);
    var a, b := Schedule(list, timers), Schedule(list', timers');
    forall j | 0 <= j < |list'| ensures b[j] == DeleteAt(a, k)[j] {
      DeleteElapsed(list, timers, timers', k, j + 1);
    }
  }

  // ------------------------------------------------------------ cancelling

  predicate Matches(t: Timer, tid: int, pp: nat)
  {
    t.eid == tid && t.proc == pp
  }

  predicate IdsIn(a: seq<Entry>, timers: seq<Timer>)
  {
    forall k :: 0 <= k < |a| ==> a[k].id < |timers|
  }

  /** The entries a cancellation leaves, their times unchanged. */
  function Kept(a: seq<Entry>, timers: seq<Timer>, tid: int, pp: nat): (r: seq<Entry>)
    requires IdsIn(a, timers)
    ensures |r| <= |a|
  {
    if a == [] then []
    else
      var n := |a| - 1;
      var r := Kept(a[..n], timers, tid, pp);
      if Matches(timers[a[n].id], tid, pp) then r else r + [a[n]]
  }

  /** They are those of other processes and those with other event ids, in order. */
  lemma {:induction false} KeptIs(a: seq<Entry>, timers: seq<Timer>, tid: int, pp: nat)
    requires IdsIn(a, timers)
    ensures Kept(a, timers, tid, pp) ==
            Keeping(a, (e: Entry) => e.id >= |timers| || timers[e.id].eid != tid || timers[e.id].proc != pp)
  {
    if a != [] {
      var n := |a| - 1;
      KeptIs(a[..n], timers, tid, pp);
      KeepingSnoc(a[..n], a[n], (e: Entry) => e.id >= |timers| || timers[e.id].eid != tid || timers[e.id].proc != pp);
      assert a == a[..n] + [a[n]];
    }
  }

  /** When the last entry left among `a` fires. */
  function LastKept(a: seq<Entry>, timers: seq<Timer>, tid: int, pp: nat): nat
    requires IdsIn(a, timers)
  {
    var r := Kept(a, timers, tid, pp);
    if r == [] then 0 else r[|r| - 1].due
  }

  /** By how much the running total of the scan exceeds the true time after the entries `a`:
      the time of a cancelled entry is counted again with the entry it is merged into. */
  function Excess(a: seq<Entry>, timers: seq<Timer>, tid: int, pp: nat): int
    requires IdsIn(a, timers)
  {
    if a == [] then 0
    else
      var n := |a| - 1;
      var e := Excess(a[..n], timers, tid, pp);
      if Matches(timers[a[n].id], tid, pp) then e + (a[n].due - LastKept(a[..n], timers, tid, pp)) else e
  }

  /** The remaining times the cancelled entries are given, in order. */
  function Reports(a: seq<Entry>, timers: seq<Timer>, tid: int, pp: nat): seq<int>
    requires IdsIn(a, timers)
  {
    if a == [] then []
    else
      var n := |a| - 1;
      var r := Reports(a[..n], timers, tid, pp);
      if Matches(timers[a[n].id], tid, pp) then r + [a[n].due + Excess(a[..n], timers, tid, pp)] else r
  }

  /** The times the cancelled entries would have fired at, in order. */
  function Dues(a: seq<Entry>, timers: seq<Timer>, tid: int, pp: nat): (r: seq<nat>)
    requires IdsIn(a, timers)
    ensures |r| == |Reports(a, timers, tid, pp)|
  {
    if a == [] then []
    else
      var n := |a| - 1;
      var r := Dues(a[..n], timers, tid, pp);
      if Matches(timers[a[n].id], tid, pp) then r + [a[n].due] else r
  }

  /** Every entry cancelled among the first `n` was due together with the entry left before it. */
  predicate Together(a: seq<Entry>, timers: seq<Timer>, tid: int, pp: nat, n: nat)
    requires IdsIn(a, timers) && n <= |a|
  {
    forall k :: 0 <= k < n && Matches(timers[a[k].id], tid, pp) ==> a[k].due == LastKept(a[..k], timers, tid, pp)
  }

  lemma TogetherStart(a: seq<Entry>, timers: seq<Timer>, tid: int, pp: nat, m: nat, n: nat)
    requires IdsIn(a, timers) && n <= m <= |a|
    ensures Together(a[..m], timers, tid, pp, n) == Together(a, timers, tid, pp, n)
  {
    forall k | 0 <= k < n ensures a[..k] == a[..m][..k] && a[k] == a[..m][k] {}
  }

  lemma {:induction false} ExcessZeroIff(a: seq<Entry>, timers: seq<Timer>, tid: int, pp: nat)
    requires IdsIn(a, timers) && Sorted(a)
    ensures Excess(a, timers, tid, pp) >= 0
    ensures LastKept(a, timers, tid, pp) <= if a == [] then 0 else a[|a| - 1].due
    ensures Excess(a, timers, tid, pp) == 0 <==> Together(a, timers, tid, pp, |a|)
  {
    if a != [] {
      var n := |a| - 1;
      ExcessZeroIff(a[..n], timers, tid, pp);
      TogetherStart(a, timers, tid, pp, n, n);
    }
  }

  /** Of the entries cancelled, only the last need not be due together with the one left before it. */
  predicate TogetherButLast(a: seq<Entry>, timers: seq<Timer>, tid: int, pp: nat)
    requires IdsIn(a, timers)
  {
    forall j :: 0 <= j < |a| && Matches(timers[a[j].id], tid, pp) ==> Together(a, timers, tid, pp, j)
  }

  lemma ButLastStart(a: seq<Entry>, timers: seq<Timer>, tid: int, pp: nat)
    requires IdsIn(a, timers) && a != []
    ensures var n := |a| - 1;
            TogetherButLast(a, timers, tid, pp) <==>
              && TogetherButLast(a[..n], timers, tid, pp)
              && (Matches(timers[a[n].id], tid, pp) ==> Together(a, timers, tid, pp, n))
  {
    hide Together;
    var n := |a| - 1;
    forall j | 0 <= j < n ensures Together(a[..n], timers, tid, pp, j) == Together(a, timers, tid, pp, j) {
      TogetherStart(a, timers, tid, pp, n, j);
    }
  }

  predicate Word(a: seq<Entry>)
  {
    forall k :: 0 <= k < |a| ==> a[k].due < W32
  }

  /** The first entry that makes the running total wrong makes it wrong by less than a word. */
  lemma {:induction false} ExcessSmall(a: seq<Entry>, timers: seq<Timer>, tid: int, pp: nat)
    requires IdsIn(a, timers) && Sorted(a) && Word(a) && TogetherButLast(a, timers, tid, pp)
    ensures 0 <= Excess(a, timers, tid, pp) < W32
  {
    if a != [] {
      hide Together, TogetherButLast, LastKept;
      var n := |a| - 1;
      ButLastStart(a, timers, tid, pp);
      ExcessSmall(a[..n], timers, tid, pp);
      ExcessZeroIff(a[..n], timers, tid, pp);
      TogetherStart(a, timers, tid, pp, n, n);
    }
  }

  /** Every cancelled entry is reported with the time it would have fired at. */
  predicate ReportsExact(a: seq<Entry>, timers: seq<Timer>, tid: int, pp: nat)
    requires IdsIn(a, timers)
  {
    var reports, dues := Reports(a, timers, tid, pp), Dues(a, timers, tid, pp);
    forall k :: 0 <= k < |reports| ==> HrTime.ToU32(reports[k]) == dues[k]
  }

  lemma ReportsStep(a: seq<Entry>, timers: seq<Timer>, tid: int, pp: nat)
    requires IdsIn(a, timers) && a != []
    ensures var n := |a| - 1;
            Reports(a, timers, tid, pp) ==
            Reports(a[..n], timers, tid, pp) +
              if Matches(timers[a[n].id], tid, pp) then [a[n].due + Excess(a[..n], timers, tid, pp)] else []
  {
    hide Excess, Matches, Dues;
  }

  lemma DuesStep(a: seq<Entry>, timers: seq<Timer>, tid: int, pp: nat)
    requires IdsIn(a, timers) && a != []
    ensures var n := |a| - 1;
            Dues(a, timers, tid, pp) ==
            Dues(a[..n], timers, tid, pp) + if Matches(timers[a[n].id], tid, pp) then [a[n].due] else []
  {
    hide Excess, Matches, Reports;
  }

  lemma ReportsExactStart(a: seq<Entry>, timers: seq<Timer>, tid: int, pp: nat)
    requires IdsIn(a, timers) && a != []
    ensures var n := |a| - 1;
            ReportsExact(a, timers, tid, pp) <==>
              && ReportsExact(a[..n], timers, tid, pp)
              && (Matches(timers[a[n].id], tid, pp) ==>
                    HrTime.ToU32(a[n].due + Excess(a[..n], timers, tid, pp)) == a[n].due)
  {
    hide HrTime.ToU32, Excess, Reports, Dues, Matches;
    var n := |a| - 1;
    ReportsStep(a, timers, tid, pp);
    DuesStep(a, timers, tid, pp);
    var r, d := Reports(a[..n], timers, tid, pp), Dues(a[..n], timers, tid, pp);
    assert r + [] == r && d + [] == d;
    if Matches(timers[a[n].id], tid, pp) {
      var e := a[n].due + Excess(a[..n], timers, tid, pp);
      assert (r + [e])[|r|] == e && (d + [a[n].due])[|r|] == a[n].due;
      assert forall k :: 0 <= k < |r| ==> (r + [e])[k] == r[k] && (d + [a[n].due])[k] == d[k];
    }
  }

  lemma StartOk(a: seq<Entry>, timers: seq<Timer>, n: nat)
    requires IdsIn(a, timers) && Sorted(a) && Word(a) && n < |a|
    ensures IdsIn(a[..n], timers) && Sorted(a[..n]) && Word(a[..n]) && a[n].id < |timers| && a[n].due < W32
  {}

  lemma WordSum(due: nat, x: nat)
    requires due < W32 && x < W32
    ensures HrTime.ToU32(due + x) == due <==> x == 0
  {}

  /** The last entry is reported right exactly when nothing was counted again before it. */
  lemma LastExactIff(a: seq<Entry>, timers: seq<Timer>, tid: int, pp: nat)
    requires IdsIn(a, timers) && Sorted(a) && Word(a) && a != [] && TogetherButLast(a[..|a| - 1], timers, tid, pp)
    ensures var n := |a| - 1;
            HrTime.ToU32(a[n].due + Excess(a[..n], timers, tid, pp)) == a[n].due <==> Together(a, timers, tid, pp, n)
  {
    hide Together, TogetherButLast, LastKept, Excess, HrTime.ToU32;
    var n := |a| - 1;
    ExcessZeroIff(a[..n], timers, tid, pp);
    ExcessSmall(a[..n], timers, tid, pp);
    WordSum(a[n].due, Excess(a[..n], timers, tid, pp));
    TogetherStart(a, timers, tid, pp, n, n);
  }

  /** That is so for all exactly when every cancelled entry, the last one aside, was due together
      with the entry left before it: time already merged into the next entry is counted again. */
  lemma {:induction false} ReportExactIff(a: seq<Entry>, timers: seq<Timer>, tid: int, pp: nat)
    requires IdsIn(a, timers) && Sorted(a) && Word(a)
    ensures ReportsExact(a, timers, tid, pp) <==> TogetherButLast(a, timers, tid, pp)
  {
    if a != [] {
      hide Together, TogetherButLast, LastKept, Excess, ReportsExact, HrTime.ToU32, IdsIn, Sorted, Word;
      var n := |a| - 1;
      StartOk(a, timers, n);
      ButLastStart(a, timers, tid, pp);
      ReportsExactStart(a, timers, tid, pp);
      ReportExactIff(a[..n], timers, tid, pp);
      if TogetherButLast(a[..n], timers, tid, pp) {
        LastExactIff(a, timers, tid, pp);
      }
    }
  }

  /** Of two timers due in 5 and 9 ticks, both cancelled, the second is reported with 14. */
  lemma WrongReportExample(timers: seq<Timer>, tid: int, pp: nat)
    requires |timers| == 2 && timers[0].time == 5 && timers[1].time == 4
    requires Matches(timers[0], tid, pp) && Matches(timers[1], tid, pp)
    ensures Schedule([0, 1], timers) == [Entry(0, 5), Entry(1, 9)]
    ensures Reports(Schedule([0, 1], timers), timers, tid, pp) == [5, 14]
  {
    assert Elapsed([0, 1], timers, 0) == 0;
    assert Elapsed([0, 1], timers, 1) == 5;
    assert Elapsed([0, 1], timers, 2) == 9;
    var a := [Entry(0, 5), Entry(1, 9)];
    assert a[..1] == [Entry(0, 5)] && a[..1][..0] == [];
    assert Kept(a[..1], timers, tid, pp) == [] && LastKept(a[..1][..0], timers, tid, pp) == 0;
    assert Excess(a[..1], timers, tid, pp) == 5;
    assert Reports(a[..1], timers, tid, pp) == [] + [5 + 0];
  }

  // -------------------------------------------------------------- the tick

  predicate Armed(a: seq<Entry>)
  {
    forall k :: 0 <= k < |a| ==> a[k].due >= 1
  }

  /** One tick later. */
  function Advance(a: seq<Entry>): (r: seq<Entry>)
    requires Armed(a)
    ensures |r| == |a|
  {
    seq(|a|, k requires 0 <= k < |a| && Armed(a) => Entry(a[k].id, a[k].due - 1))
  }

  /** How many entries at the front are due at the next tick. */
  function DueCount(a: seq<Entry>): (n: nat)
    ensures n <= |a|
    ensures forall k :: 0 <= k < n ==> a[k].due == 1
    ensures n < |a| ==> a[n].due != 1
  {
    if a == [] || a[0].due != 1 then 0 else 1 + DueCount(a[1..])
  }

  /** On an armed schedule these are all the entries due at the next tick. */
  lemma DueCountIsAll(a: seq<Entry>)
    requires Sorted(a) && Armed(a)
    ensures forall k :: 0 <= k < |a| ==> (a[k].due == 1 <==> k < DueCount(a))
  {}

  /** The interval to a repeating timer's next firing, and the carry it leaves. */
  function Period(t: Timer, tick: nat): nat
  {
    if t.crem + t.rem >= tick then t.interval + 1 else t.interval
  }

  function Carry(t: Timer, tick: nat): int
  {
    if t.crem + t.rem >= tick then t.crem + t.rem - tick else t.crem + t.rem
  }

  /** The schedule `a` once the timers of `fired` have been put back, those that repeat. */
  function Rearmed(fired: seq<nat>, a: seq<Entry>, timers: seq<Timer>, tick: nat): seq<Entry>
    requires InRange(fired, timers)
  {
    if fired == [] then a
    else
      var n := |fired| - 1;
      var b := Rearmed(fired[..n], a, timers, tick);
      if timers[fired[n]].interval != 0
      then InsertDue(b, Entry(fired[n], Period(timers[fired[n]], tick)))
      else b
  }

  function Ids(a: seq<Entry>): (r: seq<nat>)
    ensures |r| == |a|
  {
    seq(|a|, k requires 0 <= k < |a| => a[k].id)
  }

  /** A new entry that is not due yet goes behind all entries that are. */
  lemma {:induction false} InsertBehindDue(z: seq<Entry>, b: seq<Entry>, e: Entry)
    requires e.due > 0 && forall k :: 0 <= k < |z| ==> z[k].due == 0
    ensures InsertDue(z + b, e) == z + InsertDue(b, e)
  {
    if z == [] {
      assert z + b == b && z + InsertDue(b, e) == InsertDue(b, e);
    } else {
      assert (z + b)[1..] == z[1..] + b;
      InsertBehindDue(z[1..], b, e);
    }
  }

  /** Entries due now. */
  function DueNow(ids: seq<nat>): (r: seq<Entry>)
    ensures |r| == |ids|
  {
    seq(|ids|, k requires 0 <= k < |ids| => Entry(ids[k], 0))
  }

  /** The timers put on the free list while `fired` fire, last first. */
  function FreedBy(fired: seq<nat>, timers: seq<Timer>): seq<nat>
    requires InRange(fired, timers)
  {
    if fired == [] then []
    else
      var n := |fired| - 1;
      var r := FreedBy(fired[..n], timers);
      if timers[fired[n]].interval == 0 then [fired[n]] + r else r
  }

  predicate Backwards(a: seq<nat>, b: seq<nat>)
  {
    |a| == |b| && forall i :: 0 <= i < |a| ==> a[i] == b[|b| - 1 - i]
  }

  lemma BackwardsOne(a: seq<nat>, b: seq<nat>, x: nat)
    requires Backwards(a, b)
    ensures Backwards([x] + a, b + [x])
  {}

  /** They are the one-shot timers among those that fired. */
  lemma {:induction false} FreedIs(fired: seq<nat>, timers: seq<Timer>)
    requires InRange(fired, timers)
    ensures Backwards(FreedBy(fired, timers), Keeping(fired, (x: nat) => x < |timers| && timers[x].interval == 0))
  {
    hide Backwards, Keeping;
    var once := (x: nat) => x < |timers| && timers[x].interval == 0;
    if fired == [] {
      NothingFreed(fired, once);
    } else {
      var n := |fired| - 1;
      FreedIs(fired[..n], timers);
      KeepingSnoc(fired[..n], fired[n], once);
      assert fired == fired[..n] + [fired[n]];
      BackwardsOne(FreedBy(fired[..n], timers), Keeping(fired[..n], once), fired[n]);
      assert Keeping(fired[..n], once) + [] == Keeping(fired[..n], once);
    }
  }

  lemma NothingFreed(fired: seq<nat>, once: nat -> bool)
    requires fired == []
    ensures Backwards([], Keeping(fired, once))
  {}

  /** What a tick stores in the timers besides remaining times: the carry of those that
      fired and repeat. */
  ghost predicate TickStores(a: seq<Timer>, b: seq<Timer>, fired: seq<nat>, tick: nat)
  {
    && |a| == |b|
    && forall x: nat :: x < |a| ==>
         var crem := if x in fired && a[x].interval != 0 then Carry(a[x], tick) else a[x].crem;
         b[x] == a[x].(time := b[x].time, crem := b[x].crem) && b[x].crem == crem
  }

  lemma {:induction false} RearmedLater(fired: seq<nat>, a: seq<Entry>, timers: seq<Timer>, tick: nat)
    requires InRange(fired, timers) && Armed(a)
    ensures Armed(Rearmed(fired, a, timers, tick))
  {
    if fired != [] {
      var n := |fired| - 1;
      RearmedLater(fired[..n], a, timers, tick);
      InsertArmed(Rearmed(fired[..n], a, timers, tick), Entry(fired[n], Period(timers[fired[n]], tick)));
    }
  }

  lemma {:induction false} InsertArmed(a: seq<Entry>, e: Entry)
    requires Armed(a)
    ensures e.due >= 1 ==> Armed(InsertDue(a, e))
  {
    if a != [] {
      InsertArmed(a[1..], e);
      assert forall k :: 0 <= k < |a[1..]| ==> a[1..][k] == a[k + 1];
    }
  }

  /** Counting the head down counts every entry down. */
  lemma {:induction false} HeadCountdown(list: seq<nat>, timers: seq<Timer>, timers': seq<Timer>, j: nat)
    requires InRange(list, timers) && list != [] && |timers'| == |timers| && j <= |list|
    requires forall i, j :: 0 <= i < j < |list| ==> list[i] != list[j]
    requires timers[list[0]].time >= 1
    requires timers' == timers[list[0] := timers[list[0]].(time := timers[list[0]].time - 1)]
    ensures Elapsed(list, timers', j) == if j == 0 then 0 else Elapsed(list, timers, j) - 1
  {
    if j > 0 { HeadCountdown(list, timers, timers', j - 1); }
  }

  // ----------------------------------------------------------------- drift

  predicate CarryOk(t: Timer, tick: nat)
  {
    t.rem <= tick && t.crem < tick
  }

  /** A repeating timer after its carry has been brought up to date. */
  function Rearm(t: Timer, tick: U32): (r: Timer)
    requires CarryOk(t, tick)
    ensures CarryOk(r, tick) && r == t.(crem := r.crem)
  {
    t.(crem := Carry(t, tick))
  }

  function RearmTimes(t: Timer, tick: U32, n: nat): (r: Timer)
    requires CarryOk(t, tick)
    ensures CarryOk(r, tick) && r == t.(crem := r.crem)
  {
    if n == 0 then t else Rearm(RearmTimes(t, tick, n - 1), tick)
  }

  /** The ticks the first `n` re-armed intervals take together. */
  function TotalOf(t: Timer, tick: U32, n: nat): nat
    requires CarryOk(t, tick)
  {
    if n == 0 then 0 else TotalOf(t, tick, n - 1) + Period(RearmTimes(t, tick, n - 1), tick)
  }

  lemma {:induction false} TotalAndCarry(t: Timer, tick: U32, n: nat)
    requires CarryOk(t, tick)
    ensures TotalOf(t, tick, n) * tick + RearmTimes(t, tick, n).crem == n * (t.interval * tick) + n * t.rem + t.crem
  {
    if n > 0 {
      TotalAndCarry(t, tick, n - 1);
      var u := RearmTimes(t, tick, n - 1);
      Distribute(tick, TotalOf(t, tick, n - 1), Period(u, tick));
      Distribute(tick, t.interval, 1);
      Distribute(t.interval * tick, n - 1, 1);
      Distribute(t.rem, n - 1, 1);
    }
  }

  /** Repeating timers do not drift: `n` intervals take exactly `n` times the whole part
      plus the whole ticks in `n` times the fraction. */
  lemma NoDrift(t: Timer, tick: U32, n: nat)
    requires CarryOk(t, tick) && t.crem == 0
    ensures tick > 0 && TotalOf(t, tick, n) == n * t.interval + n * t.rem / tick
  {
    TotalAndCarry(t, tick, n);
    var total, carry := TotalOf(t, tick, n), RearmTimes(t, tick, n).crem;
    MulAssoc(n, t.interval, tick);
    Distribute(tick, total, -(n * t.interval));
    MulLe(0, n, t.rem);
    assert n * t.rem == (total - n * t.interval) * tick + carry;
    QuotientUnique(n * t.rem, tick, total - n * t.interval, carry);
  }
}

module TimerList {
  import opened Common
  import opened TimerSpec
  import opened TimerRuns
  import opened HrTime
  import opened DoubleLong
  import opened Rings

  class TimerQueue {
    const size: nat             // hrtimes_size; hrt_active is node `size`, hrt_avail the next
    const tick: U32             // tick.dl_lop
    var timers: seq<Timer>
    var next: seq<nat>          // hrt_next
    var prev: seq<nat>          // hrt_prev
    var hrLbolt: U32
    ghost var active: seq<nat>
    ghost var avail: seq<nat>

    ghost predicate Valid()
      reads this
    {
      && |timers| == |next| == size + 2
      && Lists(size, active, avail, next, prev)
      && InRange(active, timers) && Elapsed(active, timers, |active|) < W32
      && Carries(timers, tick)
    }

    ghost function Pending(): seq<Entry>
      reads this
      requires InRange(active, timers)
    {
      Schedule(active, timers)
    }

    ghost predicate InHand(x: nat)
      reads this
    {
      x < size && x !in active && x !in avail
    }

    /** hrtinit: every timer is available. */
    constructor (n: nat, tick: U32)
      requires tick > 0 && n + 2 < W32
      ensures Valid() && size == n && this.tick == tick
      ensures active == [] && avail == seq(n, i requires 0 <= i < n => i)
    {
      size := n;
      this.tick := tick;
      timers := seq(n + 2, _ => Timer(0, 0, 0, 0, 0, 0, Other));
      // hrtimes[cnt] is linked to its neighbours; both ends and hrt_avail close the ring
      next := seq(n + 2, i requires 0 <= i < n + 2 =>
                    if i == n then n else if i == n + 1 then (if n == 0 then n + 1 else 0) else if i == n - 1 then n + 1 else i + 1);
      prev := seq(n + 2, i requires 0 <= i < n + 2 =>
                    if i == n then n else if i == n + 1 then (if n == 0 then n + 1 else n - 1) else if i == 0 then n + 1 else i - 1);
      hrLbolt := 0;
      active, avail := [], seq(n, i requires 0 <= i < n => i);
      new;
      var c := Cycle(n + 1, avail);
      assert forall i :: 0 <= i < |c| ==> c[i] == if i == 0 || i == n + 1 then n + 1 else i - 1;
      assert Cycle(n, active) == [n, n];
    }

    /** hrt_alloc */
    method Alloc() returns (ok: bool, hrp: nat)
      requires Valid()
      modifies this`timers, this`next, this`prev, this`avail
      ensures Valid() && active == old(active) && Pending() == old(Pending())
      ensures ok <==> old(avail) != []
      ensures !ok ==> avail == old(avail) && timers == old(timers)
      ensures ok ==> hrp == old(avail)[0] && avail == old(avail)[1..] && InHand(hrp)
      ensures ok ==> timers == old(timers)[hrp := Timer(0, 0, 0, 0, 0, 0, Other)]
    {
      hide Ring, Elapsed, Owned, Schedule, Carries;
      AvailFirst(size, active, avail, next, prev);
      hrp := next[size + 1];
      if hrp == size + 1 {
        return false, 0;
      }
      AvailPop(size, active, avail, next, prev);
      prev := prev[next[hrp] := size + 1];
      next := next[size + 1 := next[hrp]];
      avail := avail[1..];
      var null_ := Timer(0, 0, 0, 0, 0, 0, Other);
      OffListStore(active, timers, hrp, null_);
      ClearedCarries(timers, hrp, tick);
      timers := timers[hrp := null_];
      return true, hrp;
    }

    /** hrt_free, for a timer with no event queue vnode to release. */
    method Free(hrp: nat)
      requires Valid() && InHand(hrp)
      modifies this`next, this`prev, this`avail
      ensures Valid() && active == old(active) && Pending() == old(Pending())
      ensures avail == [hrp] + old(avail)
    {
      hide Ring, Elapsed, Owned;
      AvailPush(size, active, avail, next, prev, hrp);
      next := next[hrp := next[size + 1]];
      prev := prev[hrp := size + 1];
      prev := prev[next[size + 1] := hrp];
      next := next[size + 1 := hrp];
      avail := [hrp] + avail;
    }

    /** hrt_enqueue: link `hrp` in front of `nhrp`. */
    method Enqueue(hrp: nat, nhrp: nat, ghost k: nat)
      requires Lists(size, active, avail, next, prev) && k <= |active| && nhrp == After(size, active, k)
      requires InHand(hrp)
      modifies this`next, this`prev, this`active
      ensures Lists(size, active, avail, next, prev)
      ensures active == InsertAt(old(active), k, hrp)
    {
      hide Ring, Owned, After;
      ActiveInsert(size, active, avail, next, prev, k, hrp);
      next := next[hrp := nhrp];
      prev := prev[hrp := prev[nhrp]];
      next := next[prev[nhrp] := hrp];
      prev := prev[nhrp := hrp];
      active := InsertAt(active, k, hrp);
    }

    /** hrt_dequeue: unlink entry `k`. */
    method Dequeue(hrp: nat, ghost k: nat)
      requires Lists(size, active, avail, next, prev) && k < |active| && hrp == active[k]
      modifies this`next, this`prev, this`active
      ensures Lists(size, active, avail, next, prev)
      ensures active == DeleteAt(old(active), k) && InHand(hrp)
    {
      hide Ring, Owned, After;
      ActiveDelete(size, active, avail, next, prev, k);
      next := next[prev[hrp] := next[hrp]];
      prev := prev[next[hrp] := prev[hrp]];
      active := DeleteAt(active, k);
    }

    /** hrt_timeout: put `hrp`, its time set, on the list. */
    method Timeout(hrp: nat, baseLbolt: U32)
      requires Valid() && InHand(hrp)
      modifies this`timers, this`next, this`prev, this`active
      ensures Valid() && avail == old(avail)
      ensures Pending() == InsertDue(old(Pending()), Entry(hrp, old(Adjusted(timers[hrp].time, baseLbolt, hrLbolt))))
      ensures OnDeadline(old(Adjusted(timers[hrp].time, baseLbolt, hrLbolt)), old(timers[hrp].time), baseLbolt, hrLbolt)
      ensures SameButTimes(old(timers), timers)
    {
      hide Ring, Elapsed, Owned, Carries, Schedule, SameButTimes, OnDeadline, InsertDue;
      var time := timers[hrp].time;
      AdjustedOnDeadline(time, baseLbolt, hrLbolt);
      if baseLbolt != 0 {
        var fudge := ToU32(hrLbolt - baseLbolt);
        if fudge >= time {
          time := 1;
        } else {
          time := time - fudge;
        }
      }
      Place(hrp, time);
    }

    /** The rest of it: walk past the entries due no later, and link `hrp` in front of the next. */
    method Place(hrp: nat, due: U32)
      requires Valid() && InHand(hrp)
      modifies this`timers, this`next, this`prev, this`active
      ensures Valid() && avail == old(avail)
      ensures Pending() == InsertDue(old(Pending()), Entry(hrp, due))
      ensures SameButTimes(old(timers), timers)
    {
      hide Ring, Elapsed, Owned, Carries, Schedule, SameButTimes, After;
      ghost var timers0 := timers;
      var time := due;
      ghost var k := 0;
      StepAt(size, active, avail, next, prev, 0);
      ElapsedStart(active, timers);
      var nhrp := next[size];
      while nhrp != size && timers[nhrp].time <= time
        invariant timers == timers0 && next == old(next) && prev == old(prev) && active == old(active)
        invariant 0 <= k <= |active| && nhrp == After(size, active, k)
        invariant nhrp <= size && (nhrp == size <==> k == |active|)
        invariant time == due - Elapsed(active, timers, k) && 0 <= time < W32
        decreases |active| - k
      {
        StepAt(size, active, avail, next, prev, k);
        StepAt(size, active, avail, next, prev, k + 1);
        ElapsedStep(active, timers, k);
        time := time - timers[nhrp].time;
        nhrp := next[nhrp];
        k := k + 1;
      }
      timers := timers[hrp := timers[hrp].(time := time)];
      timers := timers[nhrp := timers[nhrp].(time := ToU32(timers[nhrp].time - time))];
      WalkStep(size, active, avail, next, prev, k);
      StepAt(size, active, avail, next, prev, k);
      InsertDone(active, timers0, timers, k, hrp, due, nhrp, size, tick);
      Enqueue(hrp, nhrp, k);
    }

    /** Take entry `k` off the list, giving its time to the entry after it. */
    method Withdraw(hrp: nat, ghost k: nat)
      requires Valid() && k < |active| && hrp == active[k]
      modifies this`timers, this`next, this`prev, this`active
      ensures Valid() && InHand(hrp) && avail == old(avail)
      ensures active == DeleteAt(old(active), k)
      ensures Pending() == DeleteAt(old(Pending()), k)
      ensures var b := After(size, old(active), k + 1);
              && b < |old(timers)| && hrp < |old(timers)|
              && timers == old(timers)[b := old(timers)[b].(time := ToU32(old(timers)[b].time + old(timers)[hrp].time))]
    {
      hide Ring, Elapsed, Owned, Carries, Schedule, SameButTimes;
      WalkStep(size, active, avail, next, prev, k);
      WalkStep(size, active, avail, next, prev, k + 1);
      var nhrp := next[hrp];
      ghost var timers0 := timers;
      timers := timers[nhrp := timers[nhrp].(time := ToU32(timers[nhrp].time + timers[hrp].time))];
      MergedTime(active, timers0, timers, k, nhrp, size);
      DeleteDone(active, timers0, timers, k);
      TimeStoreCarries(timers0, nhrp, timers[nhrp].time, tick);
      Dequeue(hrp, k);
    }

    /** Cancel entry `k`: take it off the list, note the time it is reported with, free it. */
    method CancelEntry(hrp: nat, ghost k: nat, time: U32)
      requires Valid() && k < |active| && hrp == active[k]
      modifies this`timers, this`next, this`prev, this`active, this`avail
      ensures Valid() && active == DeleteAt(old(active), k)
      ensures avail == [hrp] + old(avail)
      ensures Pending() == DeleteAt(old(Pending()), k)
      ensures SameOwners(old(timers), timers)
    {
      hide Ring, Elapsed, Owned, Carries, Schedule;
      Withdraw(hrp, k);
      OffListStore(active, timers, hrp, timers[hrp].(time := time));
      TimeStoreCarries(timers, hrp, time, tick);
      timers := timers[hrp := timers[hrp].(time := time)];
      Free(hrp);
    }

    /** The scan comes to an entry to be cancelled. */
    method CancelMatch(hrp: nat, time: U32, reports0: seq<U32>, ghost a: seq<Entry>, ghost timers0: seq<Timer>, ghost m: nat,
                       ghost k: nat, ghost time0: U32, ghost tid: int, ghost pp: nat)
      returns (reports: seq<U32>)
      requires Valid() && k < |active| && hrp == active[k] && SameOwners(timers0, timers)
      requires Scan(a, timers0, m, tid, pp, Pending(), k, time0, reports0) && Matched(a, timers0, m, tid, pp, timers[hrp].time)
      requires time == ToU32(time0 + timers[hrp].time)
      modifies this`timers, this`next, this`prev, this`active, this`avail
      ensures Valid() && SameOwners(timers0, timers) && |active| == |old(active)| - 1
      ensures After(size, active, k) == After(size, old(active), k + 1)
      ensures Scan(a, timers0, m + 1, tid, pp, Pending(), k, time, reports)
    {
      hide Ring, Elapsed, Owned, Carries, Schedule, Scan, SameOwners, ToU32, Lists, Matched;
      ScanMatch(a, timers0, m, tid, pp, Pending(), k, time0, reports0, timers[hrp].time);
      WithdrawKeepsNext(size, active, k);
      ghost var before := timers;
      CancelEntry(hrp, k, time);
      MeaningTrans(timers0, before, timers);
      reports := reports0 + [time];
    }

    /** The scan of hrt_cancel_tid for one timer id, on the clock's own list. */
    method CancelTid(tid: int, pp: nat) returns (cnt: nat, reports: seq<U32>)
      requires Valid()
      modifies this`timers, this`next, this`prev, this`active, this`avail
      ensures Valid() && IdsIn(old(Pending()), old(timers))
      ensures Pending() == Kept(old(Pending()), old(timers), tid, pp)
      ensures cnt == |old(active)| - |active|
      ensures |reports| == |Reports(old(Pending()), old(timers), tid, pp)|
      ensures forall k :: 0 <= k < |reports| ==>
                reports[k] == ToU32(Reports(old(Pending()), old(timers), tid, pp)[k])
    {
      hide Ring, Elapsed, Owned, Carries, Schedule, Scan, SameOwners, Kept, Reports, IdsIn, DeleteAt, ToU32, Lists, Matched, After,
           Unmatched;
      ListsNow(size, active, avail, next, prev);
      ghost var a, timers0 := Pending(), timers;
      cnt, reports := 0, [];
      StepAt(size, active, avail, next, prev, 0);
      ScanStart(active, timers, tid, pp);
      var hrp := next[size];
      var time: U32 := 0;
      ghost var m: nat, k: nat := 0, 0;
      while hrp != size
        invariant Valid() && SameOwners(timers0, timers)
        invariant k <= |active| && hrp == After(size, active, k)
        invariant hrp == size <==> k == |active|
        invariant |a| - m == |active| - k && |a| == |old(active)| && cnt == m - k
        invariant Scan(a, timers0, m, tid, pp, Pending(), k, time, reports)
        decreases |active| - k
      {
        StepAt(size, active, avail, next, prev, k);
        ScanAt(active, timers, timers0, a, m, tid, pp, k, time, reports);
        var nhrp := next[hrp];
        ghost var time0 := time;
        time := ToU32(time + timers[hrp].time);
        if timers[hrp].eid == tid && timers[hrp].proc == pp {
          cnt := cnt + 1;
          reports := CancelMatch(hrp, time, reports, a, timers0, m, k, time0, tid, pp);
        } else {
          ScanKeep(a, timers0, m, tid, pp, Pending(), k, time0, reports, timers[hrp].time);
          k := k + 1;
        }
        m := m + 1;
        hrp := nhrp;
        StepAt(size, active, avail, next, prev, k);
      }
      ScanEnd(a, timers0, m, tid, pp, Pending(), k, time, reports);
    }

    /** One firing in clock_int: take the head off, and put it back or free it. */
    method FireHead(hrp: nat)
      requires Valid() && active != [] && hrp == active[0] && timers[hrp].time == 0
      modifies this`timers, this`next, this`prev, this`active, this`avail
      ensures Valid() && hrp < |old(timers)|
      ensures var t := old(timers)[hrp];
              if t.interval != 0 then
                && Pending() == InsertDue(old(Pending())[1..], Entry(hrp, Period(t, tick)))
                && avail == old(avail)
              else
                Pending() == old(Pending())[1..] && avail == [hrp] + old(avail)
      ensures TickStores(old(timers), timers, [hrp], tick)
    {
      hide Ring, Elapsed, Owned, Carries, Schedule;
      ghost var timers0 := timers;
      HeadAlone(active, timers);
      DeleteDone(active, timers, timers, 0);
      CarryAt(timers, tick, hrp);
      Dequeue(hrp, 0);
      if timers[hrp].interval != 0 {
        var crem := timers[hrp].crem + timers[hrp].rem;
        var time := timers[hrp].interval;
        if crem >= tick {
          time := time + 1;
          crem := crem - tick;
        }
        var t := timers[hrp].(crem := crem, time := time);
        OffListStore(active, timers, hrp, t);
        CarryStored(timers, tick, hrp, t);
        timers := timers[hrp := t];
        ghost var timers1 := timers;
        Timeout(hrp, 0);
        StoresOne(timers0, timers1, timers, hrp, tick);
      } else {
        Free(hrp);
      }
    }

    /** The timer part of clock_int. On a list with no entry overdue the entries due at this
        tick fire, all of them and in order; the others come one tick closer; the repeating
        ones are put back by their period. `fired` lists the firings. */
    method ClockInt() returns (fired: seq<nat>)
      requires Valid() && Armed(Pending())
      modifies this`timers, this`next, this`prev, this`active, this`avail, this`hrLbolt
      ensures Valid() && Armed(Pending()) && InRange(fired, old(timers))
      ensures fired == FiredAt(old(Pending()))
      ensures Step(old(Pending()), Tick(old(timers)), Pending(), tick)
      ensures avail == FreedBy(fired, old(timers)) + old(avail)
      ensures TickStores(old(timers), timers, fired, tick)
      ensures hrLbolt == ToU32(old(hrLbolt) + 1)
    {
      hide Ring, Elapsed, Owned, Carries, Schedule, Firing, Armed, TickStores, Rearmed, FreedBy, FiredAt, Left, Step;
      ghost var a, timers0, avail0 := Pending(), timers, avail;
      fired := [];
      WalkStep(size, active, avail, next, prev, 0);
      if next[size] == size {
        NothingPending(active, timers, tick, avail);
      } else {
        var hrp := next[size];
        CountDown(hrp);
        FiringHead(active, timers, FiredAt(a), 0, Left(a), timers0, fired, avail, avail0, tick);
        if timers[hrp].time == 0 {
          fired := FireAll(FiredAt(a), Left(a), timers0, avail0);
        }
        FiringEnd(FiredAt(a), Left(a), timers0, timers, Pending(), fired, avail, avail0, tick);
        TickIsStep(a, fired, timers0, Pending(), tick);
      }
      hrLbolt := ToU32(hrLbolt + 1);
    }

    /** The head of the list counted down. */
    method CountDown(hrp: nat)
      requires Valid() && Armed(Pending()) && active != [] && hrp == active[0]
      modifies this`timers
      ensures Valid() && hrp < |timers|
      ensures Firing(FiredAt(old(Pending())), 0, Left(old(Pending())), old(timers), timers, Pending(), [], avail, avail, tick)
    {
      hide Ring, Elapsed, Owned, Carries, Schedule, Firing, Armed, DueCount, Advance, Ids;
      WalkStep(size, active, avail, next, prev, 0);
      HeadTick(active, timers, tick, avail);
      TimeStoreCarries(timers, hrp, timers[hrp].time - 1, tick);
      timers := timers[hrp := timers[hrp].(time := ToU32(timers[hrp].time - 1))];
    }

    /** The inner loop of clock_int: the timers `ids` fire, the first of them being at the head. */
    method FireAll(ghost ids: seq<nat>, ghost rest: seq<Entry>, ghost timers0: seq<Timer>, ghost avail0: seq<nat>)
      returns (fired: seq<nat>)
      requires Valid() && active != [] && ids != [] && active[0] == ids[0] && timers[active[0]].time == 0
      requires Firing(ids, 0, rest, timers0, timers, Pending(), [], avail, avail0, tick)
      modifies this`timers, this`next, this`prev, this`active, this`avail
      ensures Valid() && Firing(ids, |ids|, rest, timers0, timers, Pending(), fired, avail, avail0, tick)
    {
      hide Ring, Elapsed, Owned, Carries, Schedule, Firing, TickStores, InsertDue;
      WalkStep(size, active, avail, next, prev, 0);
      var hrp := next[size];
      fired := [];
      ghost var i: nat := 0;
      while true
        invariant Valid() && i < |ids| && hrLbolt == old(hrLbolt)
        invariant Firing(ids, i, rest, timers0, timers, Pending(), fired, avail, avail0, tick)
        invariant active != [] && hrp == active[0] == ids[i] && timers[hrp].time == 0
        decreases |ids| - i
      {
        ghost var before, pending, avail1 := timers, Pending(), avail;
        FireHead(hrp);
        FiringStep(ids, i, rest, timers0, before, timers, pending, Pending(), fired, avail1, avail, avail0, tick);
        fired := fired + [hrp];
        i := i + 1;
        WalkStep(size, active, avail, next, prev, 0);
        FiringHead(active, timers, ids, i, rest, timers0, fired, avail, avail0, tick);
        hrp := next[size];
        if hrp == size || timers[hrp].time != 0 {
          break;
        }
      }
    }

    /** hrt_unsleep: end the first pending sleep of process `pp`, and say when it would
        have fired. */
    method Unsleep(pp: nat) returns (r: nat)
      requires Valid()
      modifies this`timers, this`next, this`prev, this`active, this`avail
      ensures Valid()
      ensures var k := FirstSleep(old(active), old(timers), pp);
        if k == |old(active)| then
          r == 0 && active == old(active) && avail == old(avail) && Pending() == old(Pending())
        else
          && r == old(Pending())[k].due
          && Pending() == DeleteAt(old(Pending()), k)
          && avail == [old(active)[k]] + old(avail)
    {
      hide Ring, Elapsed, Owned, Carries, Schedule, FirstSleep;
      WalkStep(size, active, avail, next, prev, 0);
      ElapsedStart(active, timers);
      var hrp := next[size];
      var time := 0;
      ghost var k := 0;
      FirstSleepFrom(active, timers, pp, 0);
      while hrp != size
        invariant timers == old(timers) && next == old(next) && prev == old(prev)
        invariant active == old(active) && avail == old(avail)
        invariant 0 <= k <= |active| && hrp == After(size, active, k)
        invariant hrp == size <==> k == |active|
        invariant time == Elapsed(active, timers, k)
        invariant FirstSleep(active, timers, pp) >= k
        decreases |active| - k
      {
        WalkStep(size, active, avail, next, prev, k);
        WalkStep(size, active, avail, next, prev, k + 1);
        ElapsedStep(active, timers, k);
        ElapsedGrows(active, timers, k + 1, |active|);
        FirstSleepFrom(active, timers, pp, k);
        time := ToU32(time + timers[hrp].time);
        if timers[hrp].proc == pp && timers[hrp].cmd == IntSlp {
          break;
        }
        hrp := next[hrp];
        k := k + 1;
      }
      if hrp == size {
        FirstSleepFrom(active, timers, pp, k);
        return 0;
      }
      Withdraw(hrp, k);
      Free(hrp);
      return time;
    }
  }

  /** Timers belong to at most one of the two lists, and the list heads to neither. */
  ghost predicate Owned(size: nat, active: seq<nat>, avail: seq<nat>)
  {
    && (forall x :: x in active ==> x < size && x !in avail)
    && (forall x :: x in avail ==> x < size)
  }

  ghost predicate Lists(size: nat, active: seq<nat>, avail: seq<nat>, next: seq<nat>, prev: seq<nat>)
  {
    && |next| == |prev| == size + 2
    && Ring(size, active, next, prev) && Ring(size + 1, avail, next, prev)
    && Owned(size, active, avail)
  }

  /** The list is as `TimerRuns` starts from, once nothing on it is overdue. */
  lemma ScheduleOrderly(size: nat, active: seq<nat>, avail: seq<nat>, next: seq<nat>, prev: seq<nat>, timers: seq<Timer>)
    requires Lists(size, active, avail, next, prev) && InRange(active, timers) && Armed(Schedule(active, timers))
    ensures Orderly(Schedule(active, timers))
  {
    hide Ring, Owned, Armed;
    ScheduleSorted(active, timers);
    Members(size, active, next, prev);
    assert Ids(Schedule(active, timers)) == active;
    OnceEach(active);
  }

  lemma TickIsStep(a: seq<Entry>, fired: seq<nat>, timers: seq<Timer>, b: seq<Entry>, tick: nat)
    requires Armed(a) && fired == FiredAt(a) && InRange(fired, timers) && b == Rearmed(fired, Left(a), timers, tick)
    ensures Step(a, Tick(timers), b, tick)
  {}

  lemma {:induction false} OnceEach(s: seq<nat>)
    requires forall i, j :: 0 <= i < j < |s| ==> s[i] != s[j]
    ensures NoneTwice(s)
  {
    if s != [] {
      var n := |s| - 1;
      OnceEach(s[..n]);
      assert s == s[..n] + [s[n]];
      FreshOnce(s[..n], s[n], s);
    }
  }

  ghost predicate Carries(timers: seq<Timer>, tick: U32)
  {
    forall x :: 0 <= x < |timers| ==> CarryOk(timers[x], tick) && timers[x].interval < W32 - 1
  }

  lemma ActiveInsert(size: nat, active: seq<nat>, avail: seq<nat>, next: seq<nat>, prev: seq<nat>, k: nat, x: nat)
    requires Lists(size, active, avail, next, prev) && k <= |active|
    requires x < size && x !in active && x !in avail
    ensures Before(size, active, k) < size + 2 && After(size, active, k) < size + 2
    ensures prev[After(size, active, k)] == Before(size, active, k)
    ensures var a, b := Before(size, active, k), After(size, active, k);
            Lists(size, InsertAt(active, k, x), avail, next[x := b][a := x], prev[x := a][b := x])
  {
    hide Ring;
    var a, b := Before(size, active, k), After(size, active, k);
    Neighbours(size, active, next, prev, k);
    Insert(size, active, next, prev, k, x);
    assert a == size || a in active;
    assert b == size || b in active;
    assert forall y :: y in InsertAt(active, k, x) ==> y == x || y in active;
    Frame(size + 1, avail, next, prev, next[x := b][a := x], prev[x := a][b := x]);
  }

  lemma ActiveDelete(size: nat, active: seq<nat>, avail: seq<nat>, next: seq<nat>, prev: seq<nat>, k: nat)
    requires Lists(size, active, avail, next, prev) && k < |active|
    ensures active[k] < size && Before(size, active, k) < size + 2 && After(size, active, k + 1) < size + 2
    ensures prev[active[k]] == Before(size, active, k) && next[active[k]] == After(size, active, k + 1)
    ensures active[k] !in DeleteAt(active, k) && active[k] !in avail
    ensures var a, b := Before(size, active, k), After(size, active, k + 1);
            Lists(size, DeleteAt(active, k), avail, next[a := b], prev[b := a])
  {
    hide Ring;
    var a, b := Before(size, active, k), After(size, active, k + 1);
    Members(size, active, next, prev);
    Delete(size, active, next, prev, k);
    assert active[k] in active;
    assert a == size || a in active;
    assert b == size || b in active;
    assert forall x :: x in DeleteAt(active, k) ==> x in active;
    Frame(size + 1, avail, next, prev, next[a := b], prev[b := a]);
  }

  lemma AvailPush(size: nat, active: seq<nat>, avail: seq<nat>, next: seq<nat>, prev: seq<nat>, x: nat)
    requires Lists(size, active, avail, next, prev)
    requires x < size && x !in active && x !in avail
    ensures next[size + 1] == After(size + 1, avail, 0) < size + 2
    ensures var b := next[size + 1];
            Lists(size, active, [x] + avail, next[x := b][size + 1 := x], prev[x := size + 1][b := x])
  {
    hide Ring;
    var b := After(size + 1, avail, 0);
    Neighbours(size + 1, avail, next, prev, 0);
    Insert(size + 1, avail, next, prev, 0, x);
    assert b == size + 1 || b in avail;
    assert InsertAt(avail, 0, x) == [x] + avail;
    Frame(size, active, next, prev, next[x := b][size + 1 := x], prev[x := size + 1][b := x]);
  }

  lemma AvailPop(size: nat, active: seq<nat>, avail: seq<nat>, next: seq<nat>, prev: seq<nat>)
    requires Lists(size, active, avail, next, prev) && avail != []
    ensures avail[0] < size && next[avail[0]] == After(size + 1, avail, 1) < size + 2
    ensures avail[0] !in avail[1..] && avail[0] !in active
    ensures var b := next[avail[0]];
            Lists(size, active, avail[1..], next[size + 1 := b], prev[b := size + 1])
  {
    hide Ring;
    Members(size + 1, avail, next, prev);
    Delete(size + 1, avail, next, prev, 0);
    var b := After(size + 1, avail, 1);
    assert b == size + 1 || b in avail;
    assert avail[0] in avail;
    assert DeleteAt(avail, 0) == avail[1..];
    assert forall x :: x in avail[1..] ==> x in avail;
    Frame(size, active, next, prev, next[size + 1 := b], prev[b := size + 1]);
  }

  lemma AvailFirst(size: nat, active: seq<nat>, avail: seq<nat>, next: seq<nat>, prev: seq<nat>)
    requires Lists(size, active, avail, next, prev)
    ensures next[size + 1] == if avail == [] then size + 1 else avail[0]
    ensures avail != [] ==> avail[0] != size + 1
  {
    Neighbours(size + 1, avail, next, prev, 0);
    Members(size + 1, avail, next, prev);
  }

  /** A store to a timer off the active list changes no pending time. */
  lemma OffListStore(active: seq<nat>, timers: seq<Timer>, x: nat, t: Timer)
    requires InRange(active, timers) && x < |timers| && x !in active
    ensures InRange(active, timers[x := t])
    ensures Schedule(active, timers[x := t]) == Schedule(active, timers)
    ensures Elapsed(active, timers[x := t], |active|) == Elapsed(active, timers, |active|)
  {
    forall k | 0 <= k <= |active| ensures Elapsed(active, timers[x := t], k) == Elapsed(active, timers, k) {
      ElapsedFrame(active, timers, timers[x := t], k);
    }
  }

  lemma {:induction false} ElapsedFrame(list: seq<nat>, timers: seq<Timer>, timers': seq<Timer>, k: nat)
    requires InRange(list, timers) && |timers'| == |timers| && k <= |list|
    requires forall j :: 0 <= j < k ==> timers'[list[j]].time == timers[list[j]].time
    ensures Elapsed(list, timers', k) == Elapsed(list, timers, k)
  {
    if k > 0 { ElapsedFrame(list, timers, timers', k - 1); }
  }

  /** What the lists say about the walk along the active timers. */
  lemma StepAt(size: nat, active: seq<nat>, avail: seq<nat>, next: seq<nat>, prev: seq<nat>, k: nat)
    requires Lists(size, active, avail, next, prev) && k <= |active|
    ensures next[size] == After(size, active, 0)
    ensures k < |active| ==> After(size, active, k) == active[k] < size && next[active[k]] == After(size, active, k + 1)
    ensures After(size, active, k) <= size && (After(size, active, k) == size <==> k == |active|)
  {
    hide Lists;
    WalkStep(size, active, avail, next, prev, k);
  }

  lemma WalkStep(size: nat, active: seq<nat>, avail: seq<nat>, next: seq<nat>, prev: seq<nat>, k: nat)
    requires Lists(size, active, avail, next, prev) && k <= |active|
    ensures next[size] == After(size, active, 0)
    ensures k < |active| ==> active[k] < size && next[active[k]] == After(size, active, k + 1)
    ensures After(size, active, k) == size <==> k == |active|
    ensures forall j :: 0 <= j < |active| ==> active[j] < size
    ensures forall i, j :: 0 <= i < j < |active| ==> active[i] != active[j]
  {
    hide Ring;
    Members(size, active, next, prev);
    Neighbours(size, active, next, prev, 0);
    forall j | 0 <= j < |active| ensures active[j] < size { assert active[j] in active; }
    if k < |active| {
      Neighbours(size, active, next, prev, k + 1);
    }
  }

  /** Two timer tables that differ in nothing but remaining times. */
  predicate SameButTimes(a: seq<Timer>, b: seq<Timer>)
  {
    |a| == |b| && forall x :: 0 <= x < |a| ==> b[x] == a[x].(time := b[x].time)
  }

  lemma CarriesKept(a: seq<Timer>, b: seq<Timer>, tick: U32)
    requires Carries(a, tick) && SameButTimes(a, b)
    ensures Carries(b, tick)
  {}

  lemma ElapsedStart(list: seq<nat>, timers: seq<Timer>)
    requires InRange(list, timers)
    ensures Elapsed(list, timers, 0) == 0
  {}

  lemma ElapsedStep(list: seq<nat>, timers: seq<Timer>, k: nat)
    requires InRange(list, timers) && k < |list|
    ensures Elapsed(list, timers, k + 1) == Elapsed(list, timers, k) + timers[list[k]].time
  {}

  /** The time hrt_timeout starts from: corrected for the ticks since `base`, and at least 1. */
  function Adjusted(time: U32, base: U32, lbolt: U32): nat
  {
    if base == 0 then time
    else
      var fudge := ToU32(lbolt - base);
      if fudge >= time then 1 else time - fudge
  }

  /** A timer of `time` ticks asked for when the clock showed `base` is due when it shows `base + time`,
      however much later it is put on the list; at the next tick if that is past; and `time` ticks from
      now when it comes without a base. */
  predicate OnDeadline(due: int, time: U32, base: U32, lbolt: U32)
  {
    if base == 0 then due == time
    else if ToU32(lbolt - base) < time then due >= 1 && ToU32(lbolt + due) == ToU32(base + time) && due <= time
    else due == 1
  }

  lemma AdjustedOnDeadline(time: U32, base: U32, lbolt: U32)
    ensures OnDeadline(Adjusted(time, base, lbolt), time, base, lbolt)
  {}

  /** The ticks since the base, fewer than 2^32 of them. */
  lemma LateBy(time: U32, base: U32, n: nat)
    requires base != 0 && n < W32
    ensures Adjusted(time, base, ToU32(base + n)) == if n < time then time - n else 1
  {}

  lemma InsertDone(active: seq<nat>, timers: seq<Timer>, timers': seq<Timer>, k: nat, x: nat, due: nat,
                   nhrp: nat, size: nat, tick: U32)
    requires InRange(active, timers) && k <= |active| && x !in active && x < size && |timers| == size + 2
    requires forall i, j :: 0 <= i < j < |active| ==> active[i] != active[j]
    requires forall j :: 0 <= j < |active| ==> active[j] < size
    requires nhrp == After(size, active, k)
    requires Elapsed(active, timers, k) <= due < W32 && Elapsed(active, timers, |active|) < W32
    requires k < |active| ==> due < Elapsed(active, timers, k) + timers[active[k]].time
    requires var time := due - Elapsed(active, timers, k);
             var t := timers[x := timers[x].(time := time)];
             timers' == t[nhrp := t[nhrp].(time := ToU32(t[nhrp].time - time))]
    requires Carries(timers, tick)
    ensures Carries(timers', tick) && SameButTimes(timers, timers')
    ensures var list := InsertAt(active, k, x);
            && InRange(list, timers') && Elapsed(list, timers', |list|) < W32
            && Schedule(list, timers') == InsertDue(Schedule(active, timers), Entry(x, due))
  {
    hide Elapsed, Schedule, Inserted, Carries, SameButTimes;
    SplitTime(active, timers, timers', k, x, due, nhrp, size);
    InsertKeepsDues(active, timers, timers', k, x, due);
    InsertElapsed(active, timers, timers', k, x, due, |active| + 1);
    GapForDue(active, timers, k, Entry(x, due));
    CarriesKept(timers, timers', tick);
  }

  lemma SplitTime(active: seq<nat>, timers: seq<Timer>, timers': seq<Timer>, k: nat, x: nat, due: nat,
                  nhrp: nat, size: nat)
    requires InRange(active, timers) && k <= |active| && x !in active && x < size && |timers| == size + 2
    requires forall i, j :: 0 <= i < j < |active| ==> active[i] != active[j]
    requires forall j :: 0 <= j < |active| ==> active[j] < size
    requires nhrp == After(size, active, k)
    requires Elapsed(active, timers, k) <= due < W32
    requires k < |active| ==> due < Elapsed(active, timers, k) + timers[active[k]].time
    requires var time := due - Elapsed(active, timers, k);
             var t := timers[x := timers[x].(time := time)];
             timers' == t[nhrp := t[nhrp].(time := ToU32(t[nhrp].time - time))]
    ensures Inserted(active, timers, timers', k, x, due) && SameButTimes(timers, timers')
  {
    hide Elapsed;
  }

  lemma GapForDue(active: seq<nat>, timers: seq<Timer>, k: nat, e: Entry)
    requires InRange(active, timers) && k <= |active|
    requires Elapsed(active, timers, k) <= e.due
    requires k < |active| ==> e.due < Elapsed(active, timers, k) + timers[active[k]].time
    ensures var a := Schedule(active, timers); InsertDue(a, e) == a[..k] + [e] + a[k..]
  {
    hide Elapsed;
    var a := Schedule(active, timers);
    forall j | 0 <= j < k ensures a[j].due <= e.due {
      ElapsedGrows(active, timers, j + 1, k);
    }
    if k < |active| { ElapsedStep(active, timers, k); }
    InsertDueAt(a, e, k);
  }

  lemma DeleteDone(active: seq<nat>, timers: seq<Timer>, timers': seq<Timer>, k: nat)
    requires InRange(active, timers) && k < |active| && Deleted(active, timers, timers', k)
    requires Elapsed(active, timers, |active|) < W32
    ensures var list := DeleteAt(active, k);
            && InRange(list, timers') && Elapsed(list, timers', |list|) < W32
            && Schedule(list, timers') == DeleteAt(Schedule(active, timers), k)
  {
    hide Elapsed, Schedule, Deleted;
    ElapsedGrows(active, timers, |active| - 1, |active|);
    DeleteKeepsDues(active, timers, timers', k);
    DeleteElapsed(active, timers, timers', k, |active| - 1);
  }

  lemma ClearedCarries(timers: seq<Timer>, x: nat, tick: U32)
    requires Carries(timers, tick) && x < |timers|
    ensures Carries(timers[x := Timer(0, 0, 0, 0, 0, 0, Other)], tick)
  {
    assert CarryOk(timers[x], tick);
  }

  lemma TimeStoreCarries(timers: seq<Timer>, x: nat, time: U32, tick: U32)
    requires Carries(timers, tick) && x < |timers|
    ensures Carries(timers[x := timers[x].(time := time)], tick)
  {}

  lemma MergedTime(active: seq<nat>, timers: seq<Timer>, merged: seq<Timer>, k: nat, nhrp: nat, size: nat)
    requires InRange(active, timers) && k < |active| && |timers| == size + 2
    requires forall i, j :: 0 <= i < j < |active| ==> active[i] != active[j]
    requires forall j :: 0 <= j < |active| ==> active[j] < size
    requires nhrp == After(size, active, k + 1) && Elapsed(active, timers, |active|) < W32
    requires merged == timers[nhrp := timers[nhrp].(time := ToU32(timers[nhrp].time + timers[active[k]].time))]
    ensures Deleted(active, timers, merged, k)
  {
    hide Elapsed;
    ElapsedStep(active, timers, k);
    if k + 1 < |active| {
      ElapsedStep(active, timers, k + 1);
      ElapsedGrows(active, timers, k + 2, |active|);
    }
  }

  /** Position of the first pending sleep of a process, the length if there is none. */
  function FirstSleep(active: seq<nat>, timers: seq<Timer>, pp: nat): (k: nat)
    requires InRange(active, timers)
    ensures k <= |active|
  {
    if active == [] then 0
    else if timers[active[0]].proc == pp && timers[active[0]].cmd == IntSlp then 0
    else 1 + FirstSleep(active[1..], timers, pp)
  }

  /** It is one of that process's sleeps, and no entry before it is. */
  lemma {:induction false} FirstSleepIs(active: seq<nat>, timers: seq<Timer>, pp: nat)
    requires InRange(active, timers)
    ensures var k := FirstSleep(active, timers, pp);
            && (k < |active| ==> timers[active[k]].proc == pp && timers[active[k]].cmd == IntSlp)
            && forall j :: 0 <= j < k ==> !(timers[active[j]].proc == pp && timers[active[j]].cmd == IntSlp)
  {
    if active != [] {
      FirstSleepIs(active[1..], timers, pp);
      assert forall j :: 0 < j < |active| ==> active[j] == active[1..][j - 1];
    }
  }

  lemma {:induction false} FirstSleepFrom(active: seq<nat>, timers: seq<Timer>, pp: nat, k: nat)
    requires InRange(active, timers) && k <= |active| && FirstSleep(active, timers, pp) >= k
    ensures k < |active| ==>
              (FirstSleep(active, timers, pp) == k <==> timers[active[k]].proc == pp && timers[active[k]].cmd == IntSlp)
    ensures FirstSleep(active, timers, pp) <= |active|
  {
    if k > 0 { FirstSleepFrom(active[1..], timers, pp, k - 1); }
  }

  /** Two timer tables that agree on whose each timer is. */
  predicate SameOwners(a: seq<Timer>, b: seq<Timer>)
  {
    |a| == |b| && forall x :: 0 <= x < |a| ==> b[x].eid == a[x].eid && b[x].proc == a[x].proc
  }

  lemma WithdrawKeepsNext(size: nat, active: seq<nat>, k: nat)
    requires k < |active|
    ensures After(size, active, k + 1) == After(size, DeleteAt(active, k), k)
  {}

  /** Where the scan of a cancellation stands after `m` entries of the schedule `a`. */
  ghost predicate Scan(a: seq<Entry>, timers0: seq<Timer>, m: nat, tid: int, pp: nat,
                       pending: seq<Entry>, k: nat, time: U32, reports: seq<U32>)
  {
    && IdsIn(a, timers0) && m <= |a|
    && pending == Kept(a[..m], timers0, tid, pp) + a[m..]
    && k == |Kept(a[..m], timers0, tid, pp)|
    && time == ToU32(LastKept(a[..m], timers0, tid, pp) + Excess(a[..m], timers0, tid, pp))
    && |reports| == |Reports(a[..m], timers0, tid, pp)|
    && forall j :: 0 <= j < |reports| ==> reports[j] == ToU32(Reports(a[..m], timers0, tid, pp)[j])
  }

  lemma ScanStart(active: seq<nat>, timers: seq<Timer>, tid: int, pp: nat)
    requires InRange(active, timers)
    ensures var a := Schedule(active, timers);
            IdsIn(a, timers) && |a| == |active| && Scan(a, timers, 0, tid, pp, a, 0, 0, [])
            && SameOwners(timers, timers)
  {
    var a := Schedule(active, timers);
    assert a[..0] == [] && a[0..] == a;
  }

  lemma ScanEnd(a: seq<Entry>, timers0: seq<Timer>, m: nat, tid: int, pp: nat,
                pending: seq<Entry>, k: nat, time: U32, reports: seq<U32>)
    requires Scan(a, timers0, m, tid, pp, pending, k, time, reports) && m == |a|
    ensures IdsIn(a, timers0) && pending == Kept(a, timers0, tid, pp)
    ensures |reports| == |Reports(a, timers0, tid, pp)|
    ensures forall j :: 0 <= j < |reports| ==> reports[j] == ToU32(Reports(a, timers0, tid, pp)[j])
  {
    assert a[..m] == a && a[m..] == [];
  }

  /** The scan's next entry is one to be cancelled, with `time` on its own. */
  ghost predicate Matched(a: seq<Entry>, timers0: seq<Timer>, m: nat, tid: int, pp: nat, time: nat)
  {
    && IdsIn(a, timers0) && m < |a| && Matches(timers0[a[m].id], tid, pp)
    && time == a[m].due - LastKept(a[..m], timers0, tid, pp)
  }

  /** ... or one to be left. */
  ghost predicate Unmatched(a: seq<Entry>, timers0: seq<Timer>, m: nat, tid: int, pp: nat, time: nat)
  {
    && IdsIn(a, timers0) && m < |a| && !Matches(timers0[a[m].id], tid, pp)
    && time == a[m].due - LastKept(a[..m], timers0, tid, pp)
  }

  /** What the scan finds at its next entry. */
  lemma ScanAt(active: seq<nat>, timers: seq<Timer>, timers0: seq<Timer>, a: seq<Entry>, m: nat, tid: int, pp: nat,
               k: nat, time: U32, reports: seq<U32>)
    requires InRange(active, timers) && SameOwners(timers0, timers)
    requires Scan(a, timers0, m, tid, pp, Schedule(active, timers), k, time, reports) && m < |a|
    ensures k < |active| && active[k] < |timers|
    ensures var t := timers[active[k]];
            if t.eid == tid && t.proc == pp then Matched(a, timers0, m, tid, pp, t.time)
            else Unmatched(a, timers0, m, tid, pp, t.time)
  {
    hide Elapsed, Kept, Excess, Reports;
    var s := Schedule(active, timers);
    var r := Kept(a[..m], timers0, tid, pp);
    assert s[k] == a[m];
    if k > 0 { assert s[k - 1] == r[k - 1]; }
    ElapsedStep(active, timers, k);
    ElapsedStart(active, timers);
  }

  lemma KeptStep(a: seq<Entry>, timers0: seq<Timer>, m: nat, tid: int, pp: nat)
    requires IdsIn(a, timers0) && m < |a|
    ensures var r, e := Kept(a[..m], timers0, tid, pp), a[m];
            var x := Excess(a[..m], timers0, tid, pp);
            var l := LastKept(a[..m], timers0, tid, pp);
            if Matches(timers0[e.id], tid, pp) then
              && Kept(a[..m + 1], timers0, tid, pp) == r
              && LastKept(a[..m + 1], timers0, tid, pp) == l
              && Excess(a[..m + 1], timers0, tid, pp) == x + (e.due - l)
              && Reports(a[..m + 1], timers0, tid, pp) == Reports(a[..m], timers0, tid, pp) + [e.due + x]
            else
              && Kept(a[..m + 1], timers0, tid, pp) == r + [e]
              && LastKept(a[..m + 1], timers0, tid, pp) == e.due
              && Excess(a[..m + 1], timers0, tid, pp) == x
              && Reports(a[..m + 1], timers0, tid, pp) == Reports(a[..m], timers0, tid, pp)
  {
    var b := a[..m + 1];
    assert b[..m] == a[..m] && b[m] == a[m];
  }

  lemma ScanMatch(a: seq<Entry>, timers0: seq<Timer>, m: nat, tid: int, pp: nat,
                  pending: seq<Entry>, k: nat, time: U32, reports: seq<U32>, t: U32)
    requires Scan(a, timers0, m, tid, pp, pending, k, time, reports) && Matched(a, timers0, m, tid, pp, t)
    ensures k < |pending|
    ensures Scan(a, timers0, m + 1, tid, pp, DeleteAt(pending, k), k, ToU32(time + t), reports + [ToU32(time + t)])
  {
    hide Kept, Excess, Reports, LastKept;
    KeptStep(a, timers0, m, tid, pp);
    assert DeleteAt(pending, k) == Kept(a[..m], timers0, tid, pp) + a[m + 1..];
  }

  lemma ScanKeep(a: seq<Entry>, timers0: seq<Timer>, m: nat, tid: int, pp: nat,
                 pending: seq<Entry>, k: nat, time: U32, reports: seq<U32>, t: U32)
    requires Scan(a, timers0, m, tid, pp, pending, k, time, reports) && Unmatched(a, timers0, m, tid, pp, t)
    ensures Scan(a, timers0, m + 1, tid, pp, pending, k + 1, ToU32(time + t), reports)
  {
    hide Kept, Excess, Reports, LastKept;
    KeptStep(a, timers0, m, tid, pp);
    assert pending == Kept(a[..m], timers0, tid, pp) + [a[m]] + a[m + 1..];
  }

  lemma ListsNow(size: nat, active: seq<nat>, avail: seq<nat>, next: seq<nat>, prev: seq<nat>)
    requires Lists(size, active, avail, next, prev)
    ensures |next| == |prev| == size + 2
  {}

  lemma MeaningTrans(a: seq<Timer>, b: seq<Timer>, c: seq<Timer>)
    requires SameOwners(a, b) && SameOwners(b, c)
    ensures SameOwners(a, c)
  {}

  // ---------------------------------------------------- facts for clock_int

  lemma HeadAlone(active: seq<nat>, timers: seq<Timer>)
    requires InRange(active, timers) && active != [] && timers[active[0]].time == 0
    ensures Deleted(active, timers, timers, 0)
    ensures DeleteAt(active, 0) == active[1..]
    ensures DeleteAt(Schedule(active, timers), 0) == Schedule(active, timers)[1..]
  {}

  lemma CarryAt(timers: seq<Timer>, tick: U32, x: nat)
    requires Carries(timers, tick) && x < |timers|
    ensures CarryOk(timers[x], tick) && timers[x].interval < W32 - 1
  {}

  lemma CarryStored(timers: seq<Timer>, tick: U32, x: nat, t: Timer)
    requires Carries(timers, tick) && x < |timers| && CarryOk(t, tick) && t.interval == timers[x].interval
    ensures Carries(timers[x := t], tick)
  {}

  lemma StoresOne(a: seq<Timer>, b: seq<Timer>, c: seq<Timer>, x: nat, tick: U32)
    requires x < |a| && a[x].interval != 0 && CarryOk(a[x], tick)
    requires exists time: U32, crem: U32 :: crem == Carry(a[x], tick) && b == a[x := a[x].(crem := crem, time := time)]
    requires SameButTimes(b, c)
    ensures TickStores(a, c, [x], tick)
  {}

  /** Where clock_int stands when `i` of the due timers `ids` have fired. */
  ghost predicate Firing(ids: seq<nat>, i: nat, rest: seq<Entry>, timers0: seq<Timer>, timers: seq<Timer>,
                         pending: seq<Entry>, fired: seq<nat>, avail: seq<nat>, avail0: seq<nat>, tick: U32)
  {
    && i <= |ids| && fired == ids[..i] && InRange(ids, timers0) && Armed(rest)
    && (forall j, k :: 0 <= j < k < |ids| ==> ids[j] != ids[k])
    && pending == DueNow(ids[i..]) + Rearmed(fired, rest, timers0, tick)
    && avail == FreedBy(fired, timers0) + avail0
    && TickStores(timers0, timers, fired, tick)
  }

  lemma NothingPending(active: seq<nat>, timers: seq<Timer>, tick: U32, avail: seq<nat>)
    requires active == []
    ensures var a := Schedule(active, timers);
            && Armed(a) && FiredAt(a) == [] && Step(a, Tick(timers), a, tick)
            && FreedBy([], timers) + avail == avail && TickStores(timers, timers, [], tick)
  {
    var a := Schedule(active, timers);
    assert Ids(a)[..0] == [] && Advance(a)[0..] == a;
  }

  lemma SplitDue(a: seq<Entry>)
    requires Sorted(a) && Armed(a)
    ensures var n := DueCount(a); Advance(a) == DueNow(Ids(a)[..n]) + Advance(a)[n..] && Armed(Advance(a)[n..])
  {
    hide Sorted, DueCount, DueNow, Ids, Advance;
    DueCountIsAll(a);
    var n := DueCount(a);
    IdsLength(a);
    forall k | 0 <= k < n ensures DueNow(Ids(a)[..n])[k] == Advance(a)[k] {
      OneDue(a, k);
    }
    forall k | n <= k < |a| ensures Advance(a)[k].due >= 1 {
      OneDue(a, k);
    }
    assert DueNow(Ids(a)[..n]) == Advance(a)[..n];
  }

  lemma IdsLength(a: seq<Entry>)
    ensures |Ids(a)| == |a|
  {}

  lemma OneDue(a: seq<Entry>, k: nat)
    requires Armed(a) && k < |a|
    ensures Advance(a)[k] == Entry(a[k].id, a[k].due - 1)
    ensures forall n :: k < n <= |a| ==> DueNow(Ids(a)[..n])[k] == Entry(a[k].id, 0)
  {}

  lemma CountedDown(active: seq<nat>, timers: seq<Timer>, timers': seq<Timer>)
    requires InRange(active, timers) && active != [] && Armed(Schedule(active, timers)) && timers[active[0]].time >= 1
    requires forall i, j :: 0 <= i < j < |active| ==> active[i] != active[j]
    requires timers' == timers[active[0] := timers[active[0]].(time := timers[active[0]].time - 1)]
    ensures Elapsed(active, timers', |active|) <= Elapsed(active, timers, |active|)
    ensures Schedule(active, timers') == Advance(Schedule(active, timers))
  {
    hide Elapsed;
    forall j | 0 <= j <= |active|
      ensures Elapsed(active, timers', j) == if j == 0 then 0 else Elapsed(active, timers, j) - 1
    {
      HeadCountdown(active, timers, timers', j);
    }
    ElapsedStart(active, timers);
    var r, q := Schedule(active, timers'), Advance(Schedule(active, timers));
    assert forall k :: 0 <= k < |active| ==> r[k] == q[k];
  }

  /** Counting down the head of an armed list starts the firing. */
  lemma HeadTick(active: seq<nat>, timers: seq<Timer>, tick: U32, avail: seq<nat>)
    requires InRange(active, timers) && active != [] && Armed(Schedule(active, timers))
    requires forall i, j :: 0 <= i < j < |active| ==> active[i] != active[j]
    ensures timers[active[0]].time >= 1
    ensures var a := Schedule(active, timers);
            var timers' := timers[active[0] := timers[active[0]].(time := timers[active[0]].time - 1)];
            && InRange(active, timers')
            && Elapsed(active, timers', |active|) <= Elapsed(active, timers, |active|)
            && Firing(Ids(a)[..DueCount(a)], 0, Advance(a)[DueCount(a)..], timers, timers',
                      Schedule(active, timers'), [], avail, avail, tick)
  {
    hide Elapsed, Rearmed, FreedBy, Advance, Sorted, DueNow;
    var a := Schedule(active, timers);
    ElapsedStep(active, timers, 0);
    ElapsedStart(active, timers);
    var timers' := timers[active[0] := timers[active[0]].(time := timers[active[0]].time - 1)];
    CountedDown(active, timers, timers');
    ScheduleSorted(active, timers);
    SplitDue(a);
    var n := DueCount(a);
    var ids := Ids(a)[..n];
    assert ids[0..] == ids && ids[..0] == [];
    NoneYet(Advance(a)[n..], timers, tick, avail);
  }

  lemma NoneYet(rest: seq<Entry>, timers: seq<Timer>, tick: U32, avail: seq<nat>)
    ensures InRange([], timers) && Rearmed([], rest, timers, tick) == rest && FreedBy([], timers) + avail == avail
  {}

  /** The next timer to fire is at the head with no time left; when all have fired, the
      head has time left. */
  lemma FiringHead(active: seq<nat>, timers: seq<Timer>, ids: seq<nat>, i: nat, rest: seq<Entry>, timers0: seq<Timer>,
                   fired: seq<nat>, avail: seq<nat>, avail0: seq<nat>, tick: U32)
    requires InRange(active, timers)
    requires Firing(ids, i, rest, timers0, timers, Schedule(active, timers), fired, avail, avail0, tick)
    ensures i <= |ids| && (i < |ids| ==> active != [] && active[0] == ids[i] && timers[active[0]].time == 0)
    ensures i == |ids| && active != [] ==> timers[active[0]].time != 0
  {
    hide Rearmed, FreedBy, TickStores, Elapsed;
    RearmedLater(fired, rest, timers0, tick);
    var s := Schedule(active, timers);
    if i < |ids| {
      assert s[0] == DueNow(ids[i..])[0] == Entry(ids[i], 0);
    } else {
      assert s == Rearmed(fired, rest, timers0, tick);
    }
    if active != [] {
      ElapsedStart(active, timers);
      ElapsedStep(active, timers, 0);
    }
  }

  lemma FiringStep(ids: seq<nat>, i: nat, rest: seq<Entry>, timers0: seq<Timer>, before: seq<Timer>, timers: seq<Timer>,
                   pending0: seq<Entry>, pending: seq<Entry>, fired: seq<nat>,
                   avail1: seq<nat>, avail: seq<nat>, avail0: seq<nat>, tick: U32)
    requires Firing(ids, i, rest, timers0, before, pending0, fired, avail1, avail0, tick) && i < |ids|
    requires ids[i] < |before| && TickStores(before, timers, [ids[i]], tick)
    requires pending0 != []
    requires var t := before[ids[i]];
             if t.interval != 0 then
               pending == InsertDue(pending0[1..], Entry(ids[i], Period(t, tick))) && avail == avail1
             else pending == pending0[1..] && avail == [ids[i]] + avail1
    ensures Firing(ids, i + 1, rest, timers0, timers, pending, fired + [ids[i]], avail, avail0, tick)
  {
    hide Rearmed, FreedBy, Armed, InsertDue, DueNow;
    var x := ids[i];
    var fired' := fired + [x];
    assert fired' == ids[..i + 1] && fired'[..i] == fired && x !in fired;
    OneMoreRearmed(fired', i, rest, timers0, tick);
    var r := Rearmed(fired, rest, timers0, tick);
    OneLessDue(ids, i, r);
    if timers0[x].interval != 0 {
      InsertBehindDue(DueNow(ids[i + 1..]), r, Entry(x, Period(timers0[x], tick)));
    }
  }

  lemma OneLessDue(ids: seq<nat>, i: nat, r: seq<Entry>)
    requires i < |ids|
    ensures (DueNow(ids[i..]) + r)[1..] == DueNow(ids[i + 1..]) + r
    ensures var d := DueNow(ids[i + 1..]); forall k :: 0 <= k < |d| ==> d[k].due == 0
  {
    assert ids[i..][1..] == ids[i + 1..];
    assert DueNow(ids[i..])[1..] == DueNow(ids[i + 1..]);
  }

  lemma OneMoreRearmed(fired: seq<nat>, i: nat, rest: seq<Entry>, timers0: seq<Timer>, tick: U32)
    requires InRange(fired, timers0) && |fired| == i + 1
    ensures InRange(fired[..i], timers0)
    ensures var t := timers0[fired[i]];
            var r := Rearmed(fired[..i], rest, timers0, tick);
            && Rearmed(fired, rest, timers0, tick) == (if t.interval != 0 then InsertDue(r, Entry(fired[i], Period(t, tick))) else r)
            && FreedBy(fired, timers0) ==
                 (if t.interval == 0 then [fired[i]] + FreedBy(fired[..i], timers0) else FreedBy(fired[..i], timers0))
  {}

  lemma FiringEnd(ids: seq<nat>, rest: seq<Entry>, timers0: seq<Timer>, timers: seq<Timer>,
                  pending: seq<Entry>, fired: seq<nat>, avail: seq<nat>, avail0: seq<nat>, tick: U32)
    requires Firing(ids, |ids|, rest, timers0, timers, pending, fired, avail, avail0, tick)
    ensures fired == ids && InRange(fired, timers0) && pending == Rearmed(fired, rest, timers0, tick) && Armed(pending)
    ensures avail == FreedBy(fired, timers0) + avail0 && TickStores(timers0, timers, fired, tick)
  {
    hide Rearmed, FreedBy, TickStores;
    RearmedLater(fired, rest, timers0, tick);
    assert ids[|ids|..] == [];
    assert DueNow([]) + Rearmed(fired, rest, timers0, tick) == Rearmed(fired, rest, timers0, tick);
  }
}
