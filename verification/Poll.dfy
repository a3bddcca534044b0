/** poll(2): processes scanning descriptors, interrupts announcing events, and the flag that
    says an event came in between. Every action below runs at splhi, or touches nothing
    that an interrupt does. */
module PollSpec {
  import opened Common

  datatype Event = POLLIN | POLLPRI | POLLOUT | POLLRDNORM | POLLRDBAND | POLLWRBAND | POLLERR | POLLHUP

  /** A polldat on a pollhead's list: entry `slot` of the array of process `proc`. */
  datatype Reg = Reg(proc: nat, slot: nat, events: set<Event>)

  /** An element of the user's array: ignored (negative), no open file, or the file `obj`. */
  datatype PollFd = PollFd(fd: Fd, events: set<Event>)
  datatype Fd = Ignored | Bad | File(obj: nat)

  datatype Pc = Idle | Cleaning | Scanning(i: nat) | Scanned | Asleep | Woken | Leaving | Left

  /** The `timo` argument: negative, zero, or positive. */
  datatype Limit = Forever | AtOnce | Within

  /** A process and its poll call: sinpoll and spolltime are the p_pollflag bits, `cur` the
      number of polldats in use (curdat - darray), `armed` whether polltime is in the callout
      table. `php` lives on from one descriptor to the next. */
  datatype Proc = Proc(fds: seq<PollFd>, limit: Limit, pc: Pc, sinpoll: bool, spolltime: bool, armed: bool,
                       fdcnt: nat, cur: nat, php: Option<nat>, savehp: Option<nat>)

  /** Each file has a pollhead of its own, numbered like it; `heads` tells which hand it out
      (VOP_POLL of the others leaves the pointer NULL). */
  datatype State = State(ready: seq<set<Event>>, heads: seq<bool>, lists: seq<seq<Reg>>, procs: seq<Proc>)

  // --------------------------------------------------------------- the lists

  predicate On(lists: seq<seq<Reg>>, h: nat, r: Reg)
  {
    h < |lists| && r in lists[h]
  }

  predicate Matched(r: Reg, e: Event)
  {
    e == POLLHUP || e == POLLERR || e in r.events
  }

  function Off(list: seq<Reg>, procs: set<nat>): (r: seq<Reg>)
    ensures forall x :: x in r <==> x in list && x.proc !in procs
  {
    if list == [] then []
    else if list[0].proc in procs then Off(list[1..], procs)
    else [list[0]] + Off(list[1..], procs)
  }

  function OffAll(lists: seq<seq<Reg>>, procs: set<nat>): (r: seq<seq<Reg>>)
    ensures |r| == |lists|
    ensures forall h :: 0 <= h < |lists| ==> r[h] == Off(lists[h], procs)
  {
    seq(|lists|, h requires 0 <= h < |lists| => Off(lists[h], procs))
  }

  /** polladd */
  function Add(lists: seq<seq<Reg>>, h: nat, r: Reg): (s: seq<seq<Reg>>)
    requires h < |lists|
    ensures |s| == |lists|
  {
    lists[h := [r] + lists[h]]
  }

  /** polldel: if the polldat is on the list of `h`, all those of the same call go, from
      whatever lists they are on. */
  function Del(lists: seq<seq<Reg>>, h: nat, proc: nat, slot: nat): (s: seq<seq<Reg>>)
    ensures |s| == |lists|
  {
    if h < |lists| && exists r :: r in lists[h] && r.proc == proc && r.slot == slot then OffAll(lists, {proc}) else lists
  }

  /** The processes pollwakeup informs. */
  function Informed(list: seq<Reg>, e: Event): set<nat>
  {
    set r | r in list && Matched(r, e) :: r.proc
  }

  /** pollrun */
  function Run(p: Proc): Proc
  {
    p.(sinpoll := false, pc := if p.pc == Asleep then Woken else p.pc)
  }

  /** pollwakeup: the processes polling for `e` on `h` are run and taken off all lists. */
  function Wakeup(s: State, h: nat, e: Event): State
    requires h < |s.lists|
  {
    var who := Informed(s.lists[h], e);
    s.(lists := OffAll(s.lists, who),
       procs := seq(|s.procs|, p requires 0 <= p < |s.procs| => if p in who then Run(s.procs[p]) else s.procs[p]))
  }

  // ------------------------------------------------------------- the actions

  datatype Action =
    | Start(p: nat, fds: seq<PollFd>, limit: Limit) // the call, up to and including SINPOLL being set
    | Clean(p: nat)                                // polldel of the last iteration's polldats
    | ScanOne(p: nat, fails: bool)                 // one descriptor; `fails` when VOP_POLL does
    | EndScan(p: nat, expired: bool)               // fdcnt and the time left are looked at
    | CheckSleep(p: nat)                           // SINPOLL is looked at, then sleep
    | Signal(p: nat)                               // sleep says interrupted, woken already or not
    | Resume(p: nat)                               // back from sleep
    | Leave(p: nat)                                // p_pollflag = 0
    | Finish(p: nat)                               // polldel, and the array is freed
    | Arrive(obj: nat, e: Event)                   // an event, with its pollwakeup
    | Consume(obj: nat, e: Event)                  // what was ready is taken by someone
    | Fire(p: nat)                                 // polltime

  function Subject(a: Action): Option<nat>
  {
    match a
    case Arrive(_, _) => None
    case Consume(_, _) => None
    case _ => Some(a.p)
  }

  predicate Enabled(s: State, a: Action)
  {
    && (Subject(a).Some? ==> Subject(a).value < |s.procs|)
    && match a
       case Start(p, fds, _) =>
         s.procs[p].pc == Idle && forall k :: 0 <= k < |fds| && fds[k].fd.File? ==> fds[k].fd.obj < |s.lists|
       case Clean(p) => s.procs[p].pc == Cleaning
       case ScanOne(p, _) => s.procs[p].pc.Scanning? && s.procs[p].pc.i < |s.procs[p].fds|
       case EndScan(p, expired) =>
         && s.procs[p].pc == Scanning(|s.procs[p].fds|)
         && (s.procs[p].limit.Forever? ==> !expired) && (s.procs[p].limit.AtOnce? ==> expired)
       case CheckSleep(p) => s.procs[p].pc == Scanned
       case Signal(p) => s.procs[p].pc == Asleep || s.procs[p].pc == Woken
       case Resume(p) => s.procs[p].pc == Woken
       case Leave(p) => s.procs[p].pc == Leaving
       case Finish(p) => s.procs[p].pc == Left
       case Arrive(obj, _) => obj < |s.lists| && obj < |s.ready|
       case Consume(obj, _) => obj < |s.ready|
       case Fire(p) => s.procs[p].armed
  }

  function SetProc(s: State, p: nat, q: Proc): State
    requires p < |s.procs|
  {
    s.(procs := s.procs[p := q])
  }

  /** Back to `retry`. */
  function Retry(q: Proc): Proc
  {
    q.(sinpoll := true, spolltime := false, pc := Cleaning)
  }

  /** polldel(savehp, --curdat), if anything was registered. */
  function CleanUp(s: State, p: nat): seq<seq<Reg>>
    requires p < |s.procs|
  {
    var q := s.procs[p];
    if q.savehp.Some? && q.cur > 0 then Del(s.lists, q.savehp.value, p, q.cur - 1) else s.lists
  }

  const ALWAYS := {POLLERR, POLLHUP}

  /** What VOP_POLL reports. */
  function Revents(s: State, f: PollFd): set<Event>
  {
    if f.fd.File? && f.fd.obj < |s.ready| then s.ready[f.fd.obj] * (f.events + ALWAYS) else {}
  }

  /** The pollhead pointer after an element has been looked at: VOP_POLL sets it, to NULL when
      something is ready already or the file has none; an ignored element leaves it alone. */
  function NextPhp(s: State, q: Proc, f: PollFd): Option<nat>
  {
    match f.fd
    case Ignored => q.php
    case Bad => q.php
    case File(o) =>
      if q.fdcnt == 0 && Revents(s, f) == {} && o < |s.heads| && s.heads[o] then Some(o) else None
  }

  predicate Counts(s: State, f: PollFd)
  {
    f.fd == Bad || Revents(s, f) != {}
  }

  predicate Registers(s: State, q: Proc, f: PollFd)
  {
    !Counts(s, f) && q.fdcnt == 0 && NextPhp(s, q, f).Some? && NextPhp(s, q, f).value < |s.lists|
  }

  function ScanStep(s: State, p: nat): State
    requires p < |s.procs| && s.procs[p].pc.Scanning? && s.procs[p].pc.i < |s.procs[p].fds|
  {
    var q := s.procs[p];
    var f := q.fds[q.pc.i];
    var php := NextPhp(s, q, f);
    var q1 := q.(php := php, pc := Scanning(q.pc.i + 1), fdcnt := q.fdcnt + if Counts(s, f) then 1 else 0);
    if Registers(s, q, f) then
      SetProc(s, p, q1.(cur := q.cur + 1, savehp := php)).(lists := Add(s.lists, php.value, Reg(p, q.cur, f.events)))
    else SetProc(s, p, q1)
  }

  function Next(s: State, a: Action): State
    requires Enabled(s, a)
  {
    match a
    case Start(p, fds, limit) =>
      SetProc(s, p, Proc(fds, limit, Cleaning, true, false, false, 0, 0, None, None))
    case Clean(p) =>
      SetProc(s, p, s.procs[p].(pc := Scanning(0), cur := 0, php := None, savehp := None)).(lists := CleanUp(s, p))
    case ScanOne(p, fails) =>
      if fails && s.procs[p].fds[s.procs[p].pc.i].fd.File? then SetProc(s, p, s.procs[p].(pc := Leaving))
      else ScanStep(s, p)
    case EndScan(p, expired) =>
      SetProc(s, p, s.procs[p].(pc := if s.procs[p].fdcnt > 0 || expired then Leaving else Scanned))
    case CheckSleep(p) =>
      var q := s.procs[p];
      if !q.sinpoll then SetProc(s, p, Retry(q))
      else SetProc(s, p, q.(sinpoll := false, spolltime := q.limit.Within?, armed := q.limit.Within?, pc := Asleep))
    case Signal(p) => SetProc(s, p, s.procs[p].(armed := false, pc := Leaving))
    case Resume(p) =>
      var q := s.procs[p];
      if q.limit.Within? && !q.spolltime then SetProc(s, p, q.(pc := Leaving))
      else SetProc(s, p, Retry(q.(armed := false)))
    case Leave(p) => SetProc(s, p, s.procs[p].(sinpoll := false, spolltime := false, pc := Left))
    case Finish(p) => SetProc(s, p, s.procs[p].(pc := Idle, cur := 0, savehp := None)).(lists := CleanUp(s, p))
    case Arrive(obj, e) => Wakeup(s.(ready := s.ready[obj := s.ready[obj] + {e}]), obj, e)
    case Consume(obj, e) => s.(ready := s.ready[obj := s.ready[obj] - {e}])
    case Fire(p) =>
      var q := s.procs[p].(armed := false);
      SetProc(s, p, if q.pc == Asleep then q.(pc := Woken, spolltime := false) else q)
  }

  // ----------------------------------------------------------- the invariant

  /** Nothing asked for is ready on `f`, and an event there would find the process. */
  ghost predicate Watched(s: State, p: nat, f: PollFd)
  {
    f.fd.File? && f.fd.obj < |s.heads| && s.heads[f.fd.obj] ==>
      Revents(s, f) == {} && exists r :: On(s.lists, f.fd.obj, r) && r.proc == p && r.events == f.events
  }

  /** How far the scan has gone without finding anything. */
  function Covered(q: Proc): nat
  {
    match q.pc
    case Scanning(i) => if q.sinpoll && q.fdcnt == 0 && i <= |q.fds| then i else 0
    case Scanned => if q.sinpoll then |q.fds| else 0
    case Asleep => |q.fds|
    case _ => 0
  }

  ghost predicate Vigilant(s: State, p: nat)
    requires p < |s.procs|
  {
    forall k :: 0 <= k < Covered(s.procs[p]) ==> Watched(s, p, s.procs[p].fds[k])
  }

  /** Polldats on lists are ones in use; and unless the last one added is still on the list it
      was added to, there are none: what takes one off takes off all. */
  ghost predicate AllOrNone(s: State, p: nat)
    requires p < |s.procs|
  {
    var q := s.procs[p];
    forall h, r :: On(s.lists, h, r) && r.proc == p ==>
      && r.slot < q.cur && q.savehp.Some? && q.cur > 0
      && exists l :: On(s.lists, q.savehp.value, l) && l.proc == p && l.slot == q.cur - 1
  }

  predicate LocalOk(s: State, p: nat)
    requires p < |s.procs|
  {
    var q := s.procs[p];
    && (forall k :: 0 <= k < |q.fds| && q.fds[k].fd.File? ==> q.fds[k].fd.obj < |s.lists|)
    && (q.pc.Scanning? ==> q.pc.i <= |q.fds| && q.cur <= q.pc.i)
    && (q.pc in {Scanned, Asleep, Woken} ==> q.fdcnt == 0)
    && (q.pc == Asleep && q.limit.Within? ==> q.armed && q.spolltime)
    && (q.armed ==> q.limit.Within? && (q.pc == Asleep || (q.pc == Woken && q.spolltime)))
    && (q.pc == Cleaning ==> q.fdcnt == 0)
    && q.cur <= |q.fds|
    && (q.pc == Idle ==> q.cur == 0)
  }

  ghost predicate Good(s: State, p: nat)
    requires p < |s.procs|
  {
    Vigilant(s, p) && AllOrNone(s, p) && LocalOk(s, p)
  }

  ghost predicate Inv(s: State)
  {
    && |s.ready| == |s.heads| == |s.lists|
    && (forall h, r :: On(s.lists, h, r) ==> r.proc < |s.procs|)
    && (forall p :: 0 <= p < |s.procs| ==> Good(s, p))
  }

  // ------------------------------------------------- every step keeps it

  /** What another process's actions leave alone. */
  ghost predicate Same(s: State, s': State, o: nat)
  {
    && o < |s.procs| == |s'.procs| && s'.procs[o] == s.procs[o]
    && s'.ready == s.ready && s'.heads == s.heads && |s'.lists| == |s.lists|
    && forall h, r: Reg :: r.proc == o ==> (On(s'.lists, h, r) <==> On(s.lists, h, r))
  }

  lemma SameKeepsGood(s: State, s': State, o: nat)
    requires Same(s, s', o) && Good(s, o)
    ensures Good(s', o)
  {
    var q := s.procs[o];
    forall k | 0 <= k < Covered(q) ensures Watched(s', o, q.fds[k]) {
      assert Watched(s, o, q.fds[k]);
    }
    forall h, r | On(s'.lists, h, r) && r.proc == o
      ensures exists l :: On(s'.lists, q.savehp.value, l) && l.proc == o && l.slot == q.cur - 1
    {
      assert On(s.lists, h, r);
    }
  }

  /** After the cleanup nothing of the process is left on any list, and nothing else is gone. */
  lemma CleanUpCleans(s: State, p: nat)
    requires p < |s.procs| && AllOrNone(s, p)
    ensures forall h, r :: On(CleanUp(s, p), h, r) <==> On(s.lists, h, r) && r.proc != p
    ensures |CleanUp(s, p)| == |s.lists|
  {
    var q := s.procs[p];
    if h, r :| On(s.lists, h, r) && r.proc == p {
      var l :| On(s.lists, q.savehp.value, l) && l.proc == p && l.slot == q.cur - 1;
    }
  }

  lemma CleanStep(s: State, p: nat, q: Proc)
    requires Inv(s) && p < |s.procs| && q.cur == 0 && (q.pc == Scanning(0) || q.pc == Idle) && q.fds == s.procs[p].fds
    requires q.fdcnt == s.procs[p].fdcnt && q.armed == s.procs[p].armed && s.procs[p].pc != Asleep && s.procs[p].pc != Woken
    ensures Inv(SetProc(s, p, q).(lists := CleanUp(s, p)))
  {
    hide CleanUp;
    var s' := SetProc(s, p, q).(lists := CleanUp(s, p));
    assert Good(s, p);
    CleanUpCleans(s, p);
    forall o | 0 <= o < |s.procs| ensures Good(s', o) {
      if o != p {
        assert Good(s, o);
        SameKeepsGood(s, s', o);
      }
    }
  }

  /** A change to one process's own fields. */
  lemma OwnStep(s: State, p: nat, q: Proc)
    requires Inv(s) && p < |s.procs|
    requires Good(SetProc(s, p, q), p)
    ensures Inv(SetProc(s, p, q))
  {
    hide Good;
    var s' := SetProc(s, p, q);
    forall o | 0 <= o < |s.procs| ensures Good(s', o) {
      if o != p {
        assert Good(s, o);
        SameKeepsGood(s, s', o);
      }
    }
  }

  lemma AddsOne(lists: seq<seq<Reg>>, h: nat, n: Reg)
    requires h < |lists|
    ensures forall g, r :: On(Add(lists, h, n), g, r) <==> On(lists, g, r) || (g == h && r == n)
  {}

  lemma ScanKeepsInv(s: State, p: nat)
    requires Inv(s) && p < |s.procs| && s.procs[p].pc.Scanning? && s.procs[p].pc.i < |s.procs[p].fds|
    ensures Inv(ScanStep(s, p))
  {
    hide Good, ScanStep;
    var s' := ScanStep(s, p);
    assert Good(s, p);
    ScanFrame(s, p);
    ScanOwn(s, p);
    forall o | 0 <= o < |s.procs| ensures Good(s', o) {
      if o != p {
        assert Good(s, o);
        SameKeepsGood(s, s', o);
      }
    }
  }

  lemma ScanFrame(s: State, p: nat)
    requires Inv(s) && p < |s.procs| && s.procs[p].pc.Scanning? && s.procs[p].pc.i < |s.procs[p].fds|
    ensures var s' := ScanStep(s, p);
            && |s'.ready| == |s'.heads| == |s'.lists| && |s'.procs| == |s.procs|
            && (forall h, r :: On(s'.lists, h, r) ==> r.proc < |s'.procs|)
            && forall o :: 0 <= o < |s.procs| && o != p ==> Same(s, s', o)
  {
    hide Good, Add;
    var q := s.procs[p];
    var f := q.fds[q.pc.i];
    var php := NextPhp(s, q, f);
    if Registers(s, q, f) {
      AddsOne(s.lists, php.value, Reg(p, q.cur, f.events));
    }
  }

  lemma ScanOwn(s: State, p: nat)
    requires Inv(s) && p < |s.procs| && s.procs[p].pc.Scanning? && s.procs[p].pc.i < |s.procs[p].fds|
    ensures Good(ScanStep(s, p), p)
  {
    hide Add, Revents;
    assert Good(s, p);
    var q := s.procs[p];
    var f := q.fds[q.pc.i];
    var php := NextPhp(s, q, f);
    var s' := ScanStep(s, p);
    var n := Reg(p, q.cur, f.events);
    if Registers(s, q, f) {
      AddsOne(s.lists, php.value, n);
      assert On(s'.lists, php.value, n);
    }
    assert s'.ready == s.ready && s'.heads == s.heads;
    ReadySame(s, s');
    forall k | 0 <= k < Covered(s'.procs[p]) ensures Watched(s', p, q.fds[k]) {
      if k < q.pc.i {
        assert Watched(s, p, q.fds[k]);
      }
    }
    forall h, r | On(s'.lists, h, r) && r.proc == p
      ensures r.slot < s'.procs[p].cur && s'.procs[p].savehp.Some?
      ensures exists l :: On(s'.lists, s'.procs[p].savehp.value, l) && l.proc == p && l.slot == s'.procs[p].cur - 1
    {
      if !Registers(s, q, f) { assert On(s.lists, h, r); }
    }
  }

  lemma ReadySame(s: State, s': State)
    requires s'.ready == s.ready
    ensures forall f :: Revents(s', f) == Revents(s, f)
  {}

  lemma ArriveKeepsInv(s: State, obj: nat, e: Event)
    requires Inv(s) && obj < |s.lists|
    ensures Inv(Wakeup(s.(ready := s.ready[obj := s.ready[obj] + {e}]), obj, e))
  {
    var s1 := s.(ready := s.ready[obj := s.ready[obj] + {e}]);
    var s' := Wakeup(s1, obj, e);
    var who := Informed(s.lists[obj], e);
    forall h, r | On(s'.lists, h, r) ensures r.proc < |s.procs| {
      assert On(s.lists, h, r);
    }
    forall o | 0 <= o < |s.procs| ensures Good(s', o) {
      assert Good(s, o);
      if o in who {
        assert forall h, r :: On(s'.lists, h, r) ==> r.proc != o;
        assert Covered(s'.procs[o]) == 0;
      } else {
        ArriveUnseen(s, s', obj, e, o);
      }
    }
  }

  /** An event that no polldat of process `o` asked for. */
  lemma ArriveUnseen(s: State, s': State, obj: nat, e: Event, o: nat)
    requires Inv(s) && obj < |s.lists| && o < |s.procs| && o !in Informed(s.lists[obj], e)
    requires s' == Wakeup(s.(ready := s.ready[obj := s.ready[obj] + {e}]), obj, e)
    ensures Good(s', o)
  {
    hide OffAll;
    assert Good(s, o);
    var q := s.procs[o];
    assert s'.procs[o] == q;
    forall h, r: Reg | r.proc == o ensures On(s'.lists, h, r) <==> On(s.lists, h, r) {}
    forall k | 0 <= k < Covered(q) ensures Watched(s', o, q.fds[k]) {
      var f := q.fds[k];
      assert Watched(s, o, f);
      if f.fd.File? && f.fd.obj < |s.heads| && s.heads[f.fd.obj] {
        var r :| On(s.lists, f.fd.obj, r) && r.proc == o && r.events == f.events;
        assert On(s'.lists, f.fd.obj, r);
        if f.fd.obj == obj { assert !Matched(r, e); }
      }
    }
    forall h, r | On(s'.lists, h, r) && r.proc == o
      ensures exists l :: On(s'.lists, q.savehp.value, l) && l.proc == o && l.slot == q.cur - 1
    {
      assert On(s.lists, h, r);
    }
  }

  lemma ConsumeKeepsInv(s: State, obj: nat, e: Event)
    requires Inv(s) && obj < |s.ready|
    ensures Inv(s.(ready := s.ready[obj := s.ready[obj] - {e}]))
  {
    var s' := s.(ready := s.ready[obj := s.ready[obj] - {e}]);
    forall o | 0 <= o < |s.procs| ensures Good(s', o) {
      assert Good(s, o);
      var q := s.procs[o];
      forall k | 0 <= k < Covered(q) ensures Watched(s', o, q.fds[k]) {
        assert Watched(s, o, q.fds[k]);
      }
    }
  }

  lemma StartKeepsInv(s: State, p: nat, fds: seq<PollFd>, limit: Limit)
    requires Inv(s) && Enabled(s, Start(p, fds, limit))
    ensures Inv(Next(s, Start(p, fds, limit)))
  {
    assert Good(s, p);
    OwnStep(s, p, Proc(fds, limit, Cleaning, true, false, false, 0, 0, None, None));
  }

  lemma StepKeepsInv(s: State, a: Action)
    requires Inv(s) && Enabled(s, a)
    ensures Inv(Next(s, a))
  {
    hide Inv, CleanUp, ScanStep, Wakeup;
    match a
    case Start(p, fds, limit) => StartKeepsInv(s, p, fds, limit);
    case Clean(p) =>
      CleanStep(s, p, s.procs[p].(pc := Scanning(0), cur := 0, php := None, savehp := None));
    case ScanOne(p, fails) =>
      if fails && s.procs[p].fds[s.procs[p].pc.i].fd.File? { LocalStep(s, a, p); } else { ScanKeepsInv(s, p); }
    case Finish(p) =>
      CleanStep(s, p, s.procs[p].(pc := Idle, cur := 0, savehp := None));
    case Arrive(obj, e) =>
      Sizes(s);
      ArriveKeepsInv(s, obj, e);
    case Consume(obj, e) => ConsumeKeepsInv(s, obj, e);
    case _ => LocalStep(s, a, a.p);
  }

  lemma Sizes(s: State)
    requires Inv(s)
    ensures |s.ready| == |s.heads| == |s.lists|
  {}

  /** The actions that touch nothing but the process's own fields. */
  lemma LocalStep(s: State, a: Action, p: nat)
    requires Inv(s) && Enabled(s, a) && Subject(a) == Some(p)
    requires a.ScanOne? ==> a.fails && s.procs[p].fds[s.procs[p].pc.i].fd.File?
    requires !a.Start? && !a.Clean? && !a.Finish?
    ensures Inv(Next(s, a))
  {
    assert Good(s, p);
    var s' := Next(s, a);
    var q := s'.procs[p];
    assert s' == SetProc(s, p, q);
    LocalGood(s, p, q);
    OwnStep(s, p, q);
  }

  lemma LocalGood(s: State, p: nat, q: Proc)
    requires p < |s.procs| && Good(s, p)
    requires q.fds == s.procs[p].fds && q.cur == s.procs[p].cur && q.savehp == s.procs[p].savehp
    requires Covered(q) <= Covered(s.procs[p]) && LocalOk(SetProc(s, p, q), p)
    ensures Good(SetProc(s, p, q), p)
  {
    var s' := SetProc(s, p, q);
    forall k | 0 <= k < Covered(q) ensures Watched(s', p, q.fds[k]) {
      assert Watched(s, p, q.fds[k]);
    }
  }

  // ------------------------------------------------------------ whole runs

  /** `n` processes, none of them in poll, and no polldat on any list. */
  predicate Initial(s: State)
  {
    && |s.ready| == |s.heads| == |s.lists|
    && (forall h :: 0 <= h < |s.lists| ==> s.lists[h] == [])
    && (forall p :: 0 <= p < |s.procs| ==>
          var q := s.procs[p];
          q.pc == Idle && q.cur == 0 && q.fds == [] && q.fdcnt == 0 && !q.armed)
  }

  /** The states reached by the actions `as`, while each of them is possible. */
  function Reached(s: State, as_: seq<Action>): Option<State>
  {
    if as_ == [] then Some(s)
    else
      var n := |as_| - 1;
      match Reached(s, as_[..n])
      case None => None
      case Some(t) => if Enabled(t, as_[n]) then Some(Next(t, as_[n])) else None
  }

  lemma {:induction false} ReachedKeepsInv(s: State, as_: seq<Action>)
    requires Initial(s) && Reached(s, as_).Some?
    ensures Inv(Reached(s, as_).value)
  {
    if as_ == [] {
      forall p | 0 <= p < |s.procs| ensures Good(s, p) {}
    } else {
      var n := |as_| - 1;
      ReachedKeepsInv(s, as_[..n]);
      StepKeepsInv(Reached(s, as_[..n]).value, as_[n]);
    }
  }

  /** No wakeup is lost: in no run is a process asleep while a descriptor of its array, on a
      file with a pollhead, has anything ready that it asked for (or an error or hangup). */
  lemma NeverAsleepOnReady(s: State, as_: seq<Action>, p: nat, k: nat)
    requires Initial(s) && Reached(s, as_).Some?
    requires var t := Reached(s, as_).value;
      && p < |t.procs| && t.procs[p].pc == Asleep && k < |t.procs[p].fds|
      && t.procs[p].fds[k].fd.File? && t.procs[p].fds[k].fd.obj < |t.heads| && t.heads[t.procs[p].fds[k].fd.obj]
    ensures var t := Reached(s, as_).value;
            var f := t.procs[p].fds[k];
            f.fd.obj < |t.ready| && t.ready[f.fd.obj] * (f.events + ALWAYS) == {}
  {
    ReachedKeepsInv(s, as_);
    var t := Reached(s, as_).value;
    assert Good(t, p);
    assert Watched(t, p, t.procs[p].fds[k]);
  }

  /** An event a sleeper asked for wakes it; one that comes after its descriptor was looked at
      and before the sleep clears SINPOLL, so that the scan is done again instead. */
  lemma EventIsSeen(s: State, p: nat, k: nat, e: Event)
    requires Inv(s) && p < |s.procs| && k < Covered(s.procs[p])
    requires var f := s.procs[p].fds[k];
             f.fd.File? && f.fd.obj < |s.heads| && s.heads[f.fd.obj] && e in f.events + ALWAYS
    ensures var t := Next(s, Arrive(s.procs[p].fds[k].fd.obj, e));
            && !t.procs[p].sinpoll && t.procs[p].pc != Asleep
            && (s.procs[p].pc == Asleep ==> t.procs[p].pc == Woken)
            && (s.procs[p].pc == Scanned ==> Next(t, CheckSleep(p)).procs[p].pc == Cleaning)
  {
    assert Good(s, p);
    var f := s.procs[p].fds[k];
    assert Watched(s, p, f);
    var r :| On(s.lists, f.fd.obj, r) && r.proc == p && r.events == f.events;
    assert r.proc in Informed(s.lists[f.fd.obj], e);
  }

  /** Outside poll a process has no polldat on any list: none outlives the array it is in. */
  lemma NoneLeftBehind(s: State, as_: seq<Action>, p: nat, h: nat, r: Reg)
    requires Initial(s) && Reached(s, as_).Some?
    requires var t := Reached(s, as_).value; p < |t.procs| && t.procs[p].pc == Idle && On(t.lists, h, r)
    ensures r.proc != p
  {
    ReachedKeepsInv(s, as_);
    var t := Reached(s, as_).value;
    assert Good(t, p);
    assert t.procs[p].cur == 0;
  }

  /** A sleep with a time limit always has polltime coming, and polltime ends it. */
  lemma TimedSleepEnds(s: State, as_: seq<Action>, p: nat)
    requires Initial(s) && Reached(s, as_).Some?
    requires var t := Reached(s, as_).value; p < |t.procs| && t.procs[p].pc == Asleep && t.procs[p].limit.Within?
    ensures var t := Reached(s, as_).value;
            && Enabled(t, Fire(p))
            && Next(t, Fire(p)).procs[p].pc == Woken
            && Next(Next(t, Fire(p)), Resume(p)).procs[p].pc == Leaving
  {
    hide Wakeup, CleanUp, ScanStep, Reached, Vigilant, AllOrNone;
    ReachedKeepsInv(s, as_);
    assert Good(Reached(s, as_).value, p);
  }

  /** A process that is woken while its time is not up, or has no limit, looks at all its descriptors
      again, with SINPOLL on before it looks at the first. */
  lemma WokenLooksAgain(s: State, as_: seq<Action>, p: nat)
    requires Initial(s) && Reached(s, as_).Some?
    requires var t := Reached(s, as_).value; p < |t.procs| && t.procs[p].pc == Woken
    ensures var t := Reached(s, as_).value;
            var q := t.procs[p];
            Enabled(t, Resume(p)) &&
            var u := Next(t, Resume(p));
            && (!q.limit.Within? || q.spolltime ==>
                  && u.procs[p] == q.(pc := Cleaning, sinpoll := true, spolltime := false, armed := false, fdcnt := 0)
                  && Next(u, Clean(p)).procs[p] == u.procs[p].(pc := Scanning(0), cur := 0, php := None, savehp := None))
            && (q.limit.Within? && !q.spolltime ==> u.procs[p] == q.(pc := Leaving))
            && u == t.(procs := t.procs[p := u.procs[p]])
  {
    hide CleanUp, Reached, Vigilant, AllOrNone;
    ReachedKeepsInv(s, as_);
    assert Good(Reached(s, as_).value, p);
  }

  /** What ends a call that has found nothing: a signal, a VOP_POLL that fails, and time that is up,
      either before the process sleeps or by polltime while it does. */
  predicate Gives(q: Proc, a: Action, p: nat)
  {
    q.fdcnt == 0 &&
    match a
    case Signal(x) => x == p
    case ScanOne(x, fails) => x == p && fails && q.pc.Scanning? && q.pc.i < |q.fds| && q.fds[q.pc.i].fd.File?
    case EndScan(x, expired) => x == p && expired && !q.limit.Forever?
    case Resume(x) => x == p && q.limit.Within? && !q.spolltime
    case _ => false
  }

  /** Nothing else does, in any state of any run. */
  lemma GivesUpIff(s: State, a: Action, p: nat)
    requires Inv(s) && Enabled(s, a) && p < |s.procs|
    ensures var q, t := s.procs[p], Next(s, a).procs;
            && |t| == |s.procs|
            && (q.pc != Leaving && t[p].pc == Leaving && t[p].fdcnt == 0 <==> Gives(q, a, p))
            && (t[p].pc == Left && q.pc != Left ==> q.pc == Leaving && t[p].fdcnt == q.fdcnt)
            && (t[p].pc == q.pc && (q.pc == Leaving || q.pc == Left) ==> t[p].fdcnt == q.fdcnt)
  {
    hide Vigilant, AllOrNone;
    assert Good(s, p);
  }

  /** polltime is pending only for a sleeper with a limit, or one woken before the limit, and only it
      ends the time of a sleeper. */
  lemma OnlyPolltime(s: State, a: Action, p: nat)
    requires Inv(s) && Enabled(s, a) && p < |s.procs|
    ensures var q, t := s.procs[p], Next(s, a).procs;
            && |t| == |s.procs|
            && (t[p].pc == Woken && t[p].limit.Within? && !t[p].spolltime && !(q.pc == Woken && !q.spolltime)
                <==> a == Fire(p) && q.pc == Asleep)
            && (a == Fire(p) ==> q.limit.Within? && (q.pc == Asleep || q.pc == Woken))
  {
    hide Vigilant, AllOrNone;
    assert Good(s, p);
  }

  /** poll answers 0 only when one of these things happened to the call. */
  lemma {:induction false} WhyNothing(s: State, as_: seq<Action>, p: nat)
    requires Initial(s) && Reached(s, as_).Some?
    requires var t := Reached(s, as_).value;
             p < |t.procs| && (t.procs[p].pc == Leaving || t.procs[p].pc == Left) && t.procs[p].fdcnt == 0
    ensures exists n :: 0 <= n < |as_| && Gave(s, as_, n, p)
  {
    var n := |as_| - 1;
    var u := Reached(s, as_[..n]).value;
    ReachedKeepsInv(s, as_[..n]);
    var q := u.procs[p];
    GivesUpIff(u, as_[n], p);
    if Gives(q, as_[n], p) {
      assert Gave(s, as_, n, p);
    } else {
      WhyNothing(s, as_[..n], p);
      var m :| 0 <= m < n && Gave(s, as_[..n], m, p);
      assert as_[..n][..m] == as_[..m];
      assert Gave(s, as_, m, p);
    }
  }

  predicate Gave(s: State, as_: seq<Action>, n: nat, p: nat)
    requires n < |as_|
  {
    var u := Reached(s, as_[..n]);
    u.Some? && p < |u.value.procs| && Gives(u.value.procs[p], as_[n], p)
  }

  /** The count rises by one for each element that is no open file, or has something ready that was
      asked for or that is always reported, and for no other reason. */
  lemma CountRises(s: State, a: Action, p: nat)
    requires Inv(s) && Enabled(s, a) && p < |s.procs|
    ensures var q, t := s.procs[p], Next(s, a).procs;
            && |t| == |s.procs|
            && (t[p].fdcnt > q.fdcnt ==> t[p].fdcnt == q.fdcnt + 1)
            && (t[p].fdcnt > q.fdcnt <==>
                  && (a == ScanOne(p, false) || (a == ScanOne(p, true) && !q.fds[q.pc.i].fd.File?))
                  && var f := q.fds[q.pc.i];
                     f.fd == Bad || (f.fd.File? && f.fd.obj < |s.ready| && exists e :: e in s.ready[f.fd.obj] && (e in f.events || e == POLLERR || e == POLLHUP)))
            && (t[p].fdcnt < q.fdcnt ==> a.Start?)
  {
    hide Vigilant, AllOrNone, Revents;
    assert Good(s, p);
    if a.ScanOne? && a.p == p { SomeReady(s, s.procs[p].fds[s.procs[p].pc.i]); }
  }

  lemma SomeReady(s: State, f: PollFd)
    ensures Revents(s, f) != {} <==>
              f.fd.File? && f.fd.obj < |s.ready| && exists e :: e in s.ready[f.fd.obj] && (e in f.events || e == POLLERR || e == POLLHUP)
  {
    if Revents(s, f) != {} {
      var e :| e in Revents(s, f);
      assert e in s.ready[f.fd.obj];
    } else if f.fd.File? && f.fd.obj < |s.ready| {
      assert forall e :: e in s.ready[f.fd.obj] && e in f.events + ALWAYS ==> e in Revents(s, f);
    }
  }

  /** An ignored element is registered after all, with its events, on the list of a file looked
      at before it: exactly when nothing is ready yet and the pointer left from there is not
      NULL. The process is then woken by events of that file it did not ask for. */
  lemma IgnoredRegistersIff(s: State, p: nat)
    requires Inv(s) && p < |s.procs| && s.procs[p].pc.Scanning? && s.procs[p].pc.i < |s.procs[p].fds|
    requires s.procs[p].fds[s.procs[p].pc.i].fd == Ignored
    ensures var q := s.procs[p];
            var f := q.fds[q.pc.i];
            (exists h :: 0 <= h < |s.lists| && On(ScanStep(s, p).lists, h, Reg(p, q.cur, f.events)))
            <==> q.fdcnt == 0 && q.php.Some? && q.php.value < |s.lists|
  {
    var q := s.procs[p];
    var f := q.fds[q.pc.i];
    var n := Reg(p, q.cur, f.events);
    assert Good(s, p);
    assert forall h, r :: On(s.lists, h, r) && r.proc == p ==> r.slot < q.cur;
    if Registers(s, q, f) {
      AddsOne(s.lists, q.php.value, n);
      assert On(ScanStep(s, p).lists, q.php.value, n);
    }
  }

  /** An open file is registered, with what was asked for, exactly when nothing is ready yet, on it or on a
      file before it, and it has a pollhead; then on that, and nothing else is registered for it. An
      element that is no open file is not registered. */
  lemma FileRegistersIff(s: State, p: nat)
    requires Inv(s) && p < |s.procs| && s.procs[p].pc.Scanning? && s.procs[p].pc.i < |s.procs[p].fds|
    requires s.procs[p].fds[s.procs[p].pc.i].fd != Ignored
    ensures var q, lists := s.procs[p], ScanStep(s, p).lists;
            var f := q.fds[q.pc.i];
            if f.fd.File? && f.fd.obj < |s.heads| && s.heads[f.fd.obj] && q.fdcnt == 0 && Revents(s, f) == {} then
              && f.fd.obj < |s.lists| && lists == s.lists[f.fd.obj := [Reg(p, q.cur, f.events)] + s.lists[f.fd.obj]]
              && ScanStep(s, p).procs[p].cur == q.cur + 1 && ScanStep(s, p).procs[p].savehp == Some(f.fd.obj)
            else lists == s.lists && ScanStep(s, p).procs[p].cur == q.cur && ScanStep(s, p).procs[p].savehp == q.savehp
  {
    hide Vigilant, AllOrNone;
    assert Good(s, p);
  }

  lemma Onward(s: State, as_: seq<Action>, t: State, a: Action, u: State)
    requires Reached(s, as_) == Some(t) && Enabled(t, a) && u == Next(t, a)
    ensures Reached(s, as_ + [a]) == Some(u)
  {
    assert (as_ + [a])[..|as_|] == as_;
  }

  lemma Unmoved(s: State)
    ensures Reached(s, []) == Some(s)
  {}

  /** A machine of one file and one process, which polls the file for POLLIN and has a second
      element, for POLLOUT, that is to be ignored. */
  const POLLED := [PollFd(File(0), {POLLIN}), PollFd(Ignored, {POLLOUT})]
  const FIRST := Reg(0, 0, {POLLIN})
  const SECOND := Reg(0, 1, {POLLOUT})

  function OneFile(list: seq<Reg>, q: Proc): State
  {
    State([{}], [true], [list], [q])
  }

  function Polling(pc: Pc, cur: nat): Proc
  {
    var php := if cur == 0 then None else Some(0);
    Proc(POLLED, Forever, pc, pc != Asleep, false, false, 0, cur, php, php)
  }

  lemma OneFileSteps(list: seq<Reg>, q: Proc, q': Proc, r: Reg)
    ensures SetProc(OneFile(list, q), 0, q') == OneFile(list, q')
    ensures SetProc(OneFile(list, q), 0, q').(lists := [list]) == OneFile(list, q')
    ensures SetProc(OneFile(list, q), 0, q').(lists := Add([list], 0, r)) == OneFile([r] + list, q')
  {}

  lemma ExampleScan()
    ensures ScanStep(OneFile([], Polling(Scanning(0), 0)), 0) == OneFile([FIRST], Polling(Scanning(1), 1))
    ensures ScanStep(OneFile([FIRST], Polling(Scanning(1), 1)), 0) == OneFile([SECOND, FIRST], Polling(Scanning(2), 2))
  {
    hide SetProc, Add;
    OneFileSteps([], Polling(Scanning(0), 0), Polling(Scanning(1), 1), FIRST);
    assert Revents(OneFile([], Polling(Scanning(0), 0)), POLLED[0]) == {};
    OneFileSteps([FIRST], Polling(Scanning(1), 1), Polling(Scanning(2), 2), SECOND);
    assert [SECOND] + [FIRST] == [SECOND, FIRST] && [FIRST] + [] == [FIRST];
  }

  /** The process before its call. */
  const CALLER := OneFile([], Polling(Idle, 0).(fds := [], sinpoll := false))

  lemma ExampleStart()
    ensures Initial(CALLER)
    ensures Reached(CALLER, [Start(0, POLLED, Forever), Clean(0)]) == Some(OneFile([], Polling(Scanning(0), 0)))
  {
    hide Reached, SetProc;
    var q := Polling(Cleaning, 0);
    var a := [Start(0, POLLED, Forever)];
    Unmoved(CALLER);
    OneFileSteps([], CALLER.procs[0], q, FIRST);
    Onward(CALLER, [], CALLER, a[0], OneFile([], q));
    assert [] + a == a && a + [Clean(0)] == [Start(0, POLLED, Forever), Clean(0)];
    OneFileSteps([], q, Polling(Scanning(0), 0), FIRST);
    Onward(CALLER, a, OneFile([], q), Clean(0), OneFile([], Polling(Scanning(0), 0)));
  }

  lemma ExampleSleep()
    requires var a := [Start(0, POLLED, Forever), Clean(0), ScanOne(0, false), ScanOne(0, false)];
             Reached(CALLER, a) == Some(OneFile([SECOND, FIRST], Polling(Scanning(2), 2)))
    ensures var a := [Start(0, POLLED, Forever), Clean(0), ScanOne(0, false), ScanOne(0, false), EndScan(0, false), CheckSleep(0)];
            Reached(CALLER, a) == Some(OneFile([SECOND, FIRST], Polling(Asleep, 2)))
  {
    hide Reached, SetProc;
    var list := [SECOND, FIRST];
    var a := [Start(0, POLLED, Forever), Clean(0), ScanOne(0, false), ScanOne(0, false)];
    OneFileSteps(list, Polling(Scanning(2), 2), Polling(Scanned, 2), FIRST);
    Onward(CALLER, a, OneFile(list, Polling(Scanning(2), 2)), EndScan(0, false), OneFile(list, Polling(Scanned, 2)));
    OneFileSteps(list, Polling(Scanned, 2), Polling(Asleep, 2), FIRST);
    Onward(CALLER, a + [EndScan(0, false)], OneFile(list, Polling(Scanned, 2)), CheckSleep(0), OneFile(list, Polling(Asleep, 2)));
    assert a + [EndScan(0, false)] + [CheckSleep(0)] ==
           [Start(0, POLLED, Forever), Clean(0), ScanOne(0, false), ScanOne(0, false), EndScan(0, false), CheckSleep(0)];
  }

  /** Both elements are registered with the file, and the arrival of POLLOUT ends the sleep. */
  lemma IgnoredExample()
    ensures var as_ := [Start(0, POLLED, Forever), Clean(0), ScanOne(0, false), ScanOne(0, false),
                        EndScan(0, false), CheckSleep(0)];
            Initial(CALLER) && Reached(CALLER, as_) == Some(OneFile([SECOND, FIRST], Polling(Asleep, 2)))
    ensures Wakeup(OneFile([SECOND, FIRST], Polling(Asleep, 2)), 0, POLLOUT).procs[0].pc == Woken
  {
    hide Reached, ScanStep, SetProc, Initial;
    ExampleStart();
    ExampleScan();
    var a, b := [Start(0, POLLED, Forever), Clean(0)], [ScanOne(0, false)];
    Onward(CALLER, a, OneFile([], Polling(Scanning(0), 0)), b[0], OneFile([FIRST], Polling(Scanning(1), 1)));
    Onward(CALLER, a + b, OneFile([FIRST], Polling(Scanning(1), 1)), b[0], OneFile([SECOND, FIRST], Polling(Scanning(2), 2)));
    assert a + b + b == [Start(0, POLLED, Forever), Clean(0), ScanOne(0, false), ScanOne(0, false)];
    ExampleSleep();
    assert SECOND in [SECOND, FIRST] && 0 in Informed([SECOND, FIRST], POLLOUT);
  }
}

/** The lists themselves: pollheads and polldats linked both ways, and the polldats of one call
    chained in a ring. Nodes 0..heads are pollheads; NULL is -1. */
module PollLists {
  import opened Common
  import opened PollSpec
  import opened Rings

  const NULL := -1

  function NextOf(l: seq<nat>, i: nat): int
  {
    if i < |l| then l[i] else NULL
  }

  /** The list of pollhead `h`: ph_list is the head's own next pointer, and the first polldat
      points back at the head. */
  ghost predicate IsList(h: nat, l: seq<nat>, next: seq<int>, prev: seq<int>)
  {
    && h < |next| == |prev| && h !in l
    && (forall i :: 0 <= i < |l| ==> l[i] < |next|)
    && (forall i, j :: 0 <= i < j < |l| ==> l[i] != l[j])
    && next[h] == NextOf(l, 0)
    && (forall i :: 0 <= i < |l| ==> next[l[i]] == NextOf(l, i + 1))
    && (forall i :: 0 <= i < |l| ==> prev[l[i]] == Before(h, l, i))
  }

  lemma ListAt(h: nat, l: seq<nat>, next: seq<int>, prev: seq<int>, i: nat)
    requires IsList(h, l, next, prev) && i <= |l|
    ensures h < |next| == |prev| && h !in l && next[h] == NextOf(l, 0)
    ensures i < |l| ==> l[i] < |next| && next[l[i]] == NextOf(l, i + 1) && prev[l[i]] == Before(h, l, i)
    ensures i > 0 ==> l[i - 1] < |next| && next[l[i - 1]] == NextOf(l, i)
    ensures i + 1 < |l| ==> l[i + 1] < |next|
    ensures forall j, k :: 0 <= j < k < |l| ==> l[j] != l[k]
  {}

  lemma ListPrepend(h: nat, l: seq<nat>, next: seq<int>, prev: seq<int>, d: nat)
    requires IsList(h, l, next, prev) && d < |next| && d != h && d !in l
    ensures h < |next| == |prev| && (l != [] ==> l[0] < |prev|)
    ensures var p := if l == [] then prev else prev[l[0] := d];
            IsList(h, [d] + l, next[d := NextOf(l, 0)][h := d], p[d := h])
  {
    hide IsList;
    ListAt(h, l, next, prev, 0);
    var e := [d] + l;
    var p := if l == [] then prev else prev[l[0] := d];
    var next', prev' := next[d := NextOf(l, 0)][h := d], p[d := h];
    forall j | 0 <= j < |e| ensures e[j] < |next'| && next'[e[j]] == NextOf(e, j + 1) && prev'[e[j]] == Before(h, e, j) {
      if j > 0 {
        assert e[j] == l[j - 1] && l[j - 1] in l;
        ListAt(h, l, next, prev, j - 1);
      }
    }
    MakeList(h, e, next', prev');
  }

  lemma ListUnlink(h: nat, l: seq<nat>, next: seq<int>, prev: seq<int>, i: nat)
    requires IsList(h, l, next, prev) && i < |l|
    ensures h < |next| == |prev| && l[i] < |next|
    ensures var p := Before(h, l, i);
            var n := NextOf(l, i + 1);
            p < |next| && (n != NULL ==> 0 <= n < |prev|)
            && IsList(h, DeleteAt(l, i), next[p := n], if n == NULL then prev else prev[n := p])
  {
    hide IsList;
    ListAt(h, l, next, prev, i);
    var e := DeleteAt(l, i);
    var p, n := Before(h, l, i), NextOf(l, i + 1);
    var next', prev' := next[p := n], if n == NULL then prev else prev[n := p];
    forall j | 0 <= j < |e|
      ensures e[j] == l[if j < i then j else j + 1] && e[j] < |next'|
      ensures next'[e[j]] == NextOf(e, j + 1) && prev'[e[j]] == Before(h, e, j)
    {
      UnlinkAt(h, l, next, prev, i, j);
    }
    MakeList(h, e, next', prev');
  }

  lemma MakeList(h: nat, l: seq<nat>, next: seq<int>, prev: seq<int>)
    requires h < |next| == |prev| && h !in l
    requires forall i :: 0 <= i < |l| ==> l[i] < |next| && next[l[i]] == NextOf(l, i + 1) && prev[l[i]] == Before(h, l, i)
    requires forall i, j :: 0 <= i < j < |l| ==> l[i] != l[j]
    requires next[h] == NextOf(l, 0)
    ensures IsList(h, l, next, prev)
  {}

  lemma UnlinkAt(h: nat, l: seq<nat>, next: seq<int>, prev: seq<int>, i: nat, j: nat)
    requires IsList(h, l, next, prev) && i < |l| && j < |l| - 1
    ensures var e := DeleteAt(l, i);
            var p := Before(h, l, i);
            var n := NextOf(l, i + 1);
            && h < |next| == |prev| && l[i] < |next| && p < |next| && (n != NULL ==> 0 <= n < |prev|)
            && e[j] == l[if j < i then j else j + 1] && e[j] < |next|
            && next[p := n][e[j]] == NextOf(e, j + 1)
            && (if n == NULL then prev else prev[n := p])[e[j]] == Before(h, e, j)
  {
    hide IsList;
    var m := if j < i then j else j + 1;
    ListAt(h, l, next, prev, i);
    ListAt(h, l, next, prev, m);
    assert l[m] != l[i];
    var e := DeleteAt(l, i);
    assert e[j] == l[m] && (j + 1 < |e| ==> e[j + 1] == if j + 1 < i then l[j + 1] else l[j + 2]);
    assert j > 0 ==> e[j - 1] == if j - 1 < i then l[j - 1] else l[j];
    if i + 1 < |l| { ListAt(h, l, next, prev, i + 1); }
    if 0 < i { ListAt(h, l, next, prev, i - 1); }
  }

  /** A list is untouched by changes to the links of nodes not on it. */
  lemma ListFrame(h: nat, l: seq<nat>, next: seq<int>, prev: seq<int>, next': seq<int>, prev': seq<int>)
    requires IsList(h, l, next, prev) && |next'| == |next| && |prev'| == |prev|
    requires forall x: nat :: x < |next| && (x == h || x in l) ==> next'[x] == next[x]
    requires forall x: nat :: x < |next| && x in l ==> prev'[x] == prev[x]
    ensures IsList(h, l, next', prev')
  {
    forall i | 0 <= i < |l| ensures next'[l[i]] == next[l[i]] && prev'[l[i]] == prev[l[i]] {
      assert l[i] in l;
    }
  }

  // ------------------------------------------------------------ what is on them

  function Union(l: seq<nat>, events: seq<set<Event>>): (u: set<Event>)
    requires forall i :: 0 <= i < |l| ==> l[i] < |events|
    ensures forall e :: e in u <==> exists i :: 0 <= i < |l| && e in events[l[i]]
  {
    set i, e | 0 <= i < |l| && e in events[l[i]] :: e
  }

  /** The part of a list left without the nodes `gone`. */
  function Drop(l: seq<nat>, gone: set<nat>): (r: seq<nat>)
    ensures forall x :: x in r <==> x in l && x !in gone
  {
    if l == [] then []
    else if l[0] in gone then Drop(l[1..], gone)
    else [l[0]] + Drop(l[1..], gone)
  }

  lemma {:induction false} DropNone(l: seq<nat>, gone: set<nat>, d: nat)
    requires d !in l
    ensures Drop(l, gone + {d}) == Drop(l, gone)
  {
    if l != [] { DropNone(l[1..], gone, d); }
  }

  lemma {:induction false} DropNothing(l: seq<nat>)
    ensures Drop(l, {}) == l
  {
    if l != [] { DropNothing(l[1..]); }
  }

  lemma {:induction false} DropAt(l: seq<nat>, gone: set<nat>, d: nat, i: nat)
    requires forall j, k :: 0 <= j < k < |l| ==> l[j] != l[k]
    requires i < |Drop(l, gone)| && Drop(l, gone)[i] == d
    ensures Drop(l, gone + {d}) == DeleteAt(Drop(l, gone), i)
  {
    hide Drop;
    DropHead(l, gone);
    DropHead(l, gone + {d});
    if l == [] {
    } else if l[0] in gone {
      DropAt(l[1..], gone, d, i);
    } else {
      var r := Drop(l[1..], gone);
      if i == 0 {
        assert d !in l[1..];
        DropNone(l[1..], gone, d);
        assert DeleteAt([l[0]] + r, 0) == r;
      } else {
        assert r[i - 1] == d && d in l[1..];
        DropAt(l[1..], gone, d, i - 1);
        assert DeleteAt([l[0]] + r, i) == [l[0]] + DeleteAt(r, i - 1);
      }
    }
  }

  lemma DropHead(l: seq<nat>, gone: set<nat>)
    ensures Drop(l, gone) == if l == [] then [] else if l[0] in gone then Drop(l[1..], gone) else [l[0]] + Drop(l[1..], gone)
  {}

  lemma {:induction false} DropTwice(l: seq<nat>, a: set<nat>, b: set<nat>)
    ensures Drop(Drop(l, a), b) == Drop(l, a + b)
  {
    hide Drop;
    DropHead(l, a);
    DropHead(l, a + b);
    if l == [] {
      DropHead([], b);
    } else {
      DropTwice(l[1..], a, b);
      if l[0] !in a {
        DropHead([l[0]] + Drop(l[1..], a), b);
        assert ([l[0]] + Drop(l[1..], a))[1..] == Drop(l[1..], a);
      }
    }
  }

  function DropAll(lists: seq<seq<nat>>, gone: set<nat>): (r: seq<seq<nat>>)
    ensures |r| == |lists| && forall h :: 0 <= h < |lists| ==> r[h] == Drop(lists[h], gone)
  {
    seq(|lists|, h requires 0 <= h < |lists| => Drop(lists[h], gone))
  }

  // ------------------------------------------------------------- all the lists

  /** A polldat on a list knows the pollhead. */
  ghost predicate Headed(heads: nat, h: nat, l: seq<nat>, headp: seq<int>)
  {
    forall d: nat :: d in l ==> heads <= d < |headp| && headp[d] == h
  }

  ghost predicate Tables(heads: nat, lists: seq<seq<nat>>, next: seq<int>, prev: seq<int>, headp: seq<int>)
  {
    && |lists| == heads <= |next| == |prev| == |headp|
    && (forall h: nat :: h < heads ==> IsList(h, lists[h], next, prev) && Headed(heads, h, lists[h], headp))
    && (forall d: nat :: heads <= d < |headp| && headp[d] != NULL ==> 0 <= headp[d] < heads && d in lists[headp[d]])
  }

  lemma AddTables(heads: nat, lists: seq<seq<nat>>, next: seq<int>, prev: seq<int>, headp: seq<int>, h: nat, d: nat)
    requires Tables(heads, lists, next, prev, headp) && h < heads <= d < |next| && headp[d] == NULL
    ensures var l := lists[h];
            && next[h] == NextOf(l, 0) && (l != [] ==> l[0] < |prev|)
            && var p := if l == [] then prev else prev[l[0] := d];
               Tables(heads, lists[h := [d] + l], next[d := NextOf(l, 0)][h := d], p[d := h], headp[d := h])
  {
    hide IsList;
    var l := lists[h];
    assert Headed(heads, h, l, headp);
    ListAt(h, l, next, prev, 0);
    ListPrepend(h, l, next, prev, d);
    var lists' := lists[h := [d] + l];
    var next', prev' := next[d := NextOf(l, 0)][h := d], (if l == [] then prev else prev[l[0] := d])[d := h];
    assert l != [] ==> l[0] in l;
    forall g: nat | g < heads ensures IsList(g, lists'[g], next', prev') && Headed(heads, g, lists'[g], headp[d := h]) {
      assert Headed(heads, g, lists[g], headp);
      if g != h {
        ListFrame(g, lists[g], next, prev, next', prev');
      }
    }
    var headp' := headp[d := h];
    forall x: nat | heads <= x < |headp'| && headp'[x] != NULL
      ensures 0 <= headp'[x] < heads && x in lists'[headp'[x]]
    {
      if x == d { assert lists'[h][0] == d; }
    }
  }

  lemma PlaceOf(heads: nat, lists: seq<seq<nat>>, next: seq<int>, prev: seq<int>, headp: seq<int>, d: nat) returns (i: nat)
    requires Tables(heads, lists, next, prev, headp) && heads <= d < |headp| && headp[d] != NULL
    ensures 0 <= headp[d] < heads
    ensures var h := headp[d];
            && i < |lists[h]| && lists[h][i] == d
            && next[d] == NextOf(lists[h], i + 1) && prev[d] == Before(h, lists[h], i)
            && 0 <= prev[d] < |next| && prev[d] != d && (prev[d] == h || prev[d] in lists[h])
            && (next[d] != NULL ==> 0 <= next[d] < |prev| && next[d] != d && next[d] in lists[h])
  {
    hide IsList;
    var h := headp[d];
    var l := lists[h];
    assert Headed(heads, h, l, headp);
    i :| i < |l| && l[i] == d;
    ListAt(h, l, next, prev, i);
    if i > 0 { ListAt(h, l, next, prev, i - 1); }
  }

  lemma DropEach(heads: nat, lists: seq<seq<nat>>, next: seq<int>, prev: seq<int>, headp: seq<int>, d: nat, i: nat)
    requires Tables(heads, lists, next, prev, headp) && heads <= d < |headp| && 0 <= headp[d] < heads
    requires i < |lists[headp[d]]| && lists[headp[d]][i] == d
    ensures lists[headp[d] := DeleteAt(lists[headp[d]], i)] == DropAll(lists, {d})
    ensures d !in DeleteAt(lists[headp[d]], i)
  {
    hide IsList, Drop;
    var h := headp[d];
    var l := lists[h];
    ListAt(h, l, next, prev, i);
    DropNothing(l);
    DropAt(l, {}, d, i);
    assert {} + {d} == {d};
    var lists' := lists[h := DeleteAt(l, i)];
    forall g: nat | g < heads ensures lists'[g] == Drop(lists[g], {d}) {
      if g != h {
        assert Headed(heads, g, lists[g], headp);
        DropNothing(lists[g]);
        DropNone(lists[g], {}, d);
      }
    }
  }

  /** polldat `d` unlinked from the list of its pollhead, and its own pointers cleared. */
  lemma UnlistTables(heads: nat, lists: seq<seq<nat>>, next: seq<int>, prev: seq<int>, headp: seq<int>, d: nat)
    requires Tables(heads, lists, next, prev, headp) && heads <= d < |headp| && headp[d] != NULL
    ensures 0 <= headp[d] < heads
    ensures 0 <= prev[d] < |next| && prev[d] != d && (next[d] != NULL ==> 0 <= next[d] < |prev| && next[d] != d)
    ensures Tables(heads, DropAll(lists, {d}), next[prev[d] := next[d]][d := NULL],
                   (if next[d] == NULL then prev else prev[next[d] := prev[d]])[d := NULL], headp[d := NULL])
  {
    hide IsList, Drop, Before, NextOf, DeleteAt, DropAll;
    var i := PlaceOf(heads, lists, next, prev, headp, d);
    var h := headp[d];
    var l := lists[h];
    ListUnlink(h, l, next, prev, i);
    DropEach(heads, lists, next, prev, headp, d, i);
    var rest := DeleteAt(l, i);
    var next1, prev1 := next[prev[d] := next[d]], if next[d] == NULL then prev else prev[next[d] := prev[d]];
    var next', prev', headp' := next1[d := NULL], prev1[d := NULL], headp[d := NULL];
    var lists' := lists[h := rest];
    forall g: nat | g < heads ensures IsList(g, lists'[g], next', prev') && Headed(heads, g, lists'[g], headp') {
      assert Headed(heads, g, lists[g], headp) && Headed(heads, h, l, headp);
      if g == h {
        InWithout(l, i);
        ListFrame(h, rest, next1, prev1, next', prev');
      } else {
        ListFrame(g, lists[g], next, prev, next', prev');
      }
    }
    forall x: nat | heads <= x < |headp'| && headp'[x] != NULL ensures 0 <= headp'[x] < heads && x in lists'[headp'[x]] {
      InWithout(l, i);
    }
  }

  lemma InWithout(l: seq<nat>, i: nat)
    requires i < |l|
    ensures forall x :: x in DeleteAt(l, i) ==> x in l
    ensures forall x :: x in l && x != l[i] ==> x in DeleteAt(l, i)
  {
    var w := DeleteAt(l, i);
    forall x | x in l && x != l[i] ensures x in w {
      var j :| 0 <= j < |l| && l[j] == x;
      assert w[if j < i then j else j - 1] == x;
    }
  }

  predicate Member(heads: nat, a: seq<nat>, chain: seq<nat>, owner: seq<nat>, slot: seq<nat>, p: nat, i: nat)
    requires i < |a|
  {
    && heads <= a[i] < |chain| == |owner| == |slot|
    && owner[a[i]] == p && slot[a[i]] == i && chain[a[i]] == a[if i + 1 < |a| then i + 1 else 0]
  }

  /** The polldat arrays of the processes in poll: entry `slot` of `arrays[p]` is chained to
      the next, the last to the first. */
  ghost predicate Chained(heads: nat, arrays: seq<seq<nat>>, chain: seq<nat>, owner: seq<nat>, slot: seq<nat>)
  {
    && heads <= |chain| == |owner| == |slot|
    && (forall p: nat, i: nat :: p < |arrays| && i < |arrays[p]| ==> Member(heads, arrays[p], chain, owner, slot, p, i))
    && (forall d: nat :: heads <= d < |chain| ==>
          owner[d] < |arrays| && slot[d] < |arrays[owner[d]]| && arrays[owner[d]][slot[d]] == d)
  }

  function SlotsOf(a: seq<nat>): set<nat>
  {
    set d | d in a
  }

  /** The i-th member of the ring, from place `s` on. */
  function At(a: seq<nat>, s: nat, i: nat): nat
    requires s < |a| && i <= |a|
  {
    if s + i < |a| then a[s + i] else if s + i - |a| < |a| then a[s + i - |a|] else a[s]
  }

  function Around(a: seq<nat>, s: nat, m: nat): set<nat>
    requires s < |a| && m <= |a|
  {
    if m == 0 then {} else Around(a, s, m - 1) + {At(a, s, m - 1)}
  }

  lemma {:induction false} AroundHas(a: seq<nat>, s: nat, m: nat)
    requires s < |a| && m <= |a|
    ensures forall i :: 0 <= i < m ==> At(a, s, i) in Around(a, s, m)
    ensures Around(a, s, m) <= SlotsOf(a)
  {
    if m > 0 { AroundHas(a, s, m - 1); }
  }

  lemma AllAround(a: seq<nat>, s: nat)
    requires s < |a|
    ensures Around(a, s, |a|) == SlotsOf(a)
  {
    AroundHas(a, s, |a|);
    forall d | d in a ensures d in Around(a, s, |a|) {
      var j :| 0 <= j < |a| && a[j] == d;
      assert At(a, s, if j >= s then j - s else j - s + |a|) == d;
    }
  }

  class PollSystem {
    const heads: nat
    const chain: seq<nat>
    const owner: seq<nat>          // pd_arg, the process pd_fn is called for
    const slot: seq<nat>
    ghost const arrays: seq<seq<nat>>
    var next: seq<int>             // ph_list, pd_next
    var prev: seq<int>             // pd_prev
    var headp: seq<int>            // pd_headp
    var events: seq<set<Event>>    // ph_events, pd_events
    ghost var lists: seq<seq<nat>>

    ghost predicate Shape()
      reads this
    {
      && Chained(heads, arrays, chain, owner, slot)
      && |lists| == heads <= |chain| == |owner| == |slot|
      && |next| == |prev| == |headp| == |events| == |chain|
      && (forall h, i :: 0 <= h < heads && 0 <= i < |lists[h]| ==> heads <= lists[h][i] < |events|)
      && Tables(heads, lists, next, prev, headp)
    }

    ghost predicate Summed(h: nat)
      reads this
      requires Shape() && h < heads
    {
      (forall i :: 0 <= i < |lists[h]| ==> lists[h][i] < |events|) && events[h] == Union(lists[h], events)
    }

    /** ... and ph_events sums up the list. */
    ghost predicate Valid()
      reads this
    {
      Shape() && forall h: nat :: h < heads ==> Summed(h)
    }

    /** What the lists say, without the links. */
    ghost function Regs(): (r: seq<seq<Reg>>)
      reads this
      requires |owner| == |slot| == |events|
      requires forall h, i :: 0 <= h < |lists| && 0 <= i < |lists[h]| ==> lists[h][i] < |events|
    {
      RegsOf(lists, owner, slot, events)
    }

    constructor (heads: nat, chain: seq<nat>, owner: seq<nat>, slot: seq<nat>, ghost arrays: seq<seq<nat>>)
      requires Chained(heads, arrays, chain, owner, slot)
      ensures Valid() && this.heads == heads && this.arrays == arrays
      ensures lists == seq(heads, _ => [])
    {
      this.heads, this.chain, this.owner, this.slot, this.arrays := heads, chain, owner, slot, arrays;
      next := seq(|chain|, _ => NULL);
      prev := seq(|chain|, _ => NULL);
      headp := seq(|chain|, _ => NULL);
      events := seq(|chain|, _ => {});
      lists := seq(heads, _ => []);
    }

    /** polladd, for the polldat and events of one descriptor. */
    method PollAdd(php: nat, ev: set<Event>, pdp: nat)
      requires Valid() && php < heads <= pdp < |chain| && headp[pdp] == NULL
      modifies this`next, this`prev, this`headp, this`events, this`lists
      ensures Valid() && |old(lists)| == heads && lists == old(lists)[php := [pdp] + old(lists[php])]
      ensures events[pdp] == ev && headp[pdp] == php
      ensures |old(Regs())| == heads && Regs() == Add(old(Regs()), php, Reg(owner[pdp], slot[pdp], ev))
    {
      hide Tables, Chained, RegsOf, Union, Add, IsList;
      ghost var l := lists[php];
      NotListed(heads, lists, next, prev, headp, pdp);
      events := events[pdp := ev];
      LinkFirst(php, pdp);
      events := events[php := events[php] + ev];
      forall h: nat | h < heads ensures Summed(h) {
        assert old(Summed(h));
        SumAfterAdd(lists[h], old(events), events, php, pdp, ev, l, h);
      }
      RegsAdd(old(lists), owner, slot, old(events), events, php, pdp);
    }

    /** The links set by polladd. */
    method LinkFirst(php: nat, pdp: nat)
      requires Shape() && php < heads <= pdp < |chain| && headp[pdp] == NULL
      modifies this`next, this`prev, this`headp, this`lists
      ensures Shape() && lists == old(lists)[php := [pdp] + old(lists[php])] && headp[pdp] == php
    {
      hide Tables, Chained, IsList;
      NotListed(heads, lists, next, prev, headp, pdp);
      AddTables(heads, lists, next, prev, headp, php, pdp);
      if next[php] != NULL {
        next := next[pdp := next[php]];
        prev := prev[next[php] := pdp];
      } else {
        next := next[pdp := NULL];
      }
      prev := prev[pdp := php];
      headp := headp[pdp := php];
      next := next[php := pdp];
      lists := lists[php := [pdp] + lists[php]];
    }

    /** "Recalculate the events on the list": the inner loop of polldel. */
    method Recalculate(php: nat)
      requires Shape() && php < heads && forall h: nat :: h < heads && h != php ==> Summed(h)
      modifies this`events
      ensures Valid() && forall d :: heads <= d < |events| ==> events[d] == old(events[d])
    {
      hide Tables, Chained, IsList, Union;
      ListedBounds(heads, lists, next, prev, headp);
      ghost var l, ev := lists[php], events;
      ListWalk(heads, lists, next, prev, headp, php, 0);
      UnionEmpty(ev);
      events := events[php := {}];
      var pdp := next[php];
      ghost var k := 0;
      while pdp != NULL
        invariant k <= |l| && pdp == NextOf(l, k) && (pdp == NULL <==> k == |l|)
        invariant (forall i :: 0 <= i < k ==> l[i] < |ev|) && events == ev[php := Union(l[..k], ev)]
        decreases |l| - k
      {
        ListWalk(heads, lists, next, prev, headp, php, k);
        UnionStep(l, ev, k);
        events := events[php := events[php] + events[pdp]];
        pdp := next[pdp];
        k := k + 1;
        ListWalk(heads, lists, next, prev, headp, php, k);
      }
      assert l[..|l|] == l;
      forall h: nat | h < heads ensures Summed(h) {
        if h != php { assert old(Summed(h)); }
        UnionFrame(lists[h], ev, events);
      }
    }

    /** One turn of the loop of polldel: a polldat comes off whatever list it is on. */
    method Unlist(p: nat)
      requires Valid() && heads <= p < |chain|
      modifies this`next, this`prev, this`headp, this`events, this`lists
      ensures Valid() && lists == DropAll(old(lists), {p})
      ensures forall d :: heads <= d < |events| ==> events[d] == old(events[d])
    {
      hide Tables, Chained, IsList, Union, Drop, DropAll;
      if headp[p] != NULL {
        UnlistTables(heads, lists, next, prev, headp, p);
        ghost var was := lists;
        if next[p] != NULL {
          prev := prev[next[p] := prev[p]];
        }
        var back := prev[p];
        next := next[back := next[p]];
        var php := headp[p];
        next := next[p := NULL];
        prev := prev[p := NULL];
        headp := headp[p := NULL];
        lists := DropAll(lists, {p});
        ListedBounds(heads, lists, next, prev, headp);
        forall h: nat | h < heads && h != php ensures Summed(h) {
          assert old(Summed(h));
          OthersKeep(heads, was, old(next), old(prev), old(headp), p, h);
        }
        Recalculate(php);
      } else {
        AbsentDrop(heads, lists, next, prev, headp, p);
      }
    }

    /** polldel: when the polldat is on the list of `php`, all of its call come off; otherwise
        nothing happens. */
    method PollDel(php: nat, pdp: nat)
      requires Valid() && php < heads <= pdp < |chain|
      modifies this`next, this`prev, this`headp, this`events, this`lists
      ensures Valid() && owner[pdp] < |arrays| && |old(lists)| == heads
      ensures forall d :: heads <= d < |events| ==> events[d] == old(events[d])
      ensures lists == if pdp in old(lists[php]) then DropAll(old(lists), SlotsOf(arrays[owner[pdp]])) else old(lists)
      ensures Regs() == Del(old(Regs()), php, owner[pdp], slot[pdp])
    {
      hide Tables, Chained, IsList, Union, Drop, DropAll, At, Around, SlotsOf, RegsOf, Del;
      RegsDel(heads, arrays, chain, lists, php, pdp, owner, slot, events);
      RingOf(heads, arrays, chain, owner, slot, pdp);
      ListWalk(heads, lists, next, prev, headp, php, 0);
      var found := FindOn(php, pdp);
      if !found {
        return;
      }
      ghost var a, s, was := arrays[owner[pdp]], slot[pdp], lists;
      var startp := pdp;
      RingStep(heads, arrays, chain, owner, slot, owner[pdp], s, 0);
      Unlist(startp);
      DropFirst(was, a, s);
      var p := chain[startp];
      ghost var m := 1;
      while p != startp
        invariant Valid() && heads <= p < |chain| && 1 <= m <= |a| && p == At(a, s, m)
        invariant p == startp <==> m == |a|
        invariant lists == DropAll(was, Around(a, s, m))
        invariant forall d :: heads <= d < |events| ==> events[d] == old(events[d])
        decreases |a| - m
      {
        Unlist(p);
        DropMore(was, a, s, m);
        RingStep(heads, arrays, chain, owner, slot, owner[pdp], s, m);
        p := chain[p];
        m := m + 1;
      }
      AllAround(a, s);
      SameRegs(lists, owner, slot, old(events), events, heads);
    }

    /** The search of polldel. */
    method FindOn(php: nat, pdp: nat) returns (found: bool)
      requires Valid() && php < heads
      ensures |lists| == heads && (found <==> pdp in lists[php])
    {
      hide Tables, Chained, IsList, Union;
      ListWalk(heads, lists, next, prev, headp, php, 0);
      var p := next[php];
      ghost var k := 0;
      while p != NULL
        invariant k <= |lists[php]| && p == NextOf(lists[php], k) && (p == NULL <==> k == |lists[php]|)
        invariant pdp !in lists[php][..k]
        decreases |lists[php]| - k
      {
        ListWalk(heads, lists, next, prev, headp, php, k);
        if p == pdp {
          return true;
        }
        p := next[p];
        k := k + 1;
        ListWalk(heads, lists, next, prev, headp, php, k);
      }
      return false;
    }

    /** pollwakeup: the calls of pollrun it makes, in order. Those who asked for the event, or
        everyone for an error or hangup, are told once and are off all lists. */
    method PollWakeup(php: nat, event: Event) returns (run: seq<nat>)
      requires Valid() && php < heads
      modifies this`next, this`prev, this`headp, this`events, this`lists
      ensures Valid() && |old(Regs())| == heads
      ensures var who := Informed(old(Regs())[php], event);
              && Regs() == OffAll(old(Regs()), who)
              && (forall p :: p in run <==> p in who)
              && (forall i, j :: 0 <= i < j < |run| ==> run[i] != run[j])
    {
      hide Tables, Chained, IsList, Union, DropAll, SlotsOf, RegsOf, OffAll, Informed;
      ListedBounds(heads, lists, next, prev, headp);
      ghost var regs := Regs();
      run := [];
      WakingStart(regs, php, event);
      if event == POLLHUP || event == POLLERR {
        ListWalk(heads, lists, next, prev, headp, php, 0);
        var pdp := next[php];
        while pdp != NULL
          invariant Valid() && pdp == NextOf(lists[php], 0)
          invariant Waking(regs, php, event, run, Regs())
          decreases |lists[php]|
        {
          ListWalk(heads, lists, next, prev, headp, php, 0);
          run := RunAndDelete(php, pdp, event, run, regs, 0);
          ListWalk(heads, lists, next, prev, headp, php, 0);
          pdp := next[php];
        }
        NoneLeft(lists[php], owner, slot, events, event);
      } else {
        while event in events[php]
          invariant Valid() && Waking(regs, php, event, run, Regs())
          decreases |lists[php]|
        {
          var pdp, k := FirstMatch(php, event);
          run := RunAndDelete(php, pdp, event, run, regs, k);
        }
        assert Summed(php);
        NoneAsked(lists[php], owner, slot, events, event);
      }
      RegsAt(lists, owner, slot, events, php);
      WakingEnd(regs, php, event, run, Regs());
    }

    /** The scan of pollwakeup, on a list whose ph_events has the event. */
    method FirstMatch(php: nat, event: Event) returns (pdp: nat, ghost k: nat)
      requires Valid() && php < heads && event in events[php]
      ensures k < |lists[php]| && pdp == lists[php][k] && heads <= pdp < |chain| && event in events[pdp]
    {
      hide Tables, Chained, IsList;
      ListedBounds(heads, lists, next, prev, headp);
      ListWalk(heads, lists, next, prev, headp, php, 0);
      var p := next[php];
      k := 0;
      assert Summed(php);
      while true
        invariant k <= |lists[php]| && p == NextOf(lists[php], k) && (p == NULL <==> k == |lists[php]|)
        invariant forall i :: 0 <= i < k ==> event !in events[lists[php][i]]
        decreases |lists[php]| - k
      {
        ListWalk(heads, lists, next, prev, headp, php, k);
        if event in events[p] {
          return p, k;
        }
        p := next[p];
        k := k + 1;
        ListWalk(heads, lists, next, prev, headp, php, k);
      }
    }

    /** pd_fn called for a polldat of `php`, and polldel. */
    method RunAndDelete(php: nat, pdp: nat, event: Event, run: seq<nat>, ghost regs: seq<seq<Reg>>, ghost k: nat)
      returns (run': seq<nat>)
      requires Valid() && php < heads && k < |lists[php]| && pdp == lists[php][k] && heads <= pdp < |chain|
      requires event == POLLHUP || event == POLLERR || event in events[pdp]
      requires Waking(regs, php, event, run, Regs())
      modifies this`next, this`prev, this`headp, this`events, this`lists
      ensures Valid() && Waking(regs, php, event, run', Regs()) && |lists[php]| < |old(lists[php])|
    {
      hide Tables, Chained, IsList, Union, RegsOf, SlotsOf, Informed, OffAll, Waking;
      ListedBounds(heads, lists, next, prev, headp);
      ghost var was, ev := lists, events;
      RingOf(heads, arrays, chain, owner, slot, pdp);
      ghost var p := owner[pdp];
      assert was[php][k] in was[php];
      OwnerIs(heads, arrays, chain, owner, slot, pdp, p);
      IsReg(was, owner, slot, ev, php, k);
      run' := run + [owner[pdp]];
      PollDel(php, pdp);
      ListedBounds(heads, lists, next, prev, headp);
      RegsDropAll(heads, arrays, chain, was, p, owner, slot, ev);
      SameRegs(lists, owner, slot, ev, events, heads);
      WakingStep(regs, php, event, run, RegsOf(was, owner, slot, ev), pdp, p, RegOf(pdp, owner, slot, ev));
      DropShorter(was[php], SlotsOf(arrays[p]), k);
    }
  }

  function RegOf(d: nat, owner: seq<nat>, slot: seq<nat>, events: seq<set<Event>>): Reg
    requires d < |owner| == |slot| == |events|
  {
    Reg(owner[d], slot[d], events[d])
  }

  function RegList(l: seq<nat>, owner: seq<nat>, slot: seq<nat>, events: seq<set<Event>>): (r: seq<Reg>)
    requires |owner| == |slot| == |events| && forall i :: 0 <= i < |l| ==> l[i] < |events|
    ensures |r| == |l|
  {
    if l == [] then [] else [RegOf(l[0], owner, slot, events)] + RegList(l[1..], owner, slot, events)
  }

  function RegsOf(lists: seq<seq<nat>>, owner: seq<nat>, slot: seq<nat>, events: seq<set<Event>>): (r: seq<seq<Reg>>)
    requires |owner| == |slot| == |events|
    requires forall h, i :: 0 <= h < |lists| && 0 <= i < |lists[h]| ==> lists[h][i] < |events|
    ensures |r| == |lists|
  {
    seq(|lists|, h requires 0 <= h < |lists| && (forall i :: 0 <= i < |lists[h]| ==> lists[h][i] < |events|)
                   && |owner| == |slot| == |events|
                   => RegList(lists[h], owner, slot, events))
  }

  /** Taking a process's array off the lists is taking its polldats off. */
  lemma {:induction false} RegsDrop(heads: nat, arrays: seq<seq<nat>>, chain: seq<nat>, l: seq<nat>, p: nat,
                                    owner: seq<nat>, slot: seq<nat>, events: seq<set<Event>>)
    requires Chained(heads, arrays, chain, owner, slot) && p < |arrays| && |events| == |owner|
    requires forall i :: 0 <= i < |l| ==> heads <= l[i] < |events|
    ensures forall i :: 0 <= i < |Drop(l, SlotsOf(arrays[p]))| ==> Drop(l, SlotsOf(arrays[p]))[i] < |events|
    ensures RegList(Drop(l, SlotsOf(arrays[p])), owner, slot, events) == Off(RegList(l, owner, slot, events), {p})
  {
    hide Chained, SlotsOf;
    ChainSizes(heads, arrays, chain, owner, slot);
    if l != [] {
      RegsDrop(heads, arrays, chain, l[1..], p, owner, slot, events);
      OwnerIs(heads, arrays, chain, owner, slot, l[0], p);
    }
  }

  lemma ChainSizes(heads: nat, arrays: seq<seq<nat>>, chain: seq<nat>, owner: seq<nat>, slot: seq<nat>)
    requires Chained(heads, arrays, chain, owner, slot)
    ensures heads <= |chain| == |owner| == |slot|
  {}

  lemma OwnerIs(heads: nat, arrays: seq<seq<nat>>, chain: seq<nat>, owner: seq<nat>, slot: seq<nat>, d: nat, p: nat)
    requires Chained(heads, arrays, chain, owner, slot) && heads <= d < |chain| && p < |arrays|
    ensures |chain| == |owner| == |slot|
    ensures d in SlotsOf(arrays[p]) <==> owner[d] == p
  {
    if d in arrays[p] {
      var i :| 0 <= i < |arrays[p]| && arrays[p][i] == d;
      assert Member(heads, arrays[p], chain, owner, slot, p, i);
    }
  }

  lemma NotListed(heads: nat, lists: seq<seq<nat>>, next: seq<int>, prev: seq<int>, headp: seq<int>, d: nat)
    requires Tables(heads, lists, next, prev, headp) && heads <= d < |headp| && headp[d] == NULL
    ensures |lists| == heads && forall h, i :: 0 <= h < heads && 0 <= i < |lists[h]| ==> lists[h][i] != d
  {
    hide IsList;
    forall h: nat, i | h < heads && 0 <= i < |lists[h]| ensures lists[h][i] != d {
      assert Headed(heads, h, lists[h], headp);
      assert lists[h][i] in lists[h];
    }
  }

  lemma ListedBounds(heads: nat, lists: seq<seq<nat>>, next: seq<int>, prev: seq<int>, headp: seq<int>)
    requires Tables(heads, lists, next, prev, headp)
    ensures |lists| == heads <= |next| == |prev| == |headp|
    ensures forall h, i :: 0 <= h < heads && 0 <= i < |lists[h]| ==> heads <= lists[h][i] < |next|
  {
    hide IsList;
    forall h: nat, i | h < heads && 0 <= i < |lists[h]| ensures heads <= lists[h][i] < |next| {
      assert Headed(heads, h, lists[h], headp);
      assert lists[h][i] in lists[h];
    }
  }

  lemma SumAfterAdd(l': seq<nat>, events: seq<set<Event>>, events': seq<set<Event>>, php: nat, pdp: nat, ev: set<Event>,
                    l: seq<nat>, h: nat)
    requires php < |events| && pdp < |events| && pdp != php && h < |events| && h != pdp
    requires events' == events[pdp := ev][php := events[php] + ev]
    requires l' == if h == php then [pdp] + l else l'
    requires var was := if h == php then l else l';
      (forall i :: 0 <= i < |was| ==> was[i] != php && was[i] != pdp) && (forall i :: 0 <= i < |was| ==> was[i] < |events|) && events[h] == Union(was, events)
    ensures (forall i :: 0 <= i < |l'| ==> l'[i] < |events'|) && events'[h] == Union(l', events')
  {
    var was := if h == php then l else l';
    forall i | 0 <= i < |was| ensures events'[was[i]] == events[was[i]] {}
    assert Union(was, events') == Union(was, events);
    if h == php {
      assert forall i :: 0 <= i < |l| ==> l'[i + 1] == l[i];
      forall e ensures e in Union(l', events') <==> e in ev || e in Union(l, events') {
        if e in ev { assert e in events'[l'[0]]; }
      }
    }
  }

  lemma ListWalk(heads: nat, lists: seq<seq<nat>>, next: seq<int>, prev: seq<int>, headp: seq<int>, h: nat, k: nat)
    requires Tables(heads, lists, next, prev, headp) && h < heads && k <= |lists[h]|
    ensures next[h] == NextOf(lists[h], 0)
    ensures k < |lists[h]| ==> heads <= lists[h][k] < |next| && next[lists[h][k]] == NextOf(lists[h], k + 1)
    ensures NextOf(lists[h], k) == NULL <==> k == |lists[h]|
    ensures h !in lists[h]
  {
    hide IsList;
    ListAt(h, lists[h], next, prev, k);
    ListedBounds(heads, lists, next, prev, headp);
  }

  lemma UnionEmpty(events: seq<set<Event>>)
    ensures Union([], events) == {}
  {}

  lemma UnionStep(l: seq<nat>, events: seq<set<Event>>, k: nat)
    requires k < |l| && forall i :: 0 <= i <= k ==> l[i] < |events|
    ensures Union(l[..k + 1], events) == Union(l[..k], events) + events[l[k]]
  {
    var a, b := l[..k], l[..k + 1];
    assert b[k] == l[k] && forall i :: 0 <= i < k ==> b[i] == a[i];
    forall e ensures e in Union(b, events) <==> e in Union(a, events) || e in events[l[k]] {}
  }

  lemma UnionFrame(l: seq<nat>, events: seq<set<Event>>, events': seq<set<Event>>)
    requires |events'| == |events| && forall i :: 0 <= i < |l| ==> l[i] < |events| && events'[l[i]] == events[l[i]]
    ensures Union(l, events') == Union(l, events)
  {}

  /** Lists a polldat is not on are not changed by taking it off. */
  lemma OthersKeep(heads: nat, lists: seq<seq<nat>>, next: seq<int>, prev: seq<int>, headp: seq<int>, d: nat, h: nat)
    requires Tables(heads, lists, next, prev, headp) && heads <= d < |headp| && h < heads && headp[d] != h
    ensures Drop(lists[h], {d}) == lists[h]
  {
    hide IsList, Drop;
    assert Headed(heads, h, lists[h], headp);
    DropNothing(lists[h]);
    DropNone(lists[h], {}, d);
    assert {} + {d} == {d};
  }

  lemma AbsentDrop(heads: nat, lists: seq<seq<nat>>, next: seq<int>, prev: seq<int>, headp: seq<int>, d: nat)
    requires Tables(heads, lists, next, prev, headp) && heads <= d < |headp| && headp[d] == NULL
    ensures DropAll(lists, {d}) == lists
  {
    hide IsList, Drop;
    forall h: nat | h < heads ensures Drop(lists[h], {d}) == lists[h] {
      OthersKeep(heads, lists, next, prev, headp, d, h);
    }
  }

  lemma RingOf(heads: nat, arrays: seq<seq<nat>>, chain: seq<nat>, owner: seq<nat>, slot: seq<nat>, d: nat)
    requires Chained(heads, arrays, chain, owner, slot) && heads <= d < |chain|
    ensures |chain| == |owner| == |slot|
    ensures owner[d] < |arrays| && slot[d] < |arrays[owner[d]]| && At(arrays[owner[d]], slot[d], 0) == d
  {}

  /** Following pd_chain is going round the array, and back at the start only after all of it. */
  lemma RingStep(heads: nat, arrays: seq<seq<nat>>, chain: seq<nat>, owner: seq<nat>, slot: seq<nat>, p: nat, s: nat, m: nat)
    requires Chained(heads, arrays, chain, owner, slot) && p < |arrays| && s < |arrays[p]| && m < |arrays[p]|
    ensures var a := arrays[p];
            && At(a, s, m) < |chain| && chain[At(a, s, m)] == At(a, s, m + 1)
            && heads <= At(a, s, m + 1) < |chain|
            && (At(a, s, m + 1) == At(a, s, 0) <==> m + 1 == |a|)
  {
    var a := arrays[p];
    var i := if s + m < |a| then s + m else s + m - |a|;
    var j := if i + 1 < |a| then i + 1 else 0;
    assert Member(heads, a, chain, owner, slot, p, i);
    assert Member(heads, a, chain, owner, slot, p, j);
    assert Member(heads, a, chain, owner, slot, p, s);
  }

  lemma DropFirst(lists: seq<seq<nat>>, a: seq<nat>, s: nat)
    requires s < |a|
    ensures DropAll(lists, {At(a, s, 0)}) == DropAll(lists, Around(a, s, 1))
  {
    assert Around(a, s, 1) == Around(a, s, 0) + {At(a, s, 0)} == {At(a, s, 0)};
  }

  lemma DropMore(lists: seq<seq<nat>>, a: seq<nat>, s: nat, m: nat)
    requires s < |a| && m < |a|
    ensures DropAll(DropAll(lists, Around(a, s, m)), {At(a, s, m)}) == DropAll(lists, Around(a, s, m + 1))
  {
    hide Drop;
    forall h | 0 <= h < |lists|
      ensures Drop(Drop(lists[h], Around(a, s, m)), {At(a, s, m)}) == Drop(lists[h], Around(a, s, m + 1))
    {
      DropTwice(lists[h], Around(a, s, m), {At(a, s, m)});
    }
  }

  function ProcsOf(run: seq<nat>): (r: set<nat>)
    ensures forall p :: p in r <==> p in run
  {
    set p | p in run
  }

  /** Where pollwakeup stands: those run so far were to be informed, each once, and exactly
      they are off the lists. */
  ghost predicate Waking(regs: seq<seq<Reg>>, h: nat, e: Event, run: seq<nat>, now: seq<seq<Reg>>)
  {
    && h < |regs|
    && now == OffAll(regs, ProcsOf(run))
    && (forall p :: p in run ==> p in Informed(regs[h], e))
    && (forall i, j :: 0 <= i < j < |run| ==> run[i] != run[j])
  }

  lemma {:induction false} OffNone(l: seq<Reg>)
    ensures Off(l, {}) == l
  {
    if l != [] { OffNone(l[1..]); }
  }

  lemma {:induction false} OffTwice(l: seq<Reg>, a: set<nat>, b: set<nat>)
    ensures Off(Off(l, a), b) == Off(l, a + b)
  {
    hide Off;
    OffHead(l, a);
    OffHead(l, a + b);
    if l == [] {
      OffHead([], b);
    } else {
      OffTwice(l[1..], a, b);
      if l[0].proc !in a {
        OffHead([l[0]] + Off(l[1..], a), b);
        assert ([l[0]] + Off(l[1..], a))[1..] == Off(l[1..], a);
      }
    }
  }

  lemma OffHead(l: seq<Reg>, a: set<nat>)
    ensures Off(l, a) == if l == [] then [] else if l[0].proc in a then Off(l[1..], a) else [l[0]] + Off(l[1..], a)
  {}

  lemma WakingStart(regs: seq<seq<Reg>>, h: nat, e: Event)
    requires h < |regs|
    ensures Waking(regs, h, e, [], regs)
  {
    hide Off;
    assert ProcsOf([]) == {};
    forall g | 0 <= g < |regs| ensures Off(regs[g], {}) == regs[g] { OffNone(regs[g]); }
  }

  lemma WakingStep(regs: seq<seq<Reg>>, h: nat, e: Event, run: seq<nat>, now: seq<seq<Reg>>, d: nat, p: nat, r: Reg)
    requires Waking(regs, h, e, run, now) && r.proc == p && Matched(r, e)
    requires h < |now| && r in now[h]
    ensures Waking(regs, h, e, run + [p], OffAll(now, {p}))
  {
    hide Off;
    var a := ProcsOf(run);
    var run' := run + [p];
    assert ProcsOf(run') == a + {p};
    assert r in Off(regs[h], a);
    assert r in regs[h] && p !in run;
    assert p in Informed(regs[h], e);
    var now' := OffAll(now, {p});
    forall g | 0 <= g < |regs| ensures now'[g] == Off(regs[g], a + {p}) {
      OffTwice(regs[g], a, {p});
    }
    assert now' == OffAll(regs, ProcsOf(run'));
  }

  lemma WakingEnd(regs: seq<seq<Reg>>, h: nat, e: Event, run: seq<nat>, now: seq<seq<Reg>>)
    requires Waking(regs, h, e, run, now) && h < |now| && forall r :: r in now[h] ==> !Matched(r, e)
    ensures now == OffAll(regs, Informed(regs[h], e)) && forall p :: p in run <==> p in Informed(regs[h], e)
  {
    hide Off;
    var a := ProcsOf(run);
    forall p | p in Informed(regs[h], e) ensures p in run {
      var r :| r in regs[h] && Matched(r, e) && r.proc == p;
      assert r in Off(regs[h], a) <==> r.proc !in a;
    }
    assert a == Informed(regs[h], e);
  }

  lemma {:induction false} RegsIn(l: seq<nat>, owner: seq<nat>, slot: seq<nat>, events: seq<set<Event>>)
    requires |owner| == |slot| == |events| && forall i :: 0 <= i < |l| ==> l[i] < |events|
    ensures forall i :: 0 <= i < |l| ==> RegList(l, owner, slot, events)[i] == RegOf(l[i], owner, slot, events)
  {
    if l != [] {
      RegsIn(l[1..], owner, slot, events);
    }
  }

  lemma RegsAt(lists: seq<seq<nat>>, owner: seq<nat>, slot: seq<nat>, events: seq<set<Event>>, h: nat)
    requires |owner| == |slot| == |events| && h < |lists|
    requires forall h, i :: 0 <= h < |lists| && 0 <= i < |lists[h]| ==> lists[h][i] < |events|
    ensures RegsOf(lists, owner, slot, events)[h] == RegList(lists[h], owner, slot, events)
  {}

  lemma IsReg(lists: seq<seq<nat>>, owner: seq<nat>, slot: seq<nat>, events: seq<set<Event>>, h: nat, k: nat)
    requires |owner| == |slot| == |events| && h < |lists| && k < |lists[h]|
    requires forall h, i :: 0 <= h < |lists| && 0 <= i < |lists[h]| ==> lists[h][i] < |events|
    ensures RegOf(lists[h][k], owner, slot, events) in RegsOf(lists, owner, slot, events)[h]
  {
    RegsIn(lists[h], owner, slot, events);
    assert RegsOf(lists, owner, slot, events)[h][k] == RegOf(lists[h][k], owner, slot, events);
  }

  lemma RegsDropAll(heads: nat, arrays: seq<seq<nat>>, chain: seq<nat>, lists: seq<seq<nat>>, p: nat,
                    owner: seq<nat>, slot: seq<nat>, events: seq<set<Event>>)
    requires Chained(heads, arrays, chain, owner, slot) && p < |arrays| && |events| == |owner| == |slot|
    requires forall h, i :: 0 <= h < |lists| && 0 <= i < |lists[h]| ==> heads <= lists[h][i] < |events|
    ensures var l := DropAll(lists, SlotsOf(arrays[p]));
            && (forall h, i :: 0 <= h < |l| && 0 <= i < |l[h]| ==> l[h][i] < |events|)
            && RegsOf(l, owner, slot, events) == OffAll(RegsOf(lists, owner, slot, events), {p})
  {
    hide Chained, Drop, Off, SlotsOf, RegList;
    var l := DropAll(lists, SlotsOf(arrays[p]));
    forall h | 0 <= h < |lists|
      ensures forall i :: 0 <= i < |l[h]| ==> l[h][i] < |events|
      ensures RegList(l[h], owner, slot, events) == Off(RegList(lists[h], owner, slot, events), {p})
    {
      RegsDrop(heads, arrays, chain, lists[h], p, owner, slot, events);
    }
  }

  lemma SameRegs(lists: seq<seq<nat>>, owner: seq<nat>, slot: seq<nat>, events: seq<set<Event>>, events': seq<set<Event>>, heads: nat)
    requires |owner| == |slot| == |events| == |events'|
    requires forall h, i :: 0 <= h < |lists| && 0 <= i < |lists[h]| ==> heads <= lists[h][i] < |events|
    requires forall d :: heads <= d < |events| ==> events'[d] == events[d]
    ensures RegsOf(lists, owner, slot, events') == RegsOf(lists, owner, slot, events)
  {
    hide RegList;
    forall h | 0 <= h < |lists| ensures RegList(lists[h], owner, slot, events') == RegList(lists[h], owner, slot, events) {
      RegsIn(lists[h], owner, slot, events);
      RegsIn(lists[h], owner, slot, events');
    }
  }

  lemma {:induction false} DropShorter(l: seq<nat>, gone: set<nat>, k: nat)
    requires k < |l| && l[k] in gone
    ensures |Drop(l, gone)| < |l|
  {
    DropNoLonger(l[1..], gone);
    if l[0] !in gone { DropShorter(l[1..], gone, k - 1); }
  }

  lemma {:induction false} DropNoLonger(l: seq<nat>, gone: set<nat>)
    ensures |Drop(l, gone)| <= |l|
  {
    if l != [] { DropNoLonger(l[1..], gone); }
  }

  /** The two ways the loops of pollwakeup end: an empty list, and an event no one asked for. */
  lemma NoneLeft(l: seq<nat>, owner: seq<nat>, slot: seq<nat>, events: seq<set<Event>>, e: Event)
    requires l == [] && |owner| == |slot| == |events|
    ensures forall r :: r in RegList(l, owner, slot, events) ==> !Matched(r, e)
  {}

  lemma NoneAsked(l: seq<nat>, owner: seq<nat>, slot: seq<nat>, events: seq<set<Event>>, e: Event)
    requires |owner| == |slot| == |events| && forall i :: 0 <= i < |l| ==> l[i] < |events|
    requires e !in Union(l, events) && e != POLLHUP && e != POLLERR
    ensures forall r :: r in RegList(l, owner, slot, events) ==> !Matched(r, e)
  {
    RegsIn(l, owner, slot, events);
  }

  lemma RegsAdd(lists: seq<seq<nat>>, owner: seq<nat>, slot: seq<nat>, events: seq<set<Event>>, events': seq<set<Event>>,
                h: nat, d: nat)
    requires |owner| == |slot| == |events| == |events'| && h < |lists| && d < |events|
    requires forall g, i :: 0 <= g < |lists| && 0 <= i < |lists[g]| ==> lists[g][i] < |events| && events'[lists[g][i]] == events[lists[g][i]]
    ensures var lists' := lists[h := [d] + lists[h]];
            && (forall g, i :: 0 <= g < |lists'| && 0 <= i < |lists'[g]| ==> lists'[g][i] < |events'|)
            && RegsOf(lists', owner, slot, events') == Add(RegsOf(lists, owner, slot, events), h, Reg(owner[d], slot[d], events'[d]))
  {
    hide RegList;
    var lists' := lists[h := [d] + lists[h]];
    forall g | 0 <= g < |lists| ensures RegList(lists[g], owner, slot, events') == RegList(lists[g], owner, slot, events) {
      RegsIn(lists[g], owner, slot, events);
      RegsIn(lists[g], owner, slot, events');
    }
    RegsCons(d, lists[h], owner, slot, events');
  }

  lemma RegsCons(d: nat, l: seq<nat>, owner: seq<nat>, slot: seq<nat>, events: seq<set<Event>>)
    requires |owner| == |slot| == |events| && d < |events| && forall i :: 0 <= i < |l| ==> l[i] < |events|
    ensures RegList([d] + l, owner, slot, events) == [RegOf(d, owner, slot, events)] + RegList(l, owner, slot, events)
  {
    assert ([d] + l)[1..] == l;
  }

  lemma RegsDel(heads: nat, arrays: seq<seq<nat>>, chain: seq<nat>, lists: seq<seq<nat>>, h: nat, d: nat,
                owner: seq<nat>, slot: seq<nat>, events: seq<set<Event>>)
    requires Chained(heads, arrays, chain, owner, slot) && |events| == |owner| == |slot| == |chain| && h < |lists| && heads <= d < |events|
    requires forall h, i :: 0 <= h < |lists| && 0 <= i < |lists[h]| ==> heads <= lists[h][i] < |events|
    ensures owner[d] < |arrays|
    ensures var l := DropAll(lists, SlotsOf(arrays[owner[d]]));
            && (forall h, i :: 0 <= h < |l| && 0 <= i < |l[h]| ==> l[h][i] < |events|)
            && Del(RegsOf(lists, owner, slot, events), h, owner[d], slot[d]) ==
               if d in lists[h] then RegsOf(l, owner, slot, events) else RegsOf(lists, owner, slot, events)
  {
    hide Chained, SlotsOf, RegList, Drop, Off, OffAll;
    RingOf(heads, arrays, chain, owner, slot, d);
    RegsDropAll(heads, arrays, chain, lists, owner[d], owner, slot, events);
    RegsIn(lists[h], owner, slot, events);
    var regs := RegsOf(lists, owner, slot, events)[h];
    assert regs == RegList(lists[h], owner, slot, events);
    if d in lists[h] {
      var k :| 0 <= k < |lists[h]| && lists[h][k] == d;
      assert regs[k] in regs;
    } else {
      forall r | r in regs ensures !(r.proc == owner[d] && r.slot == slot[d]) {
        var k :| 0 <= k < |regs| && regs[k] == r;
        OnePlaceEach(heads, arrays, chain, owner, slot, d, lists[h][k]);
        assert lists[h][k] in lists[h];
      }
    }
  }

  lemma OnePlaceEach(heads: nat, arrays: seq<seq<nat>>, chain: seq<nat>, owner: seq<nat>, slot: seq<nat>, d: nat, e: nat)
    requires Chained(heads, arrays, chain, owner, slot) && heads <= d < |chain| && heads <= e < |chain|
    ensures |owner| == |slot| == |chain|
    ensures owner[d] == owner[e] && slot[d] == slot[e] ==> d == e
  {}
}
