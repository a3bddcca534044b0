/** Input character mapping as a transducer. */
module EmapSpec {
  import opened Common

  const E_ESC: Byte := 0

  const PAIRS := 763 // (E_TABSZ - E_DIND) / 2

  /** An index entry: a dead key, or the first key of a compose sequence, and where its outputs
      start; the outputs end where those of the next entry start. */
  datatype Ind = Ind(key: Byte, start: Byte)
  datatype Out = Out(key: Byte, out: Byte)

  /** A mapping table: the index entries up to e_cind are for dead keys, those from there to e_dctab
      for compose keys, the last of these only ending the one before it. `outs` is all that follows
      in the table, as pairs of bytes, the first `ndcout` being the outputs; `after` is what follows
      the table in memory. */
  datatype Table = Table(inmap: seq<Byte>, comp: Byte, beep: bool, ind: seq<Ind>, ndind: nat, outs: seq<Out>, ndcout: nat,
                         after: nat -> Out)

  /** What emchkmap establishes. */
  predicate Checked(t: Table)
  {
    && |t.inmap| == 256 && t.ndind <= |t.ind| && t.outs != [] && |t.ind| + |t.outs| == PAIRS && t.ndcout <= |t.outs|
    && (forall i :: 0 <= i < |t.ind| - 1 ==> t.ind[i].start <= t.ind[i + 1].start)
    && (t.ind != [] ==> t.ind[|t.ind| - 1].start <= t.ndcout)
  }

  /** e_ncind; -1, which finds nothing either, when there are no compose entries at all. */
  function Ncind(t: Table): (n: nat)
    requires t.ndind <= |t.ind|
    ensures t.ndind + n <= |t.ind|
  {
    if t.ndind < |t.ind| then |t.ind| - t.ndind - 1 else 0
  }

  function OutAt(t: Table, p: nat): Out
  {
    if p < |t.outs| then t.outs[p] else t.after(p - |t.outs|)
  }

  /** Where the outputs of entry `k` end. Behind the last entry come the bytes of the first output. */
  function EndOf(t: Table, k: nat): nat
    requires k < |t.ind| && t.outs != []
  {
    if k + 1 < |t.ind| then t.ind[k + 1].start else t.outs[0].out
  }

  lemma {:induction false} StartsAscend(t: Table, i: nat, j: nat)
    requires Checked(t) && i <= j < |t.ind|
    ensures t.ind[i].start <= t.ind[j].start
  {
    if i < j { StartsAscend(t, i, j - 1); }
  }

  datatype MState = Start | Dead | Comp1 | Comp2

  /** Between two characters: the mapping state and the character saved. */
  datatype State = State(m: MState, saved: Byte)

  /** The output for `c` in the stretch from `lo` to `hi`. */
  function FindOut(t: Table, lo: nat, hi: nat, c: Byte): Option<Byte>
    decreases hi - lo
  {
    if lo >= hi then None
    else if OutAt(t, lo).key == c then Some(OutAt(t, lo).out)
    else FindOut(t, lo + 1, hi, c)
  }

  /** The output for the key `key` of the n from `lo` on, followed by `c`. */
  function Find(t: Table, lo: nat, n: nat, key: Byte, c: Byte): Option<Byte>
    requires Checked(t) && lo + n <= |t.ind|
    decreases n
  {
    if n == 0 then None
    else if t.ind[lo].key == key then FindOut(t, t.ind[lo].start, EndOf(t, lo), c)
    else Find(t, lo + 1, n - 1, key, c)
  }

  function Emit(o: Option<Byte>): seq<Byte>
  {
    match o case None => [] case Some(c) => [c]
  }

  /** One character: the next state, what comes out (nothing or one character), and whether it
      was an error. */
  datatype Stepped = Stepped(next: State, out: seq<Byte>, err: bool)

  function Step(t: Table, s: State, c: Byte): (r: Stepped)
    requires Checked(t)
    ensures |r.out| <= 1
  {
    var mc := t.inmap[c];
    match s.m
    case Start =>
      if mc != E_ESC || c == E_ESC then Stepped(s, [mc], false)
      else if c == t.comp then Stepped(s.(m := Comp1), [], false)
      else Stepped(State(Dead, c), [], false)
    case Comp1 =>
      if mc == E_ESC && c == t.comp then Stepped(s, [], true)
      else Stepped(State(Comp2, if mc == E_ESC then c else mc), [], false)
    case Dead =>
      if mc == E_ESC then Stepped(s.(m := if c == t.comp then Comp1 else Start), [], true)
      else
        var o := Find(t, 0, t.ndind, s.saved, mc);
        Stepped(s.(m := Start), Emit(o), o == None)
    case Comp2 =>
      if mc == E_ESC && c == t.comp then Stepped(s.(m := Comp1), [], true)
      else
        var o := Find(t, t.ndind, Ncind(t), s.saved, if mc == E_ESC then c else mc);
        Stepped(s.(m := Start), Emit(o), o == None)
  }

  function Run(t: Table, s: State, cs: seq<Byte>): (r: Stepped)
    requires Checked(t)
  {
    if cs == [] then Stepped(s, [], false)
    else
      var n := |cs| - 1;
      var r := Run(t, s, cs[..n]);
      var q := Step(t, r.next, cs[n]);
      Stepped(q.next, r.out + q.out, r.err || q.err)
  }

  /** However input is cut into calls, the output and the state at the end are the same. */
  lemma {:induction false} RunInParts(t: Table, s: State, a: seq<Byte>, b: seq<Byte>)
    requires Checked(t)
    ensures var r := Run(t, s, a);
            var q := Run(t, r.next, b);
            Run(t, s, a + b) == Stepped(q.next, r.out + q.out, r.err || q.err)
  {
    hide Step, Checked;
    if b == [] {
      assert a + b == a;
    } else {
      var n := |b| - 1;
      RunInParts(t, s, a, b[..n]);
      assert (a + b)[..|a| + n] == a + b[..n] && (a + b)[|a| + n] == b[n];
    }
  }

  function RunCalls(t: Table, s: State, calls: seq<seq<Byte>>): (State, seq<Byte>)
    requires Checked(t)
  {
    if calls == [] then (s, [])
    else
      var n := |calls| - 1;
      var (s1, out) := RunCalls(t, s, calls[..n]);
      var r := Run(t, s1, calls[n]);
      (r.next, out + r.out)
  }

  function Concat(calls: seq<seq<Byte>>): seq<Byte>
  {
    if calls == [] then [] else Concat(calls[..|calls| - 1]) + calls[|calls| - 1]
  }

  lemma {:induction false} CallsDoNotMatter(t: Table, s: State, calls: seq<seq<Byte>>)
    requires Checked(t)
    ensures RunCalls(t, s, calls) == (Run(t, s, Concat(calls)).next, Run(t, s, Concat(calls)).out)
  {
    if calls != [] {
      var n := |calls| - 1;
      CallsDoNotMatter(t, s, calls[..n]);
      RunInParts(t, s, Concat(calls[..n]), calls[n]);
    }
  }

  /** The string may contract but does not expand. */
  lemma {:induction false} RunNoLonger(t: Table, s: State, cs: seq<Byte>)
    requires Checked(t)
    ensures |Run(t, s, cs).out| <= |cs|
  {
    if cs != [] { RunNoLonger(t, s, cs[..|cs| - 1]); }
  }

  /** Where no character is escaped, mapping is character by character. */
  lemma {:induction false} PlainIsPointwise(t: Table, s: State, cs: seq<Byte>)
    requires Checked(t) && s.m == Start && forall i :: 0 <= i < |cs| ==> t.inmap[cs[i]] != E_ESC || cs[i] == E_ESC
    ensures var r := Run(t, s, cs);
            && r.next == s && !r.err && |r.out| == |cs|
            && forall i :: 0 <= i < |cs| ==> r.out[i] == t.inmap[cs[i]]
  {
    if cs != [] { PlainIsPointwise(t, s, cs[..|cs| - 1]); }
  }

  /** ... and is undone by a map the other way. */
  lemma PlainRoundTrip(t: Table, s: State, u: Table, v: State, cs: seq<Byte>)
    requires Checked(t) && s.m == Start && Checked(u) && v.m == Start
    requires forall i :: 0 <= i < |cs| ==> t.inmap[cs[i]] != E_ESC && u.inmap[t.inmap[cs[i]]] == cs[i] != E_ESC
    ensures Run(u, v, Run(t, s, cs).out) == Stepped(v, cs, false)
  {
    hide Run;
    PlainIsPointwise(t, s, cs);
    PlainIsPointwise(u, v, Run(t, s, cs).out);
  }

  /** A dead key followed by a mapped key gives the one output the table has for the pair, and
      mapping starts afresh. */
  lemma DeadPair(t: Table, s: State, d: Byte, c: Byte)
    requires Checked(t) && s.m == Start && d != E_ESC && t.inmap[d] == E_ESC && d != t.comp && t.inmap[c] != E_ESC
    ensures var first := Step(t, s, d);
            var o := Find(t, 0, t.ndind, d, t.inmap[c]);
            && first.out == [] && !first.err
            && Step(t, first.next, c) == Stepped(State(Start, d), Emit(o), o == None)
  {}

  /** The characters an escape sequence takes literally: those not escaped are mapped first. */
  function Meant(t: Table, c: Byte): Byte
    requires |t.inmap| == 256
  {
    if t.inmap[c] == E_ESC then c else t.inmap[c]
  }

  predicate ComposeKey(t: Table, c: Byte)
    requires |t.inmap| == 256
  {
    c == t.comp && t.inmap[c] == E_ESC && c != E_ESC
  }

  /** The compose key followed by two characters gives the one output the table has for the pair, among
      the compose entries, and mapping starts afresh. */
  lemma ComposePair(t: Table, s: State, a: Byte, b: Byte)
    requires Checked(t) && s.m == Start && ComposeKey(t, t.comp) && a != t.comp && b != t.comp
    ensures var first := Step(t, s, t.comp);
            var second := Step(t, first.next, a);
            var o := Find(t, t.ndind, Ncind(t), Meant(t, a), Meant(t, b));
            && first.out == [] && !first.err && second.out == [] && !second.err
            && Step(t, second.next, b) == Stepped(State(Start, Meant(t, a)), Emit(o), o == None)
  {}

  /** The compose key in the middle of a sequence is an error and begins a new one; a second dead key is
      an error, and both are lost. */
  lemma SequenceBroken(t: Table, s: State, c: Byte)
    requires Checked(t) && s.m != Start && t.inmap[c] == E_ESC
    ensures c == t.comp ==> Step(t, s, c) == Stepped(State(Comp1, s.saved), [], true)
    ensures c != t.comp && s.m == Dead ==> Step(t, s, c) == Stepped(State(Start, s.saved), [], true)
  {}

  /** Two characters that are not escaped bring mapping back to its start, whatever came before. */
  lemma Settles(t: Table, s: State, c: Byte, d: Byte)
    requires Checked(t) && t.inmap[c] != E_ESC && t.inmap[d] != E_ESC
    ensures Step(t, Step(t, s, c).next, d).next.m == Start
  {}

  /** Nothing comes out while a sequence is incomplete, and an error puts nothing out. */
  lemma NothingEarly(t: Table, s: State, c: Byte)
    requires Checked(t)
    ensures var r := Step(t, s, c); (r.next.m != Start || r.err) ==> r.out == []
    ensures var r := Step(t, s, c); r.next.m == Start && !r.err ==> |r.out| == 1
  {}

  /** `p` is the first place of the stretch from `lo` to `hi` with an output for `c`. */
  predicate FirstOut(t: Table, lo: nat, hi: nat, c: Byte, p: nat)
  {
    lo <= p < hi && OutAt(t, p).key == c && forall q :: lo <= q < p ==> OutAt(t, q).key != c
  }

  lemma {:induction false} FindOutIsFirst(t: Table, lo: nat, hi: nat, c: Byte)
    ensures forall p :: FirstOut(t, lo, hi, c, p) ==> FindOut(t, lo, hi, c) == Some(OutAt(t, p).out)
    ensures FindOut(t, lo, hi, c) == None <==> forall p :: lo <= p < hi ==> OutAt(t, p).key != c
    decreases hi - lo
  {
    if lo < hi && OutAt(t, lo).key != c {
      FindOutIsFirst(t, lo + 1, hi, c);
      forall p | FirstOut(t, lo, hi, c, p) ensures FirstOut(t, lo + 1, hi, c, p) {}
    }
  }

  /** A key the table has no entry for gives nothing. */
  lemma {:induction false} FindNone(t: Table, lo: nat, n: nat, key: Byte, c: Byte)
    requires Checked(t) && lo + n <= |t.ind| && forall i :: lo <= i < lo + n ==> t.ind[i].key != key
    ensures Find(t, lo, n, key, c) == None
    decreases n
  {
    if n > 0 { FindNone(t, lo + 1, n - 1, key, c); }
  }

  lemma RunNone(t: Table, s: State, cs: seq<Byte>)
    requires Checked(t)
    ensures Run(t, s, cs[..0]) == Stepped(s, [], false)
  {}

  lemma RunMore(t: Table, s: State, cs: seq<Byte>, n: nat)
    requires Checked(t) && n < |cs|
    ensures var r := Run(t, s, cs[..n]);
            var q := Step(t, r.next, cs[n]);
            Run(t, s, cs[..n + 1]) == Stepped(q.next, r.out + q.out, r.err || q.err)
  {
    assert cs[..n + 1][..n] == cs[..n];
  }

  /** What the two searches find: the first entry with the key, and in its stretch the first
      output for the character. */
  lemma {:induction false} FindIsFirst(t: Table, lo: nat, n: nat, key: Byte, c: Byte, k: nat)
    requires Checked(t) && lo + n <= |t.ind| && lo <= k < lo + n && t.ind[k].key == key
    requires forall i :: lo <= i < k ==> t.ind[i].key != key
    ensures Find(t, lo, n, key, c) == FindOut(t, t.ind[k].start, EndOf(t, k), c)
    decreases n
  {
    if lo < k { FindIsFirst(t, lo + 1, n - 1, key, c, k); }
  }

  // ------------------------------------------------- staying inside the table

  /** One past the last output the search in a stretch looks at. */
  function Probed(t: Table, lo: nat, hi: nat, c: Byte): nat
    decreases hi - lo
  {
    if lo >= hi then lo
    else if OutAt(t, lo).key == c then lo + 1
    else Probed(t, lo + 1, hi, c)
  }

  predicate HasOut(t: Table, lo: nat, c: Byte)
  {
    exists p :: lo <= p < |t.outs| && t.outs[p].key == c
  }

  ghost predicate HasAll(t: Table, lo: nat)
  {
    forall c: Byte :: HasOut(t, lo, c)
  }

  /** A search stays inside the table exactly when its stretch does, or the character is found
      before the table ends. */
  lemma {:induction false} ProbedInsideIff(t: Table, lo: nat, hi: nat, c: Byte)
    requires lo <= |t.outs|
    ensures Probed(t, lo, hi, c) <= |t.outs| <==> hi <= |t.outs| || HasOut(t, lo, c)
    decreases hi - lo
  {
    if lo < hi && lo < |t.outs| {
      if t.outs[lo].key != c {
        ProbedInsideIff(t, lo + 1, hi, c);
        assert HasOut(t, lo, c) <==> HasOut(t, lo + 1, c);
      }
    } else if lo < hi {
      ProbedBeyond(t, lo, hi, c);
    }
  }

  lemma {:induction false} ProbedBeyond(t: Table, lo: nat, hi: nat, c: Byte)
    ensures Probed(t, lo, hi, c) >= lo && (lo < hi ==> Probed(t, lo, hi, c) > lo)
    decreases hi - lo
  {
    if lo < hi { ProbedBeyond(t, lo + 1, hi, c); }
  }

  /** Entry `k` is one the searches may stop at. */
  predicate Sought(t: Table, k: nat)
    requires Checked(t)
  {
    k < t.ndind + Ncind(t)
  }

  /** No search, whatever is typed, looks beyond the table. */
  ghost predicate StaysInside(t: Table)
    requires Checked(t)
  {
    forall k: nat, c: Byte :: Sought(t, k) ==> Probed(t, t.ind[k].start, EndOf(t, k), c) <= |t.outs|
  }

  /** Dead keys, no entry behind the last of them, and the byte found there as its end too large. */
  predicate OpenEnded(t: Table)
    requires Checked(t)
  {
    t.ind != [] && t.ndind == |t.ind| && t.outs[0].out > |t.outs|
  }

  /** That is so for every table emchkmap accepts but for the open-ended ones, and for these only
      when every character has an output before the table ends. */
  lemma StaysInsideIff(t: Table)
    requires Checked(t)
    ensures StaysInside(t) <==> (OpenEnded(t) ==> HasAll(t, t.ind[|t.ind| - 1].start))
  {
    hide HasOut, Probed;
    if OpenEnded(t) ==> HasAll(t, t.ind[|t.ind| - 1].start) {
      forall k: nat, c: Byte | Sought(t, k) ensures Probed(t, t.ind[k].start, EndOf(t, k), c) <= |t.outs| {
        SoughtInside(t, k, c);
        if OpenEnded(t) && k + 1 == |t.ind| { assert HasOut(t, t.ind[k].start, c); }
      }
    } else {
      var k: nat := |t.ind| - 1;
      var c: Byte :| !HasOut(t, t.ind[k].start, c);
      SoughtInside(t, k, c);
      assert Sought(t, k) && Probed(t, t.ind[k].start, EndOf(t, k), c) > |t.outs|;
    }
  }

  lemma SoughtInside(t: Table, k: nat, c: Byte)
    requires Checked(t) && k < |t.ind|
    ensures t.ind[k].start <= |t.outs| && (k + 1 < |t.ind| ==> EndOf(t, k) <= |t.outs|)
    ensures Probed(t, t.ind[k].start, EndOf(t, k), c) <= |t.outs| <==>
            EndOf(t, k) <= |t.outs| || HasOut(t, t.ind[k].start, c)
  {
    StartsAscend(t, k, |t.ind| - 1);
    ProbedInsideIff(t, t.ind[k].start, EndOf(t, k), c);
    if k + 1 < |t.ind| { StartsAscend(t, k + 1, |t.ind| - 1); }
  }

  /** Then mapping does not depend on what follows the table. */
  lemma {:induction false} FindOutInside(t: Table, u: Table, lo: nat, hi: nat, c: Byte)
    requires u == t.(after := u.after) && Probed(t, lo, hi, c) <= |t.outs|
    ensures FindOut(u, lo, hi, c) == FindOut(t, lo, hi, c)
    decreases hi - lo
  {
    if lo < hi {
      ProbedBeyond(t, lo, hi, c);
      if OutAt(t, lo).key != c { FindOutInside(t, u, lo + 1, hi, c); }
    }
  }

  lemma {:induction false} FindInside(t: Table, u: Table, lo: nat, n: nat, key: Byte, c: Byte)
    requires Checked(t) && u == t.(after := u.after) && StaysInside(t) && lo + n <= t.ndind + Ncind(t)
    ensures Find(u, lo, n, key, c) == Find(t, lo, n, key, c)
    decreases n
  {
    hide StaysInside;
    if n > 0 {
      if t.ind[lo].key == key {
        EntryInside(t, lo, c);
        FindOutInside(t, u, t.ind[lo].start, EndOf(t, lo), c);
      } else {
        FindInside(t, u, lo + 1, n - 1, key, c);
      }
    }
  }

  lemma EntryInside(t: Table, k: nat, c: Byte)
    requires Checked(t) && StaysInside(t) && k < t.ndind + Ncind(t)
    ensures k < |t.ind| && Probed(t, t.ind[k].start, EndOf(t, k), c) <= |t.outs|
  {
    assert Sought(t, k);
  }

  lemma {:induction false} RunInside(t: Table, u: Table, s: State, cs: seq<Byte>)
    requires Checked(t) && u == t.(after := u.after) && StaysInside(t)
    ensures Run(u, s, cs) == Run(t, s, cs)
  {
    if cs != [] {
      hide Find, Checked, StaysInside, Run;
      var n := |cs| - 1;
      RunInside(t, u, s, cs[..n]);
      RunLast(t, s, cs);
      RunLast(u, s, cs);
      StepInside(t, u, Run(t, s, cs[..n]).next, cs[n]);
    }
  }

  lemma StepInside(t: Table, u: Table, s: State, c: Byte)
    requires Checked(t) && u == t.(after := u.after) && StaysInside(t)
    ensures Checked(u) && Step(u, s, c) == Step(t, s, c)
  {
    hide Find, StaysInside;
    var mc := t.inmap[c];
    FindInside(t, u, 0, t.ndind, s.saved, mc);
    FindInside(t, u, t.ndind, Ncind(t), s.saved, if mc == E_ESC then c else mc);
  }

  lemma RunLast(t: Table, s: State, cs: seq<Byte>)
    requires Checked(t) && cs != []
    ensures var n := |cs| - 1;
            var r := Run(t, s, cs[..n]);
            var q := Step(t, r.next, cs[n]);
            Run(t, s, cs) == Stepped(q.next, r.out + q.out, r.err || q.err)
  {}

  /** 759 dead keys and 4 pairs behind them, the first of which reads as an end at 255: emchkmap
      accepts it, and the last dead key followed by a character mapped to 9 is looked up in the
      memory behind the table. */
  lemma StraysExample(inmap: seq<Byte>, after: nat -> Out)
    requires |inmap| == 256
    ensures var t := Table(inmap, 0, false, seq(759, _ => Ind(1, 0)), 759, seq(4, _ => Out(0, 255)), 4, after);
            Checked(t) && !StaysInside(t) && Probed(t, 0, 255, 9) > |t.outs|
            && (after(0) == Out(9, 7) ==> Find(t, 758, 1, 1, 9) == Some(7))
  {
    var t := Table(inmap, 0, false, seq(759, _ => Ind(1, 0)), 759, seq(4, _ => Out(0, 255)), 4, after);
    ProbedInsideIff(t, 0, 255, 9);
    assert Sought(t, 758) && EndOf(t, 758) == 255;
    assert Find(t, 758, 1, 1, 9) == FindOut(t, 0, 255, 9) == FindOut(t, 1, 255, 9) == FindOut(t, 2, 255, 9) == FindOut(t, 3, 255, 9)
           == FindOut(t, 4, 255, 9);
  }
}

/** io/emap.c: the tty and STREAMS routines, which map a buffer in place, and the table of maps. */
module Emap {
  import opened Common
  import opened EmapSpec

  class Mapper {
    const table: Table
    var mstate: MState   // t_mstate
    var mchar: Byte      // t_mchar
    var merr: bool       // t_merr

    ghost function Now(): State
      reads this
    {
      State(mstate, mchar)
    }

    constructor (table: Table)
      requires Checked(table)
      ensures this.table == table && mstate == Start
    {
      this.table := table;
      mstate, mchar, merr := Start, 0, false;
    }

    /** The search at `dcsearch`, among the n index entries from `lo` on. */
    method Search(lo: nat, n: nat, mc: Byte) returns (o: Option<Byte>)
      requires Checked(table) && lo + n <= |table.ind|
      ensures o == Find(table, lo, n, mchar, mc)
    {
      var i: nat, e: nat := n, lo;
      while i > 0 && table.ind[e].key != mchar
        invariant i <= n && e == lo + (n - i)
        invariant Find(table, lo, n, mchar, mc) == Find(table, e, i, mchar, mc)
      {
        i := i - 1;
        e := e + 1;
      }
      if i == 0 {
        return None;
      }
      ghost var end := EndOf(table, e);
      var k: int, p: nat := EndOf(table, e) - table.ind[e].start, table.ind[e].start;
      while k > 0 && OutAt(table, p).key != mc
        invariant p + k == end && (k < 0 ==> p == table.ind[e].start)
        invariant FindOut(table, p, end, mc) == Find(table, lo, n, mchar, mc)
      {
        k := k - 1;
        p := p + 1;
      }
      if k <= 0 {
        return None;
      }
      return Some(OutAt(table, p).out);
    }

    /** The switch: one character taken, the state moved on. */
    method Take(c: Byte) returns (o: Option<Byte>, err: bool)
      requires Checked(table)
      modifies this`mstate, this`mchar
      ensures Stepped(Now(), Emit(o), err) == Step(table, old(Now()), c)
    {
      var mc := table.inmap[c];
      o, err := None, false;
      match mstate {
        case Start =>
          if mc != E_ESC || c == E_ESC {
            o := Some(mc);
          } else if c == table.comp {
            mstate := Comp1;
          } else {
            mchar := c;
            mstate := Dead;
          }
        case Comp1 =>
          if mc == E_ESC {
            if c == table.comp {
              err := true;
            } else {
              mchar := c;
              mstate := Comp2;
            }
          } else {
            mchar := mc;
            mstate := Comp2;
          }
        case Dead =>
          if mc == E_ESC {
            err := true;
            mstate := if c == table.comp then Comp1 else Start;
            return;
          }
          o := Search(0, table.ndind, mc);
          err := o == None;
          mstate := Start;
        case Comp2 =>
          if mc == E_ESC {
            if c == table.comp {
              err := true;
              mstate := Comp1;
              return;
            }
            mc := c;
          }
          o := Search(table.ndind, Ncind(table), mc);
          err := o == None;
          mstate := Start;
      }
    }

    /** emmapin: the first nc characters of the buffer, counted down; the new length is returned.
        The write position never passes the read position. */
    method EmMapIn(cp: array<Byte>, nc0: int) returns (n: nat)
      requires Checked(table) && nc0 <= cp.Length
      modifies this, cp
      ensures var input := if nc0 <= 0 then [] else old(cp[..nc0]);
              var r := Run(table, old(Now()), input);
              && n == |r.out| && n <= |input| && cp[..n] == r.out && Now() == r.next
              && merr == (r.err && table.beep)
      ensures forall i :: 0 <= i < cp.Length && i >= nc0 ==> cp[i] == old(cp[i])
    {
      hide Run, Step, Checked;
      ghost var b, s := cp[..], Now();
      RunNone(table, s, b);
      var nc, icp, ocp, err := nc0, 0, 0, false;
      while nc > 0
        invariant icp + nc == nc0 || (nc0 <= 0 && nc == nc0 && icp == 0)
        invariant 0 <= nc || nc == nc0
        invariant 0 <= ocp <= icp <= cp.Length && |b| == cp.Length
        invariant forall i :: icp <= i < cp.Length ==> cp[i] == b[i]
        invariant Stepped(Now(), cp[..ocp], err) == Run(table, s, b[..icp])
      {
        nc := nc - 1;
        var c := cp[icp];
        icp := icp + 1;
        RunMore(table, s, b, icp - 1);
        var o, e := Take(c);
        err := err || e;
        if o.Some? {
          cp[ocp] := o.value;
          ocp := ocp + 1;
        }
      }
      merr := err && table.beep;
      n := ocp;
      RunNoLonger(table, s, b[..icp]);
      assert b[..icp] == if nc0 <= 0 then [] else b[..nc0];
    }

    /** What comes out, if anything, behind what came out before, from `lo` on. */
    method PutOut(data: array<Byte>, ghost lo: nat, ocp: nat, o: Option<Byte>) returns (next: nat)
      requires lo <= ocp < data.Length
      modifies data
      ensures next == ocp + |Emit(o)| && data[lo..next] == old(data[lo..ocp]) + Emit(o)
      ensures forall i :: next <= i < data.Length ==> data[i] == old(data[i])
    {
      next := ocp;
      if o.Some? {
        data[ocp] := o.value;
        next := ocp + 1;
      }
    }

    /** str_emmapin: all of a message block, whose write pointer moves back. */
    method StrEmMapIn(b: MessageBlock) returns (n: nat)
      requires Checked(table) && b.Valid()
      modifies this, b, b.data
      ensures b.Valid() && b.rptr == old(b.rptr)
      ensures var r := Run(table, old(Now()), old(b.Text()));
              && n == |r.out| && n <= |old(b.Text())| && b.Text() == r.out && Now() == r.next
              && merr == (r.err && table.beep)
    {
      hide Run, Step, Checked;
      ghost var t, s := b.Text(), Now();
      RunNone(table, s, t);
      var cp, ocp, err := b.rptr, b.rptr, false;
      while cp < b.wptr
        invariant b.rptr == old(b.rptr) && b.wptr == old(b.wptr)
        invariant b.rptr <= ocp <= cp <= b.wptr <= b.data.Length && |t| == b.wptr - b.rptr
        invariant forall i :: cp <= i < b.wptr ==> b.data[i] == t[i - b.rptr]
        invariant Stepped(Now(), b.data[b.rptr..ocp], err) == Run(table, s, t[..cp - b.rptr])
      {
        var c := b.data[cp];
        cp := cp + 1;
        RunMore(table, s, t, cp - 1 - b.rptr);
        var o, e := Take(c);
        err := err || e;
        ocp := PutOut(b.data, b.rptr, ocp, o);
      }
      merr := err && table.beep;
      b.wptr := ocp;
      n := ocp - b.rptr;
      assert t[..|t|] == t;
    }
  }

  /** An mblk: what is between b_rptr and b_wptr. */
  class MessageBlock {
    const data: array<Byte>
    var rptr: nat
    var wptr: nat

    ghost predicate Valid()
      reads this
    {
      rptr <= wptr <= data.Length
    }

    ghost function Text(): seq<Byte>
      requires Valid()
      reads this, data
    {
      data[rptr..wptr]
    }

    constructor (data: array<Byte>, rptr: nat, wptr: nat)
      requires rptr <= wptr <= data.Length
      ensures Valid() && this.data == data && this.rptr == rptr && this.wptr == wptr
    {
      this.data, this.rptr, this.wptr := data, rptr, wptr;
    }
  }
}

/** The shared maps: identical maps are kept once, counted, and freed with their last user. */
module MapTable {
  import opened Common
  import opened EmapSpec

  const ENAVAIL := 25

  /** A slot of emap[]: its use count and, while that is not zero, its map. */
  datatype Slot = Slot(count: int, bytes: seq<Byte>)

  /** How many lines use slot k; a line without a map has t_mstate ES_NULL. */
  function Users(lines: seq<Option<nat>>, k: nat): nat
  {
    if lines == [] then 0
    else Users(lines[..|lines| - 1], k) + if lines[|lines| - 1] == Some(k) then 1 else 0
  }

  lemma {:induction false} UsersUpdate(lines: seq<Option<nat>>, p: nat, v: Option<nat>, k: nat)
    requires p < |lines|
    ensures Users(lines[p := v], k) ==
            Users(lines, k) - (if lines[p] == Some(k) then 1 else 0) + (if v == Some(k) then 1 else 0)
  {
    var n := |lines| - 1;
    if p < n {
      UsersUpdate(lines[..n], p, v, k);
      assert lines[p := v][..n] == lines[..n][p := v];
    } else {
      assert lines[p := v][..n] == lines[..n];
    }
  }

  lemma {:induction false} UsersNone(lines: seq<Option<nat>>, k: nat)
    ensures Users(lines, k) == 0 <==> forall p :: 0 <= p < |lines| ==> lines[p] != Some(k)
  {
    if lines != [] { UsersNone(lines[..|lines| - 1], k); }
  }

  /** Counts are right, and no two slots in use hold the same map. */
  ghost predicate Shared(slots: seq<Slot>, lines: seq<Option<nat>>)
  {
    && (forall k: nat :: k < |slots| ==> slots[k].count == Users(lines, k))
    && (forall p :: 0 <= p < |lines| && lines[p].Some? ==> lines[p].value < |slots|)
    && (forall j, k :: 0 <= j < k < |slots| && slots[j].count > 0 && slots[k].count > 0 ==> slots[j].bytes != slots[k].bytes)
  }

  /** The map a line uses. */
  function MapOf(slots: seq<Slot>, lines: seq<Option<nat>>, p: nat): Option<seq<Byte>>
    requires p < |lines|
  {
    if lines[p].Some? && lines[p].value < |slots| then Some(slots[lines[p].value].bytes) else None
  }

  /** Another map of one line's, and everyone else's kept. */
  ghost predicate Remapped(slots0: seq<Slot>, lines0: seq<Option<nat>>, slots: seq<Slot>, lines: seq<Option<nat>>,
                           p: nat, m: Option<seq<Byte>>)
  {
    && |lines| == |lines0| && p < |lines0|
    && MapOf(slots, lines, p) == m
    && forall q: nat :: q < |lines0| && q != p ==> MapOf(slots, lines, q) == MapOf(slots0, lines0, q)
  }

  class Maps {
    var slots: seq<Slot>
    var lines: seq<Option<nat>>   // t_mp of each line

    ghost predicate Valid()
      reads this
    {
      Shared(slots, lines)
    }

    /** emaddmap: the slot with this map, its count raised; or the first free slot, given the
        map and a count of one. */
    method AddMap(bytes: seq<Byte>) returns (k: Option<nat>)
      modifies this`slots
      ensures k == None ==> slots == old(slots) && forall i :: 0 <= i < |slots| ==> slots[i].count != 0 && slots[i].bytes != bytes
      ensures k.Some? ==> k.value < |old(slots)|
      ensures k.Some? && old(slots)[k.value].count != 0 ==>
                old(slots)[k.value].bytes == bytes && slots == old(slots)[k.value := Slot(old(slots)[k.value].count + 1, bytes)]
      ensures k.Some? && old(slots)[k.value].count == 0 ==> slots == old(slots)[k.value := Slot(1, bytes)]
      ensures k.Some? && old(slots)[k.value].count == 0 ==>
                forall i :: 0 <= i < |old(slots)| && old(slots)[i].count != 0 ==> old(slots)[i].bytes != bytes
    {
      var free: Option<nat> := None;
      var i := 0;
      while i < |slots|
        invariant i <= |slots| && slots == old(slots)
        invariant forall j :: 0 <= j < i && slots[j].count != 0 ==> slots[j].bytes != bytes
        invariant free == None ==> forall j :: 0 <= j < i ==> slots[j].count != 0
        invariant free.Some? ==> free.value < i && slots[free.value].count == 0
      {
        if slots[i].count == 0 {
          if free == None {
            free := Some(i);
          }
        } else if slots[i].bytes == bytes {
          slots := slots[i := slots[i].(count := slots[i].count + 1)];
          return Some(i);
        }
        i := i + 1;
      }
      if free.Some? {
        slots := slots[free.value := Slot(1, bytes)];
      }
      return free;
    }

    /** emunmap, without the waiting and flushing. */
    method Unmap(p: nat)
      requires Valid() && p < |lines|
      modifies this
      ensures Valid() && Remapped(old(slots), old(lines), slots, lines, p, None) && |slots| == |old(slots)|
      ensures lines == old(lines)[p := None]
      ensures old(lines)[p] == None ==> slots == old(slots)
      ensures old(lines)[p].Some? ==> var k := old(lines)[p].value;
                k < |slots| && slots == old(slots)[k := old(slots)[k].(count := old(slots)[k].count - 1)]
    {
      if lines[p] == None {
        assert lines == lines[p := None];
        return;
      }
      var k := lines[p].value;
      CountsAfter(slots, lines, p, None);
      lines := lines[p := None];
      slots := slots[k := slots[k].(count := slots[k].count - 1)];
    }

    /** emsetmap and str_emsetmap; `usable` is what the table check says of the map. It fails
        only when every slot holds some other map that another line uses too, and then the
        line keeps the map it had. */
    method SetMap(p: nat, bytes: seq<Byte>, usable: bool) returns (error: nat)
      requires Valid() && p < |lines|
      modifies this
      ensures Valid()
      ensures error == 0 ==> Remapped(old(slots), old(lines), slots, lines, p, Some(bytes))
      ensures error != 0 ==> slots == old(slots) && lines == old(lines)
      ensures error == EINVAL <==> !usable
      ensures error == ENAVAIL <==>
                && usable
                && (forall i :: 0 <= i < |old(slots)| ==> old(slots)[i].count != 0 && old(slots)[i].bytes != bytes)
                && (old(lines)[p] == None || old(slots)[old(lines)[p].value].count != 1)
      ensures error in {0, EINVAL, ENAVAIL}
    {
      if !usable {
        return EINVAL;
      }
      if lines[p].Some? && slots[lines[p].value].count == 1 {
        Unmap(p);
      }
      ghost var slots1, lines1 := slots, lines;
      var k := AddMap(bytes);
      if k == None {
        return ENAVAIL;
      }
      // between emaddmap and the assignment of t_mp the new map counts a user it has not got
      Attach(p, k.value, slots1);
      return 0;
    }

    /** The end of emsetmap: off the old map, onto the new. */
    method Attach(p: nat, k: nat, ghost slots0: seq<Slot>)
      requires p < |lines| && Shared(slots0, lines) && Raised(slots0, slots, k)
      modifies this
      ensures Valid() && Remapped(slots0, old(lines), slots, lines, p, Some(old(slots)[k].bytes))
    {
      ghost var mid := slots;
      if lines[p].Some? {
        var j := lines[p].value;
        slots := slots[j := slots[j].(count := slots[j].count - 1)];
      }
      Moved(slots0, mid, slots, lines, p, k);
      lines := lines[p := Some(k)];
    }

    /** emdupmap: line `to` gets the map of line `from`, or none. */
    method DupMap(from: nat, to: nat)
      requires Valid() && from < |lines| && to < |lines|
      modifies this
      ensures Valid() && Remapped(old(slots), old(lines), slots, lines, to, MapOf(old(slots), old(lines), from))
    {
      if from == to {
        return;
      }
      if lines[from] == None {
        Unmap(to);
        return;
      }
      var k := lines[from].value;
      ghost var slots0 := slots;
      StillInUse(slots, lines, from);
      slots := slots[k := slots[k].(count := slots[k].count + 1)];
      Attach(to, k, slots0);
    }
  }

  /** One more user counted at slot k than there is. */
  ghost predicate Raised(slots0: seq<Slot>, slots: seq<Slot>, k: nat)
  {
    && |slots| == |slots0| && k < |slots|
    && slots[k].count == slots0[k].count + 1
    && (slots0[k].count != 0 ==> slots[k].bytes == slots0[k].bytes)
    && (forall i :: 0 <= i < |slots| && i != k ==> slots[i] == slots0[i])
    && (forall i :: 0 <= i < |slots| && i != k && slots0[i].count != 0 ==> slots0[i].bytes != slots[k].bytes)
  }

  lemma CountsAfter(slots: seq<Slot>, lines: seq<Option<nat>>, p: nat, v: Option<nat>)
    requires Shared(slots, lines) && p < |lines|
    ensures forall k: nat :: k < |slots| ==>
              Users(lines[p := v], k) == slots[k].count - (if lines[p] == Some(k) then 1 else 0) + (if v == Some(k) then 1 else 0)
  {
    forall k: nat | k < |slots|
      ensures Users(lines[p := v], k) == slots[k].count - (if lines[p] == Some(k) then 1 else 0) + (if v == Some(k) then 1 else 0)
    {
      UsersUpdate(lines, p, v, k);
    }
  }

  lemma StillInUse(slots: seq<Slot>, lines: seq<Option<nat>>, p: nat)
    requires Shared(slots, lines) && p < |lines| && lines[p].Some?
    ensures lines[p].value < |slots| && slots[lines[p].value].count > 0
  {
    UsersNone(lines, lines[p].value);
  }

  lemma Moved(slots0: seq<Slot>, mid: seq<Slot>, slots: seq<Slot>, lines: seq<Option<nat>>, p: nat, k: nat)
    requires p < |lines| && Shared(slots0, lines) && Raised(slots0, mid, k)
    requires slots == if lines[p].Some? then mid[lines[p].value := mid[lines[p].value].(count := mid[lines[p].value].count - 1)]
                      else mid
    ensures Shared(slots, lines[p := Some(k)])
    ensures Remapped(slots0, lines, slots, lines[p := Some(k)], p, Some(mid[k].bytes))
  {
    var after := lines[p := Some(k)];
    CountsAfter(slots0, lines, p, Some(k));
    forall q: nat | q < |lines| && q != p ensures MapOf(slots, after, q) == MapOf(slots0, lines, q) {
      if lines[q].Some? { StillInUse(slots0, lines, q); }
    }
    assert forall i: nat :: i < |slots| ==> slots[i].bytes == mid[i].bytes && slots[i].count <= mid[i].count;
  }
}
