/** Character lists as sequences of blocks, and the free list as a sequence of block numbers. */
module ClistSpec {
  import opened Common

  const CLSIZE := 64

  /** A queued block: its number, where its characters start, and the characters. */
  datatype Block = Block(id: nat, first: nat, live: seq<Byte>)

  datatype Clist = Clist(queue: seq<Block>, free: seq<nat>)

  /** What every block on a queue satisfies: it fits, and it is not empty. */
  predicate Fits(b: Block)
  {
    b.live != [] && b.first + |b.live| <= CLSIZE
  }

  predicate Proper(s: Clist)
  {
    forall i :: 0 <= i < |s.queue| ==> Fits(s.queue[i])
  }

  /** The characters queued, c_cc of them. */
  function Chars(q: seq<Block>): seq<Byte>
  {
    if q == [] then [] else q[0].live + Chars(q[1..])
  }

  function Ids(q: seq<Block>): (r: seq<nat>)
    ensures |r| == |q|
  {
    seq(|q|, i requires 0 <= i < |q| => q[i].id)
  }

  /** Every block the queue and the free list have between them. */
  function Blocks(s: Clist): multiset<nat>
  {
    multiset(Ids(s.queue)) + multiset(s.free)
  }

  // ------------------------------------------------- one character at a time

  /** getc: the character, or -1. */
  function GetC(s: Clist): (int, Clist)
    requires Proper(s)
  {
    if s.queue == [] then (-1, s)
    else
      var b := s.queue[0];
      var c: int := b.live[0];
      (c,
       if |b.live| == 1 then Clist(s.queue[1..], [b.id] + s.free)
       else Clist([Block(b.id, b.first + 1, b.live[1..])] + s.queue[1..], s.free))
  }

  predicate Full(q: seq<Block>)
  {
    q == [] || q[|q| - 1].first + |q[|q| - 1].live| == CLSIZE
  }

  /** putc: whether there was room, and the list. */
  function PutC(s: Clist, c: Byte): (bool, Clist)
  {
    if Full(s.queue) then
      if s.free == [] then (false, s)
      else (true, Clist(s.queue + [Block(s.free[0], 0, [c])], s.free[1..]))
    else
      var n := |s.queue| - 1;
      (true, Clist(s.queue[..n] + [s.queue[n].(live := s.queue[n].live + [c])], s.free))
  }

  lemma {:induction false} CharsApart(p: seq<Block>, q: seq<Block>)
    ensures Chars(p + q) == Chars(p) + Chars(q)
  {
    if p == [] {
      assert p + q == q;
    } else {
      assert (p + q)[1..] == p[1..] + q;
      CharsApart(p[1..], q);
    }
  }

  lemma CharsOne(b: Block)
    ensures Chars([b]) == b.live
  {
    assert [b][1..] == [];
  }

  /** First in, first out, and no block lost. */
  lemma GetIsFirst(s: Clist)
    requires Proper(s)
    ensures var (c, t) := GetC(s);
            && Proper(t) && Blocks(t) == Blocks(s)
            && (if Chars(s.queue) == [] then c == -1 && t == s
                else c == Chars(s.queue)[0] && Chars(t.queue) == Chars(s.queue)[1..])
            && (s.queue == [] <==> Chars(s.queue) == [])
  {
    if s.queue != [] {
      GetKeepsBlocks(s);
      var (c, t) := GetC(s);
      var b, q := s.queue[0], s.queue[1..];
      if |b.live| > 1 {
        assert t.queue[1..] == q;
      }
    }
  }

  lemma GetKeepsBlocks(s: Clist)
    requires Proper(s) && s.queue != []
    ensures Blocks(GetC(s).1) == Blocks(s)
  {
    assert Fits(s.queue[0]);
    var b, q, t := s.queue[0], s.queue[1..], GetC(s).1;
    assert Ids(s.queue) == [b.id] + Ids(q);
    if |b.live| > 1 {
      assert Ids(t.queue) == [b.id] + Ids(q);
    } else {
      assert multiset([b.id] + s.free) == multiset([b.id]) + multiset(s.free);
    }
  }

  lemma PutIsLast(s: Clist, c: Byte)
    requires Proper(s)
    ensures var (ok, t) := PutC(s, c);
            && Proper(t) && Blocks(t) == Blocks(s)
            && (ok <==> !Full(s.queue) || s.free != [])
            && Chars(t.queue) == if ok then Chars(s.queue) + [c] else Chars(s.queue)
  {
    var (ok, t) := PutC(s, c);
    if Full(s.queue) {
      if s.free != [] {
        var b := Block(s.free[0], 0, [c]);
        CharsApart(s.queue, [b]);
        CharsOne(b);
        assert Ids(t.queue) == Ids(s.queue) + [b.id];
        assert s.free == [s.free[0]] + s.free[1..];
      }
    } else {
      var n := |s.queue| - 1;
      var b := s.queue[n];
      var b1 := b.(live := b.live + [c]);
      CharsApart(s.queue[..n], [b]);
      CharsApart(s.queue[..n], [b1]);
      CharsOne(b);
      CharsOne(b1);
      assert s.queue == s.queue[..n] + [b];
      assert Ids(t.queue) == Ids(s.queue);
    }
  }

  // ---------------------------------------------------------- many at a time

  /** n calls of getc, stopping at -1. */
  function GetMany(s: Clist, n: nat): (seq<Byte>, Clist)
    requires Proper(s)
    decreases n
  {
    if n == 0 || s.queue == [] then ([], s)
    else
      GetIsFirst(s);
      var (c, t) := GetC(s);
      var (cs, u) := GetMany(t, n - 1);
      ([c] + cs, u)
  }

  /** putc of each character in turn, stopping when one finds no room: how many went in. */
  function PutMany(s: Clist, cs: seq<Byte>): (nat, Clist)
    decreases |cs|
  {
    if cs == [] then (0, s)
    else
      var (ok, t) := PutC(s, cs[0]);
      if !ok then (0, s)
      else
        var (n, u) := PutMany(t, cs[1..]);
        (n + 1, u)
  }

  /** getcbp, a block at a time. */
  function GetBlocks(s: Clist, n: nat): (seq<Byte>, Clist)
    requires Proper(s)
    decreases n
  {
    if n == 0 || s.queue == [] then ([], s)
    else
      var b := s.queue[0];
      if n >= |b.live| then
        var (cs, u) := GetBlocks(Clist(s.queue[1..], [b.id] + s.free), n - |b.live|);
        (b.live + cs, u)
      else (b.live[..n], Clist([Block(b.id, b.first + n, b.live[n..])] + s.queue[1..], s.free))
  }

  /** The queue with an empty block at the end when the last is full. */
  function Opened(s: Clist): Clist
    requires Full(s.queue) ==> s.free != []
  {
    if Full(s.queue) then Clist(s.queue + [Block(s.free[0], 0, [])], s.free[1..]) else s
  }

  /** The queue with characters added to its last block. */
  function Extended(s: Clist, cs: seq<Byte>): (r: Clist)
    requires s.queue != []
    ensures r.free == s.free && |r.queue| == |s.queue|
  {
    var k := |s.queue| - 1;
    Clist(s.queue[..k] + [s.queue[k].(live := s.queue[k].live + cs)], s.free)
  }

  function Room(s: Clist): int
    requires s.queue != []
  {
    var b := s.queue[|s.queue| - 1];
    CLSIZE - b.first - |b.live|
  }

  lemma OpenedProper(s: Clist, cs: seq<Byte>)
    requires Proper(s) && (Full(s.queue) ==> s.free != [])
    ensures Opened(s).queue != [] && 0 < Room(Opened(s))
    ensures cs != [] && |cs| <= Room(Opened(s)) ==> Proper(Extended(Opened(s), cs))
  {}

  /** putcbp, as many as the last block holds at a time; a block is taken when it is full. */
  function PutBlocks(s: Clist, cs: seq<Byte>): (nat, Clist)
    requires Proper(s)
    decreases |cs|
  {
    if cs == [] || (Full(s.queue) && s.free == []) then (0, s)
    else
      var o := Opened(s);
      OpenedProper(s, if |cs| >= Room(o) then cs[..Room(o)] else cs);
      var m := if |cs| >= Room(o) then Room(o) else |cs|;
      assert m == |cs| ==> cs[..m] == cs;
      var (n, u) := PutBlocks(Extended(o, cs[..m]), cs[m..]);
      (n + m, u)
  }

  /** The queue without the first m characters of its first block, which has more. */
  function Shortened(s: Clist, m: nat): Clist
    requires s.queue != [] && m < |s.queue[0].live|
  {
    var b := s.queue[0];
    Clist([Block(b.id, b.first + m, b.live[m..])] + s.queue[1..], s.free)
  }

  lemma ShortenedProper(s: Clist, m: nat)
    requires Proper(s) && s.queue != [] && m < |s.queue[0].live|
    ensures Proper(Shortened(s, m)) && Shortened(s, 0) == s
    ensures Shortened(s, m).queue != [] && Shortened(s, m).queue[0].live == s.queue[0].live[m..]
    ensures Shortened(s, m).queue[1..] == s.queue[1..]
    ensures 1 < |s.queue[0].live| ==> GetC(s) == (s.queue[0].live[0], Shortened(s, 1))
  {}

  lemma ShortenTwice(s: Clist, m: nat)
    requires s.queue != [] && 0 < m < |s.queue[0].live|
    ensures Shortened(s, 1).queue[0].live == s.queue[0].live[1..]
    ensures Shortened(Shortened(s, 1), m - 1) == Shortened(s, m)
  {
    assert Shortened(s, 1).queue[1..] == s.queue[1..];
  }

  lemma GetManyOne(s: Clist, n: nat)
    requires Proper(s) && s.queue != [] && n > 0
    ensures Proper(GetC(s).1)
    ensures GetMany(s, n) == ([GetC(s).0] + GetMany(GetC(s).1, n - 1).0, GetMany(GetC(s).1, n - 1).1)
  {
    GetIsFirst(s);
  }

  /** Taking the first m characters of the first block one by one. */
  lemma {:induction false} GetSome(s: Clist, m: nat, n: nat)
    requires Proper(s) && s.queue != [] && m < |s.queue[0].live| && m <= n
    ensures Proper(Shortened(s, m))
    ensures var t := Shortened(s, m);
            GetMany(s, n) == (s.queue[0].live[..m] + GetMany(t, n - m).0, GetMany(t, n - m).1)
    decreases m
  {
    hide Proper, Shortened, GetMany, GetC;
    ShortenedProper(s, m);
    var live, t := s.queue[0].live, Shortened(s, m);
    if m == 0 {
      assert live[..0] + GetMany(t, n).0 == GetMany(t, n).0;
    } else {
      ShortenedProper(s, 1);
      ShortenTwice(s, m);
      GetManyOne(s, n);
      GetSome(Shortened(s, 1), m - 1, n - 1);
      var rest := GetMany(t, n - m).0;
      assert [live[0]] + (live[1..][..m - 1] + rest) == live[..m] + rest;
    }
  }

  /** getcbp is that many getc calls: the same characters, queue and free list. */
  lemma {:induction false} GetBlocksIsGetMany(s: Clist, n: nat)
    requires Proper(s)
    ensures GetBlocks(s, n) == GetMany(s, n)
    decreases n
  {
    if n > 0 && s.queue != [] {
      var b := s.queue[0];
      if n >= |b.live| {
        GetBlocksIsGetMany(Clist(s.queue[1..], [b.id] + s.free), n - |b.live|);
        GetWholeBlock(s, n);
      } else {
        GetSome(s, n, n);
        assert b.live[..n] + [] == b.live[..n];
      }
    }
  }

  lemma GetWholeBlock(s: Clist, n: nat)
    requires Proper(s) && s.queue != [] && n >= |s.queue[0].live|
    ensures var b := s.queue[0];
            var u := Clist(s.queue[1..], [b.id] + s.free);
            Proper(u) && GetMany(s, n) == (b.live + GetMany(u, n - |b.live|).0, GetMany(u, n - |b.live|).1)
  {
    hide GetMany;
    var b := s.queue[0];
    var m := |b.live| - 1;
    var u := Clist(s.queue[1..], [b.id] + s.free);
    GetSome(s, m, n);
    ShortenedProper(s, m);
    var t := Shortened(s, m);
    assert GetC(t) == (b.live[m], u);
    GetManyOne(t, n - m);
    var rest := GetMany(u, n - |b.live|).0;
    assert b.live[..m] + ([b.live[m]] + rest) == b.live + rest;
  }

  lemma ExtendTwice(s: Clist, a: seq<Byte>, b: seq<Byte>)
    requires s.queue != []
    ensures Extended(s, []) == s && Extended(s, a).queue != []
    ensures Extended(Extended(s, a), b) == Extended(s, a + b)
    ensures Room(Extended(s, a)) == Room(s) - |a|
  {
    var k := |s.queue| - 1;
    assert Extended(s, a).queue[..k] == s.queue[..k];
    assert s.queue[k].live + [] == s.queue[k].live;
    assert (s.queue[k].live + a) + b == s.queue[k].live + (a + b);
    assert Extended(s, []).queue == s.queue;
  }

  lemma PutManyOne(s: Clist, cs: seq<Byte>)
    requires s.queue != [] && 0 < Room(s) && cs != []
    ensures var t := Extended(s, [cs[0]]); PutMany(s, cs) == (1 + PutMany(t, cs[1..]).0, PutMany(t, cs[1..]).1)
  {}

  /** Adding the first m characters one by one, within the room the last block has. */
  lemma {:induction false} PutSome(s: Clist, cs: seq<Byte>, m: nat)
    requires s.queue != [] && m <= |cs| && m <= Room(s)
    ensures var t := Extended(s, cs[..m]); PutMany(s, cs) == (m + PutMany(t, cs[m..]).0, PutMany(t, cs[m..]).1)
    decreases m
  {
    hide Extended, PutMany, Room;
    if m == 0 {
      assert cs[..0] == [] && cs[0..] == cs;
      ExtendTwice(s, [], []);
    } else {
      PutManyOne(s, cs);
      ExtendTwice(s, [cs[0]], cs[1..][..m - 1]);
      PutSome(Extended(s, [cs[0]]), cs[1..], m - 1);
      assert cs[1..][m - 1..] == cs[m..];
      assert [cs[0]] + cs[1..][..m - 1] == cs[..m];
    }
  }

  lemma OpenFirst(s: Clist, cs: seq<Byte>)
    requires Proper(s) && (Full(s.queue) ==> s.free != []) && cs != []
    ensures PutMany(Opened(s), cs) == PutMany(s, cs)
  {
    if Full(s.queue) {
      var o := Opened(s);
      var k := |s.queue|;
      assert o.queue[..k] == s.queue && [] + [cs[0]] == [cs[0]];
      assert PutC(o, cs[0]) == PutC(s, cs[0]);
    }
  }

  /** putcbp is putc of each character: it stops at the same one, and leaves the same queue and
      free list. */
  lemma {:induction false} PutBlocksIsPutMany(s: Clist, cs: seq<Byte>)
    requires Proper(s)
    ensures PutBlocks(s, cs) == PutMany(s, cs)
    decreases |cs|
  {
    hide Extended, PutMany, Opened, Proper, Room, Full;
    PutNone(s, cs);
    if cs != [] && (Full(s.queue) ==> s.free != []) {
      var o := Opened(s);
      OpenedProper(s, []);
      OpenedProper(s, if |cs| >= Room(o) then cs[..Room(o)] else cs);
      var m := if |cs| >= Room(o) then Room(o) else |cs|;
      assert m == |cs| ==> cs[..m] == cs;
      PutBlocksIsPutMany(Extended(o, cs[..m]), cs[m..]);
      PutRoomful(s, cs, m);
    }
  }

  lemma PutNone(s: Clist, cs: seq<Byte>)
    ensures cs == [] || (Full(s.queue) && s.free == []) ==> PutMany(s, cs) == (0, s)
  {}

  lemma PutRoomful(s: Clist, cs: seq<Byte>, m: nat)
    requires Proper(s) && (Full(s.queue) ==> s.free != []) && cs != []
    requires Opened(s).queue != [] && m <= |cs| && m <= Room(Opened(s))
    ensures var t := Extended(Opened(s), cs[..m]); PutMany(s, cs) == (m + PutMany(t, cs[m..]).0, PutMany(t, cs[m..]).1)
  {
    hide PutMany;
    OpenFirst(s, cs);
    PutSome(Opened(s), cs, m);
  }

  /** So a transfer of many takes the first characters in order, as many as there are, and loses no block; */
  lemma {:induction false} GetManyTakes(s: Clist, n: nat)
    requires Proper(s)
    ensures var (cs, t) := GetMany(s, n);
            var k := if n < |Chars(s.queue)| then n else |Chars(s.queue)|;
            cs == Chars(s.queue)[..k] && Chars(t.queue) == Chars(s.queue)[k..] && Proper(t) && Blocks(t) == Blocks(s)
    decreases n
  {
    hide Proper, GetC, Blocks, Chars;
    GetIsFirst(s);
    if n > 0 && s.queue != [] {
      GetManyTakes(GetC(s).1, n - 1);
      GetManyOne(s, n);
    }
  }

  /** and adds characters in order behind those there, all of them unless blocks run out: then all blocks
      are used and full. */
  lemma {:induction false} PutManyAdds(s: Clist, cs: seq<Byte>)
    requires Proper(s)
    ensures var (n, t) := PutMany(s, cs);
            && n <= |cs| && Chars(t.queue) == Chars(s.queue) + cs[..n] && Proper(t) && Blocks(t) == Blocks(s)
            && (n < |cs| ==> t.free == [] && Full(t.queue))
    decreases |cs|
  {
    hide Proper, PutC, Blocks, Chars, Full;
    if cs == [] {
      assert Chars(s.queue) + cs[..0] == Chars(s.queue);
    } else {
      PutIsLast(s, cs[0]);
      var (ok, t) := PutC(s, cs[0]);
      if ok {
        PutManyAdds(t, cs[1..]);
        var m := PutMany(t, cs[1..]).0;
        assert Chars(s.queue) + [cs[0]] + cs[1..][..m] == Chars(s.queue) + cs[..m + 1];
      } else {
        StoppedFull(s, cs[0]);
        assert Chars(s.queue) + cs[..0] == Chars(s.queue);
      }
    }
  }

  lemma StoppedFull(s: Clist, c: Byte)
    requires !PutC(s, c).0
    ensures s.free == [] && Full(s.queue)
  {}
}

/** The blocks themselves, linked into clists and the free list (io/clist.c). NULL is -1. */
module CharLists {
  import opened Common
  import opened ClistSpec

  const NULL := -1
  const FREE := -1
  const INHAND := -2

  function Nth(l: seq<nat>, i: nat): int
  {
    if i < |l| then l[i] else NULL
  }

  /** The blocks met from `head` on are exactly those in this place. */
  ghost predicate Chain(head: int, l: seq<nat>, next: seq<int>, place: seq<int>, at: int)
  {
    && |place| == |next| && head == Nth(l, 0)
    && (forall i :: 0 <= i < |l| ==> l[i] < |next| && next[l[i]] == Nth(l, i + 1) && place[l[i]] == at)
    && (forall i, j :: 0 <= i < j < |l| ==> l[i] != l[j])
    && (forall b: nat :: b < |place| && place[b] == at ==> b in l)
  }

  function Last(l: seq<nat>): int
  {
    if l == [] then NULL else l[|l| - 1]
  }

  /** Every block is on the free list, on one clist, or in a caller's hand. */
  ghost predicate Lists(next: seq<int>, cfree: int, free: seq<nat>, cf: seq<int>, cl: seq<int>,
                        queues: seq<seq<nat>>, place: seq<int>)
  {
    && |cf| == |cl| == |queues| && |place| == |next|
    && Chain(cfree, free, next, place, FREE)
    && (forall q: nat :: q < |queues| ==> Chain(cf[q], queues[q], next, place, q) && cl[q] == Last(queues[q]))
    && (forall b: nat :: b < |place| ==> -2 <= place[b] < |queues|)
  }

  lemma ChainStore(head: int, l: seq<nat>, next: seq<int>, place: seq<int>, at: int, b: nat, x: int, y: int)
    requires Chain(head, l, next, place, at) && b < |next| && place[b] != at && y != at
    ensures Chain(head, l, next[b := x], place[b := y], at)
  {}

  lemma ChainAt(head: int, l: seq<nat>, next: seq<int>, place: seq<int>, at: int)
    requires Chain(head, l, next, place, at)
    ensures head == NULL <==> l == []
    ensures l != [] ==> head == l[0] < |next| && place[l[0]] == at && next[l[0]] == Nth(l, 1) && (next[l[0]] == NULL <==> |l| == 1)
    ensures l != [] ==> 0 <= Last(l) < |next| && place[Last(l)] == at
  {}

  lemma ChainTail(head: int, l: seq<nat>, next: seq<int>, place: seq<int>, at: int, x: int)
    requires Chain(head, l, next, place, at) && l != []
    requires x != at
    ensures Chain(next[l[0]], l[1..], next, place[l[0] := x], at)
  {
    var t, place' := l[1..], place[l[0] := x];
    assert forall i :: 0 <= i < |t| ==> t[i] == l[i + 1];
    forall b: nat | b < |place'| && place'[b] == at ensures b in t {
      assert b in l && b != l[0];
    }
  }

  lemma ChainCons(head: int, l: seq<nat>, next: seq<int>, place: seq<int>, at: int, b: nat)
    requires Chain(head, l, next, place, at) && b < |next| && place[b] != at
    ensures Chain(b, [b] + l, next[b := head], place[b := at], at)
  {
    var t := [b] + l;
    assert forall i :: 0 <= i < |t| ==> t[i] == if i == 0 then b else l[i - 1];
    forall x: nat | x < |place| && place[b := at][x] == at ensures x in t {
      if x != b { assert x in l; } else { assert t[0] == b; }
    }
  }

  lemma ChainSnoc(head: int, l: seq<nat>, next: seq<int>, place: seq<int>, at: int, b: nat)
    requires Chain(head, l, next, place, at) && b < |next| && place[b] != at
    ensures Last(l) != b && (Last(l) != NULL ==> 0 <= Last(l) < |next|)
    ensures Chain(if Last(l) == NULL then b else head, l + [b], (if Last(l) == NULL then next else next[Last(l) := b])[b := NULL],
                  place[b := at], at)
  {
    var t := l + [b];
    assert forall i :: 0 <= i < |t| ==> t[i] == if i < |l| then l[i] else b;
    forall x: nat | x < |place| && place[b := at][x] == at ensures x in t {
      if x != b { assert x in l; } else { assert t[|l|] == b; }
    }
  }

  lemma PopFree(next: seq<int>, cfree: int, free: seq<nat>, cf: seq<int>, cl: seq<int>, queues: seq<seq<nat>>, place: seq<int>)
    requires Lists(next, cfree, free, cf, cl, queues, place) && free != []
    ensures cfree == free[0] < |next| == |place| && place[free[0]] == FREE
    ensures Lists(next[free[0] := NULL], next[free[0]], free[1..], cf, cl, queues, place[free[0] := INHAND])
  {
    hide Chain;
    var b := free[0];
    ChainAt(cfree, free, next, place, FREE);
    ChainTail(cfree, free, next, place, FREE, INHAND);
    assert place[b := INHAND][b := INHAND] == place[b := INHAND];
    ChainStore(next[b], free[1..], next, place[b := INHAND], FREE, b, NULL, INHAND);
    forall q: nat | q < |queues| ensures Chain(cf[q], queues[q], next[b := NULL], place[b := INHAND], q) {
      ChainStore(cf[q], queues[q], next, place, q, b, NULL, INHAND);
    }
  }

  lemma PushFree(next: seq<int>, cfree: int, free: seq<nat>, cf: seq<int>, cl: seq<int>, queues: seq<seq<nat>>, place: seq<int>, b: nat)
    requires Lists(next, cfree, free, cf, cl, queues, place) && b < |next| && place[b] == INHAND
    ensures Lists(next[b := cfree], b, [b] + free, cf, cl, queues, place[b := FREE])
  {
    hide Chain;
    ChainCons(cfree, free, next, place, FREE, b);
    forall q: nat | q < |queues| ensures Chain(cf[q], queues[q], next[b := cfree], place[b := FREE], q) {
      ChainStore(cf[q], queues[q], next, place, q, b, cfree, FREE);
    }
  }

  lemma PopQueue(next: seq<int>, cfree: int, free: seq<nat>, cf: seq<int>, cl: seq<int>, queues: seq<seq<nat>>, place: seq<int>, p: nat)
    requires Lists(next, cfree, free, cf, cl, queues, place) && p < |queues| && queues[p] != []
    ensures var b := queues[p][0];
            && |cf| == |cl| == |queues| && |place| == |next|
            && cf[p] == b < |next| && place[b] == p && (next[b] == NULL <==> |queues[p]| == 1)
            && Lists(next, cfree, free, cf[p := next[b]], if next[b] == NULL then cl[p := NULL] else cl,
                     queues[p := queues[p][1..]], place[b := INHAND])
  {
    hide Chain;
    var l := queues[p];
    var b := l[0];
    ChainAt(cf[p], l, next, place, p);
    ChainTail(cf[p], l, next, place, p, INHAND);
    assert next[b := next[b]] == next;
    ChainStore(cfree, free, next, place, FREE, b, next[b], INHAND);
    var cf', queues' := cf[p := next[b]], queues[p := l[1..]];
    forall q: nat | q < |queues| ensures Chain(cf'[q], queues'[q], next, place[b := INHAND], q) {
      if q != p {
        ChainStore(cf[q], queues[q], next, place, q, b, next[b], INHAND);
      }
    }
  }

  lemma PushQueue(next: seq<int>, cfree: int, free: seq<nat>, cf: seq<int>, cl: seq<int>, queues: seq<seq<nat>>, place: seq<int>, p: nat, b: nat)
    requires Lists(next, cfree, free, cf, cl, queues, place) && p < |queues| && b < |next| && place[b] == INHAND
    ensures |cf| == |cl| == |queues| && |place| == |next|
    ensures (cl[p] == NULL <==> queues[p] == []) && (cl[p] != NULL ==> 0 <= cl[p] < |next| && cl[p] != b)
    ensures Lists((if cl[p] == NULL then next else next[cl[p] := b])[b := NULL], cfree, free,
                  if cl[p] == NULL then cf[p := b] else cf, cl[p := b], queues[p := queues[p] + [b]], place[b := p])
  {
    hide Chain;
    var l := queues[p];
    ChainAt(cf[p], l, next, place, p);
    ChainSnoc(cf[p], l, next, place, p, b);
    var last := cl[p];
    var next1 := if last == NULL then next else next[last := b];
    assert place[b := p][b := p] == place[b := p];
    if last != NULL {
      assert place[last := p] == place;
      ChainStore(cfree, free, next, place, FREE, last, b, p);
    }
    ChainStore(cfree, free, next1, place, FREE, b, NULL, p);
    var queues' := queues[p := l + [b]];
    var cf' := if last == NULL then cf[p := b] else cf;
    forall q: nat | q < |queues| ensures Chain(cf'[q], queues'[q], next1[b := NULL], place[b := p], q) {
      if q != p {
        if last != NULL { ChainStore(cf[q], queues[q], next, place, q, last, b, p); }
        ChainStore(cf[q], queues[q], next1, place, q, b, NULL, p);
      }
    }
    assert Last(l + [b]) == b;
  }

  // ------------------------------------------------------ what the blocks hold

  ghost predicate Shaped(n: nat, first: seq<nat>, last: seq<nat>, data: seq<seq<Byte>>)
  {
    && |first| == |last| == |data| == n
    && forall b :: 0 <= b < n ==> |data[b]| == CLSIZE && first[b] <= last[b] <= CLSIZE
  }

  function BlockOf(b: nat, first: seq<nat>, last: seq<nat>, data: seq<seq<Byte>>): Block
    requires b < |first| && b < |last| && b < |data| && first[b] <= last[b] <= |data[b]|
  {
    Block(b, first[b], data[b][first[b]..last[b]])
  }

  ghost function BlocksOf(l: seq<nat>, n: nat, first: seq<nat>, last: seq<nat>, data: seq<seq<Byte>>): (q: seq<Block>)
    requires Shaped(n, first, last, data) && forall i :: 0 <= i < |l| ==> l[i] < n
    ensures |q| == |l| && forall i :: 0 <= i < |l| ==> q[i] == BlockOf(l[i], first, last, data)
  {
    seq(|l|, i requires 0 <= i < |l| && l[i] < n && Shaped(n, first, last, data) => BlockOf(l[i], first, last, data))
  }

  /** The clists other than the one worked on stay as they are. */
  lemma BlocksFrame(l: seq<nat>, n: nat, first: seq<nat>, last: seq<nat>, data: seq<seq<Byte>>,
                    first': seq<nat>, last': seq<nat>, data': seq<seq<Byte>>)
    requires Shaped(n, first, last, data) && Shaped(n, first', last', data')
    requires forall i :: 0 <= i < |l| ==>
               l[i] < n && first'[l[i]] == first[l[i]] && last'[l[i]] == last[l[i]] && data'[l[i]] == data[l[i]]
    ensures BlocksOf(l, n, first', last', data') == BlocksOf(l, n, first, last, data)
  {}

  /** The blocks `l` hold `q`, and `cc` is the number of characters in them. */
  ghost predicate Holds(l: seq<nat>, q: seq<Block>, cc: nat, n: nat, first: seq<nat>, last: seq<nat>, data: seq<seq<Byte>>)
  {
    && Shaped(n, first, last, data) && (forall i :: 0 <= i < |l| ==> l[i] < n)
    && q == BlocksOf(l, n, first, last, data) && cc == |Chars(q)|
  }

  ghost predicate AllHold(queues: seq<seq<nat>>, content: seq<seq<Block>>, cc: seq<nat>, n: nat,
                          first: seq<nat>, last: seq<nat>, data: seq<seq<Byte>>)
  {
    && |queues| == |content| == |cc| && Shaped(n, first, last, data)
    && forall p: nat :: p < |queues| ==> Holds(queues[p], content[p], cc[p], n, first, last, data)
  }

  /** No queued block is empty. */
  ghost predicate AllProper(content: seq<seq<Block>>)
  {
    forall p :: 0 <= p < |content| ==> Proper(Clist(content[p], []))
  }

  class CharSystem {
    var next: seq<int>            // c_next
    var first: seq<nat>           // c_first
    var last: seq<nat>            // c_last
    var data: seq<seq<Byte>>      // c_data
    var cfree: int                // cfreelist.c_next
    var cc: seq<nat>              // c_cc, c_cf and c_cl of each clist
    var cf: seq<int>
    var cl: seq<int>
    ghost var free: seq<nat>
    ghost var queues: seq<seq<nat>>
    ghost var place: seq<int>
    ghost var content: seq<seq<Block>>

    ghost predicate Shape()
      reads this
    {
      && Shaped(|next|, first, last, data)
      && |cc| == |cf| == |cl| == |queues| && |place| == |next|
      && Lists(next, cfree, free, cf, cl, queues, place)
    }

    /** The blocks hold what is queued, empty ones among them or not. */
    ghost predicate Linked()
      reads this
    {
      Shape() && |content| == |queues| && AllHold(queues, content, cc, |next|, first, last, data)
    }

    ghost predicate Valid()
      reads this
    {
      Linked() && AllProper(content)
    }

    /** A clist with the free list. */
    ghost function View(p: nat): Clist
      reads this
      requires p < |content|
    {
      Clist(content[p], free)
    }

    ghost predicate InHand(b: nat)
      reads this
    {
      b < |place| && place[b] == INHAND
    }

    // ------------------------------------------------- moving blocks about

    /** A block from the free list, if there is one. */
    method TakeFree() returns (bp: int)
      requires Shape()
      modifies this`next, this`cfree, this`free, this`place
      ensures Shape() && |next| == |old(next)| && (bp == NULL <==> old(free) == [])
      ensures bp == NULL ==> free == old(free) && place == old(place)
      ensures bp != NULL ==> 0 <= bp < |next| && bp == old(free)[0] && free == old(free)[1..] && place == old(place)[bp := INHAND]
    {
      hide Lists, Shaped;
      FreeAt(next, cfree, free, cf, cl, queues, place);
      bp := cfree;
      if bp != NULL {
        PopFree(next, cfree, free, cf, cl, queues, place);
        cfree := next[bp];
        next := next[bp := NULL];
        place := place[bp := INHAND];
        free := free[1..];
      }
    }

    /** A block back on the free list. */
    method GiveFree(bp: nat)
      requires Shape() && InHand(bp)
      modifies this`next, this`cfree, this`free, this`place
      ensures Shape() && |next| == |old(next)| && free == [bp] + old(free) && place == old(place)[bp := FREE]
    {
      hide Lists, Shaped;
      PushFree(next, cfree, free, cf, cl, queues, place, bp);
      next := next[bp := cfree];
      cfree := bp;
      place := place[bp := FREE];
      free := [bp] + free;
    }

    /** The first block off a clist. */
    method Unlink(p: nat) returns (bp: nat)
      requires Shape() && p < |queues| && queues[p] != []
      modifies this`cf, this`cl, this`queues, this`place
      ensures Shape() && bp == old(queues)[p][0] < |next| && InHand(bp)
      ensures queues == old(queues)[p := old(queues)[p][1..]] && place == old(place)[bp := INHAND]
    {
      hide Lists, Shaped;
      PopQueue(next, cfree, free, cf, cl, queues, place, p);
      bp := cf[p];
      ghost var l := queues[p];
      cf := cf[p := next[bp]];
      if cf[p] == NULL {
        cl := cl[p := NULL];
      }
      queues := queues[p := l[1..]];
      place := place[bp := INHAND];
    }

    /** A block onto the end of a clist. */
    method Append(p: nat, bp: nat)
      requires Shape() && p < |queues| && InHand(bp)
      modifies this`next, this`cf, this`cl, this`queues, this`place
      ensures Shape() && |next| == |old(next)|
      ensures queues == old(queues)[p := old(queues)[p] + [bp]] && place == old(place)[bp := p]
    {
      hide Lists, Shaped;
      PushQueue(next, cfree, free, cf, cl, queues, place, p, bp);
      var obp := cl[p];
      if obp == NULL {
        cf := cf[p := bp];
      } else {
        next := next[obp := bp];
      }
      cl := cl[p := bp];
      next := next[bp := NULL];
      queues := queues[p := queues[p] + [bp]];
      place := place[bp := p];
    }

    /** The first block of a clist, used up, onto the free list. */
    method Retire(p: nat)
      requires Shape() && p < |queues| && queues[p] != []
      modifies this`next, this`cfree, this`cf, this`cl, this`free, this`queues, this`place
      ensures Shape() && |next| == |old(next)|
      ensures queues == old(queues)[p := old(queues)[p][1..]] && free == [old(queues)[p][0]] + old(free)
    {
      hide Lists, Shaped;
      var bp := Unlink(p);
      GiveFree(bp);
    }

    // ---------------------------------------------------------- the routines

    /** getc */
    method Getc(p: nat) returns (c: int)
      requires Valid() && p < |queues|
      modifies this
      ensures Valid() && |content| == |old(content)|
      ensures (c, View(p)) == GetC(old(View(p))) && content == old(content)[p := content[p]]
    {
      hide Lists, AllHold, AllProper, GetC, Shaped;
      ProperNow(content, p, free);
      GetIsFirst(View(p));
      ghost var was := View(p);
      CountedNow(queues, content, cc, |next|, first, last, data, p);
      if cc[p] > 0 {
        var bp := cf[p];
        ReadStep(next, cfree, free, cf, cl, queues, place, p, content, cc, first, last, data);
        content := content[p := GetC(was).1.queue];
        ProperThen(old(content), p, content[p], GetC(was).1.free);
        cc := cc[p := cc[p] - 1];
        c := data[bp][first[bp]];
        first := first[bp := first[bp] + 1];
        if first[bp] == last[bp] {
          Retire(p);
        }
      } else {
        c := -1;
      }
    }

    /** An empty block from the free list onto the end of a clist whose last block is full. */
    method NewBlock(p: nat, ghost counts: seq<nat>)
      requires Shape() && p < |queues| && AllHold(queues, content, counts, |next|, first, last, data)
      requires |content| == |queues| && Full(content[p]) && free != []
      modifies this`next, this`first, this`last, this`cfree, this`cf, this`cl, this`free, this`queues, this`place, this`content
      ensures Shape() && |next| == |old(next)| && AllHold(queues, content, counts, |next|, first, last, data)
      ensures View(p) == Opened(old(View(p))) && content == old(content)[p := content[p]] && |queues| == |old(queues)|
    {
      hide Lists, AllHold, Shaped, Full;
      var bp := TakeFree();
      Emptied(next, cfree, free, cf, cl, queues, place, content, counts, first, last, data, bp);
      first := first[bp := 0];
      last := last[bp := 0];
      content := content[p := content[p] + [Block(bp, 0, [])]];
      ShapedNow(queues, old(content), counts, |next|, first, last, data);
      AddsEmpty(queues, old(content), counts, |next|, first, last, data, p, bp);
      Append(p, bp);
    }

    /** putc */
    method Putc(c: Byte, p: nat) returns (r: int)
      requires Valid() && p < |queues|
      modifies this
      ensures Valid() && |content| == |old(content)|
      ensures r == (if PutC(old(View(p)), c).0 then 0 else -1) && View(p) == PutC(old(View(p)), c).1
      ensures content == old(content)[p := content[p]]
    {
      hide Lists, AllHold, AllProper, PutC, Full, Shaped, Opened, Extended;
      ProperNow(content, p, free);
      PutIsLast(View(p), c);
      ghost var was := View(p);
      var ok := MakeRoom(p);
      if !ok {
        NoRoom(was, c);
        assert content == content[p := content[p]];
        return -1;
      }
      PutOpened(was, c);
      WriteOne(p, [c], cc);
      cc := cc[p := cc[p] + 1];
      assert content == old(content)[p := content[p]];
      ProperThen(old(content), p, content[p], free);
      return 0;
    }

    /** putc takes a new block when the clist is empty or its last block is full. */
    method MakeRoom(p: nat) returns (ok: bool)
      requires Shape() && p < |queues| && AllHold(queues, content, cc, |next|, first, last, data)
      requires |content| == |queues|
      modifies this`next, this`first, this`last, this`cfree, this`cf, this`cl, this`free, this`queues, this`place, this`content
      ensures Shape() && |next| == |old(next)| && AllHold(queues, content, cc, |next|, first, last, data)
      ensures content == old(content)[p := content[p]] && |queues| == |old(queues)|
      ensures ok <==> !Full(old(content)[p]) || old(free) != []
      ensures if ok then View(p) == Opened(old(View(p))) else content == old(content) && free == old(free)
    {
      hide Lists, AllHold, Full, Shaped, Opened;
      FullIs(next, cfree, free, cf, cl, queues, place, p, content, cc, first, last, data);
      assert content == content[p := content[p]];
      if cl[p] == NULL || last[cl[p]] == CLSIZE {
        FreeAt(next, cfree, free, cf, cl, queues, place);
        if cfree == NULL {
          return false;
        }
        NewBlock(p, cc);
      } else {
        OpenAlready(View(p));
      }
      return true;
    }

    /** Characters stored at the end of the last block; c_cc is left for later. */
    method WriteOne(p: nat, cs: seq<Byte>, ghost counts: seq<nat>)
      requires Shape() && p < |queues| == |content| == |counts| && AllHold(queues, content, counts, |next|, first, last, data)
      requires content[p] != [] && |cs| <= Room(Clist(content[p], free))
      modifies this`last, this`data, this`content
      ensures Shape() && content == old(content)[p := Extended(Clist(old(content)[p], free), cs).queue]
      ensures AllHold(queues, content, counts[p := counts[p] + |cs|], |next|, first, last, data)
    {
      hide Lists, AllHold, Shaped, Extended, Room;
      WriteStep(next, cfree, free, cf, cl, queues, place, p, content, counts, first, last, data, cs);
      content := content[p := Extended(Clist(content[p], free), cs).queue];
      var bp := cl[p];
      data := data[bp := Overlay(data[bp], last[bp], cs)];
      last := last[bp := last[bp] + |cs|];
      ShapedNow(queues, content, counts[p := counts[p] + |cs|], |next|, first, last, data);
    }

    /** getcf: a whole block for the caller, set up as full. */
    method Getcf() returns (bp: int)
      requires Valid()
      modifies this
      ensures Valid() && content == old(content) && (bp == NULL <==> old(free) == [])
      ensures bp == NULL ==> free == old(free)
      ensures bp != NULL ==> bp == old(free)[0] && free == old(free)[1..] && place == old(place)[bp := INHAND]
                             && first[bp] == 0 && last[bp] == CLSIZE
    {
      hide Lists, AllHold, AllProper, Shaped;
      bp := TakeFree();
      if bp != NULL {
        Refilled(next, cfree, free, cf, cl, queues, place, content, cc, first, last, data, bp);
        first := first[bp := 0];
        last := last[bp := CLSIZE];
        ShapedNow(queues, content, cc, |next|, first, last, data);
      }
    }

    /** putcf */
    method Putcf(bp: nat)
      requires Valid() && InHand(bp)
      modifies this
      ensures Valid() && content == old(content) && free == [bp] + old(free) && place == old(place)[bp := FREE]
    {
      hide Lists, AllHold, AllProper, Shaped;
      GiveFree(bp);
    }

    /** getcb: the first block of a clist for the caller, with its characters. */
    method Getcb(p: nat) returns (bp: int)
      requires Valid() && p < |queues|
      modifies this
      ensures Valid() && free == old(free) && |content| == |old(content)| && (bp == NULL <==> old(content)[p] == [])
      ensures bp == NULL ==> content == old(content)
      ensures bp != NULL ==> 0 <= bp < |first| == |last| == |data| && InHand(bp) && first[bp] <= last[bp] <= |data[bp]|
      ensures bp != NULL ==> old(content)[p][0] == BlockOf(bp, first, last, data)
      ensures bp != NULL ==> content == old(content)[p := old(content)[p][1..]]
    {
      hide Lists, AllHold, AllProper, Shaped;
      CountedNow(queues, content, cc, |next|, first, last, data, p);
      Ends(next, cfree, free, cf, cl, queues, place, p);
      ShapedNow(queues, content, cc, |next|, first, last, data);
      bp := cf[p];
      if bp != NULL {
        ProperNow(content, p, free);
        TakeBlock(queues, content, cc, |next|, first, last, data, p);
        cc := cc[p := cc[p] - (last[bp] - first[bp])];
        content := content[p := content[p][1..]];
        ProperTail(old(content), p);
        var b := Unlink(p);
      }
    }

    /** putcb: a block onto the end of a clist. It does not ask whether there are characters in it;
        an empty one is what the other routines do not expect (see EmptyBlockMisleads). */
    method Putcb(bp: nat, p: nat)
      requires Linked() && p < |queues| && InHand(bp)
      modifies this
      ensures Linked() && free == old(free) && bp < |first| == |last| == |data| && first[bp] <= last[bp] <= |data[bp]|
      ensures |content| == |old(content)| && content == old(content)[p := old(content)[p] + [BlockOf(bp, first, last, data)]]
      ensures old(Valid()) ==> (Valid() <==> first[bp] < last[bp])
    {
      hide Lists, AllHold, AllProper;
      ShapedNow(queues, content, cc, |next|, first, last, data);
      ghost var e := BlockOf(bp, first, last, data);
      AddsBlock(queues, content, cc, |next|, first, last, data, p, bp);
      ProperIff(content, p, e);
      content := content[p := content[p] + [e]];
      cc := cc[p := cc[p] + (last[bp] - first[bp])];
      Append(p, bp);
    }

    /** One turn of getcbp: a whole block, which is freed, or part of one. */
    method TakePart(p: nat, n: nat, ghost left: nat) returns (on: seq<Byte>)
      requires Shape() && p < |queues| == |content| && AllProper(content) && content[p] != [] && n > 0
      requires AllHold(queues, content, cc[p := left], |next|, first, last, data) && Proper(View(p))
      modifies this`next, this`first, this`cfree, this`cf, this`cl, this`free, this`queues, this`place, this`content
      ensures Shape() && |queues| == |content| == |old(content)| && content == old(content)[p := content[p]]
      ensures AllProper(content) && Proper(View(p)) && (on, View(p)) == Turn(old(View(p)), n) && |on| <= left
      ensures AllHold(queues, content, cc[p := left - |on|], |next|, first, last, data)
    {
      hide Lists, AllHold, AllProper, Shaped, Proper;
      CountedNow(queues, content, cc[p := left], |next|, first, last, data, p);
      Ends(next, cfree, free, cf, cl, queues, place, p);
      TakeBlock(queues, content, cc[p := left], |next|, first, last, data, p);
      TurnProper(View(p), n);
      ghost var was := View(p);
      var bp := cf[p];
      on := data[bp][first[bp]..last[bp]];
      assert cc[p := left][p] == left && |on| == last[bp] - first[bp] <= left;
      if n >= last[bp] - first[bp] {
        content := content[p := Turn(was, n).1.queue];
        assert cc[p := left][p := left - |on|] == cc[p := left - |on|];
        Retire(p);
      } else {
        on := data[bp][first[bp]..first[bp] + n];
        assert data[bp][first[bp]..last[bp]][..n] == on;
        ShortenStep(next, cfree, free, cf, cl, queues, place, p, content, cc[p := left], first, last, data, n);
        assert cc[p := left][p := left - n] == cc[p := left - n];
        content := content[p := Turn(was, n).1.queue];
        first := first[bp := first[bp] + n];
        ShapedNow(queues, content, cc[p := left - n], |next|, first, last, data);
      }
      ProperThen(old(content), p, content[p], free);
    }

    /** getcbp: up to n characters; c_cc is adjusted once, at the end. */
    method Getcbp(p: nat, n0: nat) returns (cs: seq<Byte>)
      requires Valid() && p < |queues|
      modifies this
      ensures Valid() && |content| == |old(content)| && content == old(content)[p := content[p]]
      ensures (cs, View(p)) == GetBlocks(old(View(p)), n0)
    {
      hide Lists, AllHold, AllProper, Shaped, GetBlocks, Proper, BlockOf;
      ghost var was := View(p);
      ProperNow(content, p, free);
      var n: nat := n0;
      cs := [];
      CountedNow(queues, content, cc, |next|, first, last, data, p);
      ghost var left: nat := cc[p];
      assert cc[p := left] == cc && [] + GetBlocks(was, n).0 == GetBlocks(was, n).0;
      while n > 0
        invariant Shape() && |content| == |queues| == |old(queues)| && content == old(content)[p := content[p]]
        invariant AllProper(content) && AllHold(queues, content, cc[p := left], |next|, first, last, data)
        invariant cc == old(cc) && left + |cs| == cc[p]
        invariant Proper(View(p)) && GetBlocks(was, n0) == (cs + GetBlocks(View(p), n).0, GetBlocks(View(p), n).1)
        decreases n
      {
        CountedNow(queues, content, cc[p := left], |next|, first, last, data, p);
        Ends(next, cfree, free, cf, cl, queues, place, p);
        var bp := cf[p];
        if bp == NULL {
          break;
        }
        TurnIs(View(p), n);
        var on := TakePart(p, n, left);
        TurnsOn(cs, on, GetBlocks(View(p), n - |on|).0);
        cs := cs + on;
        n := n - |on|;
        left := left - |on|;
      }
      NoMore(View(p), n);
      assert cs + [] == cs;
      cc := cc[p := cc[p] - |cs|];
    }

    /** putcbp: as many of the characters as there is room for. */
    method Putcbp(p: nat, cs: seq<Byte>) returns (k: nat)
      requires Valid() && p < |queues|
      modifies this
      ensures Valid() && |content| == |old(content)| && content == old(content)[p := content[p]]
      ensures (k, View(p)) == PutBlocks(old(View(p)), cs)
    {
      hide Lists, AllHold, AllProper, Shaped, PutBlocks, Proper, Full, Opened, Extended;
      ghost var was := View(p);
      ProperNow(content, p, free);
      k := 0;
      ghost var held: nat := cc[p];
      assert cc[p := held] == cc && cs[0..] == cs;
      while k < |cs|
        invariant k <= |cs| && Shape() && |content| == |queues| == |old(queues)| && content == old(content)[p := content[p]]
        invariant AllProper(content) && AllHold(queues, content, cc[p := held], |next|, first, last, data)
        invariant cc == old(cc) && held == cc[p] + k
        invariant Proper(View(p)) && PutBlocks(was, cs) == (k + PutBlocks(View(p), cs[k..]).0, PutBlocks(View(p), cs[k..]).1)
      {
        FullIs(next, cfree, free, cf, cl, queues, place, p, content, cc[p := held], first, last, data);
        if cl[p] == NULL || last[cl[p]] == CLSIZE {
          FreeAt(next, cfree, free, cf, cl, queues, place);
          if cfree == NULL {
            break;
          }
        }
        PutTurnIs(View(p), cs[k..]);
        var m := PutPart(p, cs[k..], held);
        held := held + m;
        k := k + m;
      }
      NoneGo(View(p), cs[k..]);
      cc := cc[p := cc[p] + k];
    }

    /** One turn of putcbp. */
    method PutPart(p: nat, cs: seq<Byte>, ghost held: nat) returns (m: nat)
      requires Shape() && p < |queues| == |content| && AllProper(content) && cs != []
      requires AllHold(queues, content, cc[p := held], |next|, first, last, data) && Proper(View(p))
      requires Full(content[p]) ==> free != []
      modifies this`next, this`first, this`last, this`data, this`cfree, this`cf, this`cl, this`free, this`queues, this`place, this`content
      ensures Shape() && |queues| == |content| == |old(content)| && content == old(content)[p := content[p]]
      ensures AllProper(content) && Proper(View(p)) && (m, View(p)) == PutTurn(old(View(p)), cs)
      ensures AllHold(queues, content, cc[p := held + m], |next|, first, last, data)
    {
      hide Lists, AllHold, AllProper, Shaped, Proper, Full, Opened, Extended, Room;
      ghost var was, before := View(p), content;
      PutTurnProper(was, cs);
      FullIs(next, cfree, free, cf, cl, queues, place, p, content, cc[p := held], first, last, data);
      if cl[p] == NULL || last[cl[p]] == CLSIZE {
        NewBlock(p, cc[p := held]);
      } else {
        OpenAlready(was);
      }
      RoomIs(next, cfree, free, cf, cl, queues, place, p, content, cc[p := held], first, last, data);
      var on := CLSIZE - last[cl[p]];
      m := if |cs| >= on then on else |cs|;
      WriteOne(p, cs[..m], cc[p := held]);
      assert cc[p := held][p := held + m] == cc[p := held + m];
      assert content == before[p := content[p]];
      ProperThen(before, p, content[p], free);
    }
  }

  /** Each block is in one place: the free list, one clist, or a caller's hand. */
  lemma OnePlace(next: seq<int>, cfree: int, free: seq<nat>, cf: seq<int>, cl: seq<int>, queues: seq<seq<nat>>, place: seq<int>, b: nat)
    requires Lists(next, cfree, free, cf, cl, queues, place) && b < |next|
    ensures |place| == |next| && (b in free <==> place[b] == FREE)
    ensures forall q: nat :: q < |queues| ==> (b in queues[q] <==> place[b] == q)
    ensures place[b] == FREE || place[b] == INHAND || 0 <= place[b] < |queues|
  {
    forall q: nat | q < |queues| ensures b in queues[q] <==> place[b] == q {
      assert Chain(cf[q], queues[q], next, place, q);
    }
  }

  lemma FreeAt(next: seq<int>, cfree: int, free: seq<nat>, cf: seq<int>, cl: seq<int>, queues: seq<seq<nat>>, place: seq<int>)
    requires Lists(next, cfree, free, cf, cl, queues, place)
    ensures cfree == NULL <==> free == []
  {
    ChainAt(cfree, free, next, place, FREE);
  }

  /** Where a clist starts and ends. */
  lemma Ends(next: seq<int>, cfree: int, free: seq<nat>, cf: seq<int>, cl: seq<int>, queues: seq<seq<nat>>, place: seq<int>, p: nat)
    requires Lists(next, cfree, free, cf, cl, queues, place) && p < |queues|
    ensures |cf| == |cl| == |queues| && |place| == |next|
    ensures (cf[p] == NULL <==> queues[p] == []) && (queues[p] != [] ==> cf[p] == queues[p][0] < |next|)
    ensures cl[p] == Last(queues[p]) && (cl[p] == NULL <==> queues[p] == [])
    ensures cl[p] != NULL ==> 0 <= cl[p] < |next| && place[cl[p]] == p
    ensures queues[p] != [] ==> place[queues[p][0]] == p
    ensures forall i, j :: 0 <= i < j < |queues[p]| ==> queues[p][i] != queues[p][j]
  {
    ChainAt(cf[p], queues[p], next, place, p);
  }

  lemma NotElsewhere(next: seq<int>, cfree: int, free: seq<nat>, cf: seq<int>, cl: seq<int>, queues: seq<seq<nat>>, place: seq<int>,
                     q: nat, b: nat)
    requires Lists(next, cfree, free, cf, cl, queues, place) && q < |queues| && b < |place| && place[b] != q
    ensures forall i :: 0 <= i < |queues[q]| ==> queues[q][i] != b
  {}

  lemma CountedNow(queues: seq<seq<nat>>, content: seq<seq<Block>>, cc: seq<nat>, n: nat,
                   first: seq<nat>, last: seq<nat>, data: seq<seq<Byte>>, p: nat)
    requires AllHold(queues, content, cc, n, first, last, data) && p < |queues|
    ensures |queues| == |content| == |cc| && Holds(queues[p], content[p], cc[p], n, first, last, data)
    ensures cc[p] == |Chars(content[p])| && |content[p]| == |queues[p]| && Shaped(n, first, last, data)
  {}

  lemma ShapedNow(queues: seq<seq<nat>>, content: seq<seq<Block>>, cc: seq<nat>, n: nat,
                  first: seq<nat>, last: seq<nat>, data: seq<seq<Byte>>)
    requires AllHold(queues, content, cc, n, first, last, data)
    ensures |queues| == |content| == |cc| && |first| == |last| == |data| == n && Shaped(n, first, last, data)
  {}

  lemma Sizes(next: seq<int>, cfree: int, free: seq<nat>, cf: seq<int>, cl: seq<int>, queues: seq<seq<nat>>, place: seq<int>)
    requires Lists(next, cfree, free, cf, cl, queues, place)
    ensures |cf| == |cl| == |queues| && |place| == |next|
  {}

  lemma NothingToCount(q: seq<Block>)
    ensures q == [] ==> Chars(q) == []
  {}

  lemma ProperNow(content: seq<seq<Block>>, p: nat, free: seq<nat>)
    requires AllProper(content) && p < |content|
    ensures Proper(Clist(content[p], free))
  {}

  lemma ProperIff(content: seq<seq<Block>>, p: nat, e: Block)
    requires p < |content|
    ensures AllProper(content) ==> (AllProper(content[p := content[p] + [e]]) <==> Fits(e))
  {
    var c' := content[p := content[p] + [e]];
    if AllProper(content) {
      assert Proper(Clist(content[p], []));
      if AllProper(c') {
        assert Proper(Clist(c'[p], [])) && c'[p][|content[p]|] == e;
      }
    }
  }

  /** An empty block, 0, put before block 1, which has the character `y`: the list is that one
      character, and getc, which asks for c_cc > 0 only, takes the byte `x` of block 0. */
  lemma EmptyBlockMisleads(x: Byte, y: Byte, data: seq<seq<Byte>>)
    requires |data| == 2 && |data[0]| == |data[1]| == CLSIZE && data[0][0] == x && data[1][0] == y
    ensures var content := [[BlockOf(0, [0, 0], [0, 1], data), BlockOf(1, [0, 0], [0, 1], data)]];
            && AllHold([[0, 1]], content, [1], 2, [0, 0], [0, 1], data)
            && Chars(content[0]) == [y] && data[0][0] == x
  {
    var q := [BlockOf(0, [0, 0], [0, 1], data), BlockOf(1, [0, 0], [0, 1], data)];
    assert q[0].live == [] && q[1].live == [y];
    CharsApart([q[0]], [q[1]]);
    CharsOne(q[0]);
    CharsOne(q[1]);
    assert [q[0]] + [q[1]] == q;
    assert BlocksOf([0, 1], 2, [0, 0], [0, 1], data) == q;
  }

  lemma ProperThen(content: seq<seq<Block>>, p: nat, q: seq<Block>, free: seq<nat>)
    requires AllProper(content) && p < |content| && Proper(Clist(q, free))
    ensures AllProper(content[p := q])
  {}

  /** What getc does to the blocks, in its two cases. */
  lemma ReadStep(next: seq<int>, cfree: int, free: seq<nat>, cf: seq<int>, cl: seq<int>, queues: seq<seq<nat>>, place: seq<int>,
                 p: nat, content: seq<seq<Block>>, cc: seq<nat>, first: seq<nat>, last: seq<nat>, data: seq<seq<Byte>>)
    requires Lists(next, cfree, free, cf, cl, queues, place) && p < |queues|
    requires AllHold(queues, content, cc, |next|, first, last, data)
    requires |content| == |queues| == |cc| && Proper(Clist(content[p], free)) && cc[p] > 0
    ensures queues[p] != [] && |cf| == |queues|
    ensures var b := cf[p];
            && 0 <= b < |next| == |first| == |last| == |data| && b == queues[p][0] && first[b] < |data[b]|
            && var first' := first[b := first[b] + 1];
               var (c, t) := GetC(Clist(content[p], free));
               && c == data[b][first[b]] && Proper(t) && Shaped(|next|, first', last, data)
               && (first'[b] == last[b] ==>
                     && t.free == [queues[p][0]] + free
                     && AllHold(queues[p := queues[p][1..]], content[p := t.queue], cc[p := cc[p] - 1], |next|, first', last, data))
               && (first'[b] != last[b] ==>
                     && t.free == free
                     && AllHold(queues, content[p := t.queue], cc[p := cc[p] - 1], |next|, first', last, data))
  {
    hide Lists, Shaped, Proper, GetC, Holds;
    Ends(next, cfree, free, cf, cl, queues, place, p);
    CountedNow(queues, content, cc, |next|, first, last, data, p);
    NothingToCount(content[p]);
    var b := queues[p][0];
    assert Holds(queues[p], content[p], cc[p], |next|, first, last, data);
    ReadFirst(queues[p], content[p], cc[p], |next|, first, last, data, free);
    GetIsFirst(Clist(content[p], free));
    OthersHold(next, cfree, free, cf, cl, queues, place, p, b, content, cc, first, last, data,
               first[b := first[b] + 1], last, data);
  }

  /** One character taken from the first block of a clist, as getc does it. */
  lemma ReadFirst(l: seq<nat>, q: seq<Block>, cc: nat, n: nat, first: seq<nat>, last: seq<nat>, data: seq<seq<Byte>>, free: seq<nat>)
    requires Holds(l, q, cc, n, first, last, data) && Proper(Clist(q, free)) && cc > 0
    requires forall i, j :: 0 <= i < j < |l| ==> l[i] != l[j]
    ensures l != [] && l[0] < n == |first| == |last| == |data| && first[l[0]] < last[l[0]] && first[l[0]] < |data[l[0]]|
    ensures var b := l[0];
            var first' := first[b := first[b] + 1];
            var (c, t) := GetC(Clist(q, free));
            && c == data[b][first[b]] && Shaped(n, first', last, data)
            && (first'[b] == last[b] ==> t.free == [b] + free && Holds(l[1..], t.queue, cc - 1, n, first', last, data))
            && (first'[b] != last[b] ==> t.free == free && Holds(l, t.queue, cc - 1, n, first', last, data))
  {
    hide Chars;
    GetIsFirst(Clist(q, free));
    assert Fits(q[0]);
    ReadBlocks(l, n, first, last, data);
  }

  lemma ReadBlocks(l: seq<nat>, n: nat, first: seq<nat>, last: seq<nat>, data: seq<seq<Byte>>)
    requires Shaped(n, first, last, data) && l != [] && (forall i :: 0 <= i < |l| ==> l[i] < n) && first[l[0]] < last[l[0]]
    requires forall i, j :: 0 <= i < j < |l| ==> l[i] != l[j]
    ensures var b := l[0];
            var first' := first[b := first[b] + 1];
            var q := BlocksOf(l, n, first, last, data);
            && Shaped(n, first', last, data) && (forall i :: 0 <= i < |l[1..]| ==> l[1..][i] < n)
            && q[0] == BlockOf(b, first, last, data)
            && BlocksOf(l[1..], n, first', last, data) == q[1..]
            && BlocksOf(l, n, first', last, data) == [Block(b, first[b] + 1, q[0].live[1..])] + q[1..]
  {
    var b := l[0];
    assert data[b][first[b]..last[b]][1..] == data[b][first[b] + 1..last[b]];
  }

  /** Clists a change to block `b` does not concern. */
  lemma OthersHold(next: seq<int>, cfree: int, free: seq<nat>, cf: seq<int>, cl: seq<int>, queues: seq<seq<nat>>, place: seq<int>,
                   p: nat, b: nat, content: seq<seq<Block>>, cc: seq<nat>, first0: seq<nat>, last0: seq<nat>, data0: seq<seq<Byte>>,
                   first: seq<nat>, last: seq<nat>, data: seq<seq<Byte>>)
    requires Lists(next, cfree, free, cf, cl, queues, place) && b < |place| && (place[b] == p || place[b] < 0)
    requires |queues| == |content| == |cc| && Shaped(|next|, first, last, data) && |first0| == |last0| == |data0| == |next|
    requires forall q: nat :: q < |queues| ==> Holds(queues[q], content[q], cc[q], |next|, first0, last0, data0)
    requires forall x: nat :: x < |next| && x != b ==> first[x] == first0[x] && last[x] == last0[x] && data[x] == data0[x]
    ensures forall q: nat :: q < |queues| && q != p ==> Holds(queues[q], content[q], cc[q], |next|, first, last, data)
  {
    hide Lists;
    forall q: nat | q < |queues| && q != p ensures Holds(queues[q], content[q], cc[q], |next|, first, last, data) {
      assert Holds(queues[q], content[q], cc[q], |next|, first0, last0, data0);
      NotElsewhere(next, cfree, free, cf, cl, queues, place, q, b);
      BlocksFrame(queues[q], |next|, first0, last0, data0, first, last, data);
    }
  }

  /** `d` with `cs` stored at `at` (bcopy). */
  function Overlay(d: seq<Byte>, at: nat, cs: seq<Byte>): (r: seq<Byte>)
    requires at + |cs| <= |d|
    ensures |r| == |d| && r[at..at + |cs|] == cs
    ensures forall i :: 0 <= i < |d| && !(at <= i < at + |cs|) ==> r[i] == d[i]
  {
    d[..at] + cs + d[at + |cs|..]
  }

  lemma FullIs(next: seq<int>, cfree: int, free: seq<nat>, cf: seq<int>, cl: seq<int>, queues: seq<seq<nat>>, place: seq<int>,
               p: nat, content: seq<seq<Block>>, cc: seq<nat>, first: seq<nat>, last: seq<nat>, data: seq<seq<Byte>>)
    requires Lists(next, cfree, free, cf, cl, queues, place) && p < |queues|
    requires AllHold(queues, content, cc, |next|, first, last, data)
    ensures |cl| == |queues| == |content| && (cl[p] != NULL ==> 0 <= cl[p] < |last|) && (cl[p] == NULL <==> content[p] == [])
    ensures Full(content[p]) <==> cl[p] == NULL || last[cl[p]] == CLSIZE
  {
    hide Lists;
    Ends(next, cfree, free, cf, cl, queues, place, p);
    assert Holds(queues[p], content[p], cc[p], |next|, first, last, data);
  }

  lemma NoRoom(s: Clist, c: Byte)
    requires Full(s.queue) && s.free == []
    ensures PutC(s, c) == (false, s)
  {}

  lemma OpenAlready(s: Clist)
    requires !Full(s.queue)
    ensures Opened(s) == s
  {}

  lemma PutOpened(s: Clist, c: Byte)
    requires Proper(s) && (Full(s.queue) ==> s.free != [])
    ensures Opened(s).queue != [] && 1 <= Room(Opened(s)) && PutC(s, c) == (true, Extended(Opened(s), [c]))
  {
    if Full(s.queue) {
      assert Opened(s).queue[..|s.queue|] == s.queue && [] + [c] == [c];
    }
  }

  lemma Emptied(next: seq<int>, cfree: int, free: seq<nat>, cf: seq<int>, cl: seq<int>, queues: seq<seq<nat>>, place: seq<int>,
                content: seq<seq<Block>>, cc: seq<nat>, first: seq<nat>, last: seq<nat>, data: seq<seq<Byte>>, b: nat)
    requires Lists(next, cfree, free, cf, cl, queues, place) && b < |place| && place[b] == INHAND
    requires AllHold(queues, content, cc, |next|, first, last, data)
    ensures |next| == |first| == |last| == |place|
    ensures AllHold(queues, content, cc, |next|, first[b := 0], last[b := 0], data)
  {
    hide Lists, Holds;
    Sizes(next, cfree, free, cf, cl, queues, place);
    OthersHold(next, cfree, free, cf, cl, queues, place, |queues|, b, content, cc, first, last, data, first[b := 0], last[b := 0], data);
  }

  lemma AddsEmpty(queues: seq<seq<nat>>, content: seq<seq<Block>>, cc: seq<nat>, n: nat,
                  first: seq<nat>, last: seq<nat>, data: seq<seq<Byte>>, p: nat, b: nat)
    requires AllHold(queues, content, cc, n, first, last, data) && p < |queues| && b < n
    requires |first| == |last| == n && first[b] == last[b] == 0
    ensures |content| == |queues|
    ensures AllHold(queues[p := queues[p] + [b]], content[p := content[p] + [Block(b, 0, [])]], cc, n, first, last, data)
  {
    var l, q := queues[p], content[p];
    assert Holds(l, q, cc[p], n, first, last, data);
    var e := Block(b, 0, []);
    CharsApart(q, [e]);
    CharsOne(e);
    assert BlocksOf(l + [b], n, first, last, data) == q + [e];
  }

  lemma WriteStep(next: seq<int>, cfree: int, free: seq<nat>, cf: seq<int>, cl: seq<int>, queues: seq<seq<nat>>, place: seq<int>,
                  p: nat, content: seq<seq<Block>>, cc: seq<nat>, first: seq<nat>, last: seq<nat>, data: seq<seq<Byte>>, cs: seq<Byte>)
    requires Lists(next, cfree, free, cf, cl, queues, place) && p < |queues|
    requires AllHold(queues, content, cc, |next|, first, last, data)
    requires |content| == |queues| == |cc| && content[p] != [] && |cs| <= Room(Clist(content[p], free))
    ensures |cl| == |queues| && 0 <= cl[p] < |last| == |data| && last[cl[p]] + |cs| <= CLSIZE == |data[cl[p]]|
    ensures var b := cl[p];
            AllHold(queues, content[p := Extended(Clist(content[p], free), cs).queue], cc[p := cc[p] + |cs|], |next|,
                    first, last[b := last[b] + |cs|], data[b := Overlay(data[b], last[b], cs)])
  {
    hide Lists, Overlay, Holds, Shaped;
    Ends(next, cfree, free, cf, cl, queues, place, p);
    CountedNow(queues, content, cc, |next|, first, last, data, p);
    WriteBlocks(queues[p], content[p], cc[p], |next|, first, last, data, cs, free);
    var b: nat := cl[p];
    var last', data' := last[b := last[b] + |cs|], data[b := Overlay(data[b], last[b], cs)];
    HoldsShaped(queues[p], Extended(Clist(content[p], free), cs).queue, cc[p] + |cs|, |next|, first, last', data');
    OthersHold(next, cfree, free, cf, cl, queues, place, p, b, content, cc, first, last, data, first, last', data');
  }

  lemma HoldsShaped(l: seq<nat>, q: seq<Block>, cc: nat, n: nat, first: seq<nat>, last: seq<nat>, data: seq<seq<Byte>>)
    requires Holds(l, q, cc, n, first, last, data)
    ensures Shaped(n, first, last, data)
  {}

  lemma WriteBlocks(l: seq<nat>, q: seq<Block>, cc: nat, n: nat, first: seq<nat>, last: seq<nat>, data: seq<seq<Byte>>,
                    cs: seq<Byte>, free: seq<nat>)
    requires Holds(l, q, cc, n, first, last, data) && q != [] && |cs| <= Room(Clist(q, free))
    requires forall i, j :: 0 <= i < j < |l| ==> l[i] != l[j]
    ensures l != [] && l[|l| - 1] < n == |last| == |data| && last[l[|l| - 1]] + |cs| <= CLSIZE == |data[l[|l| - 1]]|
    ensures var b := l[|l| - 1];
            Holds(l, Extended(Clist(q, free), cs).queue, cc + |cs|, n,
                  first, last[b := last[b] + |cs|], data[b := Overlay(data[b], last[b], cs)])
  {
    hide Chars;
    var k := |l| - 1;
    var b := l[k];
    var last', data' := last[b := last[b] + |cs|], data[b := Overlay(data[b], last[b], cs)];
    assert q[k] == BlockOf(b, first, last, data);
    ExtendedBlocks(l, n, first, last, data, cs, free);
    ExtendedChars(Clist(q, free), cs);
  }

  lemma ExtendedBlocks(l: seq<nat>, n: nat, first: seq<nat>, last: seq<nat>, data: seq<seq<Byte>>, cs: seq<Byte>, free: seq<nat>)
    requires Shaped(n, first, last, data) && l != [] && (forall i :: 0 <= i < |l| ==> l[i] < n)
    requires last[l[|l| - 1]] + |cs| <= CLSIZE && forall i, j :: 0 <= i < j < |l| ==> l[i] != l[j]
    ensures var b := l[|l| - 1];
            var last', data' := last[b := last[b] + |cs|], data[b := Overlay(data[b], last[b], cs)];
            && Shaped(n, first, last', data')
            && BlocksOf(l, n, first, last', data') == Extended(Clist(BlocksOf(l, n, first, last, data), free), cs).queue
  {
    var k := |l| - 1;
    var b := l[k];
    var last', data' := last[b := last[b] + |cs|], data[b := Overlay(data[b], last[b], cs)];
    assert data'[b][first[b]..last'[b]] == data[b][first[b]..last[b]] + cs;
    var q', e := BlocksOf(l, n, first, last', data'), Extended(Clist(BlocksOf(l, n, first, last, data), free), cs).queue;
    forall i | 0 <= i < |l| ensures q'[i] == e[i] {}
  }

  lemma ExtendedChars(s: Clist, cs: seq<Byte>)
    requires s.queue != []
    ensures Chars(Extended(s, cs).queue) == Chars(s.queue) + cs
  {
    hide Chars;
    var k := |s.queue| - 1;
    var b := s.queue[k];
    var b1 := b.(live := b.live + cs);
    CharsApart(s.queue[..k], [b]);
    CharsApart(s.queue[..k], [b1]);
    CharsOne(b);
    CharsOne(b1);
    assert s.queue == s.queue[..k] + [b];
  }

  lemma Refilled(next: seq<int>, cfree: int, free: seq<nat>, cf: seq<int>, cl: seq<int>, queues: seq<seq<nat>>, place: seq<int>,
                 content: seq<seq<Block>>, cc: seq<nat>, first: seq<nat>, last: seq<nat>, data: seq<seq<Byte>>, b: nat)
    requires Lists(next, cfree, free, cf, cl, queues, place) && b < |place| && place[b] == INHAND
    requires AllHold(queues, content, cc, |next|, first, last, data)
    ensures |next| == |first| == |last| == |place|
    ensures AllHold(queues, content, cc, |next|, first[b := 0], last[b := CLSIZE], data)
  {
    hide Lists, Holds;
    Sizes(next, cfree, free, cf, cl, queues, place);
    OthersHold(next, cfree, free, cf, cl, queues, place, |queues|, b, content, cc, first, last, data,
               first[b := 0], last[b := CLSIZE], data);
  }

  /** The first block of a clist goes, with its characters. */
  lemma TakeBlock(queues: seq<seq<nat>>, content: seq<seq<Block>>, cc: seq<nat>, n: nat,
                  first: seq<nat>, last: seq<nat>, data: seq<seq<Byte>>, p: nat)
    requires AllHold(queues, content, cc, n, first, last, data) && p < |queues| && queues[p] != []
    ensures |content| == |cc| == |queues| && content[p] != [] && |first| == |last| == |data| == n && queues[p][0] < n
    ensures var b := queues[p][0];
            && first[b] <= last[b] <= |data[b]| && content[p][0] == BlockOf(b, first, last, data)
            && last[b] - first[b] <= cc[p]
            && AllHold(queues[p := queues[p][1..]], content[p := content[p][1..]], cc[p := cc[p] - (last[b] - first[b])],
                       n, first, last, data)
  {
    var l, q := queues[p], content[p];
    assert Holds(l, q, cc[p], n, first, last, data);
    assert BlocksOf(l[1..], n, first, last, data) == q[1..];
    assert |Chars(q)| == |q[0].live| + |Chars(q[1..])|;
  }

  lemma ProperTail(content: seq<seq<Block>>, p: nat)
    requires AllProper(content) && p < |content| && content[p] != []
    ensures AllProper(content[p := content[p][1..]])
  {
    assert Proper(Clist(content[p], []));
  }

  lemma AddsBlock(queues: seq<seq<nat>>, content: seq<seq<Block>>, cc: seq<nat>, n: nat,
                  first: seq<nat>, last: seq<nat>, data: seq<seq<Byte>>, p: nat, b: nat)
    requires AllHold(queues, content, cc, n, first, last, data) && p < |queues| && b < n
    ensures |content| == |queues| == |cc| && |first| == |last| == |data| == n && first[b] <= last[b] <= |data[b]|
    ensures AllHold(queues[p := queues[p] + [b]], content[p := content[p] + [BlockOf(b, first, last, data)]],
                    cc[p := cc[p] + (last[b] - first[b])], n, first, last, data)
  {
    var l, q := queues[p], content[p];
    assert Holds(l, q, cc[p], n, first, last, data);
    var e := BlockOf(b, first, last, data);
    CharsApart(q, [e]);
    CharsOne(e);
    assert BlocksOf(l + [b], n, first, last, data) == q + [e];
  }

  /** What one turn of getcbp takes, and leaves. */
  function Turn(s: Clist, n: nat): (seq<Byte>, Clist)
    requires s.queue != [] && n > 0
  {
    var b := s.queue[0];
    if n >= |b.live| then (b.live, Clist(s.queue[1..], [b.id] + s.free))
    else (b.live[..n], Clist([Block(b.id, b.first + n, b.live[n..])] + s.queue[1..], s.free))
  }

  lemma TurnProper(s: Clist, n: nat)
    requires Proper(s) && s.queue != [] && n > 0
    ensures Proper(Turn(s, n).1) && 0 < |Turn(s, n).0| <= n
  {
    assert Fits(s.queue[0]);
  }

  lemma TurnIs(s: Clist, n: nat)
    requires Proper(s) && s.queue != [] && n > 0
    ensures var (on, t) := Turn(s, n);
            && Proper(t) && 0 < |on| <= n
            && GetBlocks(s, n) == (on + GetBlocks(t, n - |on|).0, GetBlocks(t, n - |on|).1)
  {
    TurnProper(s, n);
    var (on, t) := Turn(s, n);
    if n < |s.queue[0].live| { assert on + [] == on; }
  }

  lemma TurnsOn(a: seq<Byte>, b: seq<Byte>, c: seq<Byte>)
    ensures a + (b + c) == a + b + c
  {}

  lemma NoMore(s: Clist, n: nat)
    requires Proper(s) && (n == 0 || s.queue == [])
    ensures GetBlocks(s, n) == ([], s)
  {}

  /** The first n characters of the first block, which has more, go. */
  lemma ShortenStep(next: seq<int>, cfree: int, free: seq<nat>, cf: seq<int>, cl: seq<int>, queues: seq<seq<nat>>, place: seq<int>,
                    p: nat, content: seq<seq<Block>>, cc: seq<nat>, first: seq<nat>, last: seq<nat>, data: seq<seq<Byte>>, n: nat)
    requires Lists(next, cfree, free, cf, cl, queues, place) && p < |queues|
    requires AllHold(queues, content, cc, |next|, first, last, data) && |content| == |queues| == |cc|
    requires content[p] != [] && 0 < n < |content[p][0].live| && n <= cc[p]
    ensures queues[p] != [] && queues[p][0] < |first|
    ensures var b, e := queues[p][0], content[p][0];
            AllHold(queues, content[p := [Block(e.id, e.first + n, e.live[n..])] + content[p][1..]], cc[p := cc[p] - n], |next|,
                    first[b := first[b] + n], last, data)
  {
    hide Lists, Holds, Shaped;
    Ends(next, cfree, free, cf, cl, queues, place, p);
    CountedNow(queues, content, cc, |next|, first, last, data, p);
    ShortenBlocks(queues[p], content[p], cc[p], |next|, first, last, data, n);
    var b, e := queues[p][0], content[p][0];
    var first' := first[b := first[b] + n];
    var q' := [Block(e.id, e.first + n, e.live[n..])] + content[p][1..];
    HoldsShaped(queues[p], q', cc[p] - n, |next|, first', last, data);
    OthersHold(next, cfree, free, cf, cl, queues, place, p, b, content, cc, first, last, data, first', last, data);
  }

  lemma ShortenBlocks(l: seq<nat>, q: seq<Block>, cc: nat, m: nat, first: seq<nat>, last: seq<nat>, data: seq<seq<Byte>>, n: nat)
    requires Holds(l, q, cc, m, first, last, data) && q != [] && n < |q[0].live| && n <= cc
    requires forall i, j :: 0 <= i < j < |l| ==> l[i] != l[j]
    ensures l != [] && l[0] < |first| && q[0] == BlockOf(l[0], first, last, data)
    ensures Holds(l, [Block(q[0].id, q[0].first + n, q[0].live[n..])] + q[1..], cc - n, m,
                  first[l[0] := first[l[0]] + n], last, data)
  {
    var b := l[0];
    var q' := [Block(q[0].id, q[0].first + n, q[0].live[n..])] + q[1..];
    assert data[b][first[b]..last[b]][n..] == data[b][first[b] + n..last[b]];
    assert q'[1..] == q[1..];
  }

  /** What one turn of putcbp stores, and the clist after it. */
  function PutTurn(s: Clist, cs: seq<Byte>): (nat, Clist)
    requires Proper(s) && cs != [] && (Full(s.queue) ==> s.free != [])
  {
    var o := Opened(s);
    OpenedProper(s, []);
    var m := if |cs| >= Room(o) then Room(o) else |cs|;
    (m, Extended(o, cs[..m]))
  }

  lemma PutTurnProper(s: Clist, cs: seq<Byte>)
    requires Proper(s) && cs != [] && (Full(s.queue) ==> s.free != [])
    ensures var o := Opened(s); o.queue != [] && 0 < Room(o) && Proper(PutTurn(s, cs).1)
    ensures 0 < PutTurn(s, cs).0 <= |cs|
  {
    var o := Opened(s);
    OpenedProper(s, []);
    var m := if |cs| >= Room(o) then Room(o) else |cs|;
    OpenedProper(s, cs[..m]);
  }

  lemma PutTurnIs(s: Clist, cs: seq<Byte>)
    requires Proper(s) && cs != [] && (Full(s.queue) ==> s.free != [])
    ensures var (m, t) := PutTurn(s, cs);
            && Proper(t) && 0 < m <= |cs|
            && PutBlocks(s, cs) == (m + PutBlocks(t, cs[m..]).0, PutBlocks(t, cs[m..]).1)
  {
    PutTurnProper(s, cs);
  }

  lemma NoneGo(s: Clist, cs: seq<Byte>)
    requires Proper(s) && (cs == [] || (Full(s.queue) && s.free == []))
    ensures PutBlocks(s, cs) == (0, s)
  {}

  lemma RoomIs(next: seq<int>, cfree: int, free: seq<nat>, cf: seq<int>, cl: seq<int>, queues: seq<seq<nat>>, place: seq<int>,
               p: nat, content: seq<seq<Block>>, cc: seq<nat>, first: seq<nat>, last: seq<nat>, data: seq<seq<Byte>>)
    requires Lists(next, cfree, free, cf, cl, queues, place) && p < |queues|
    requires AllHold(queues, content, cc, |next|, first, last, data) && |content| == |queues| && content[p] != []
    ensures |cl| == |queues| && 0 <= cl[p] < |last| && Room(Clist(content[p], free)) == CLSIZE - last[cl[p]]
  {
    hide Lists;
    Ends(next, cfree, free, cf, cl, queues, place, p);
    assert Holds(queues[p], content[p], cc[p], |next|, first, last, data);
  }
}
