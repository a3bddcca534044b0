/** The directory name cache as a bounded list of entries in last-use order. */
module CacheSpec {
  import opened Common
  import opened Rings

  const NC_NAMLEN := 15
  const NC_HASH_SIZE := 8
  const NOCRED := 0
  const ANYCRED := -1

  /** A cache slot. Vnodes and credentials are named by their addresses, NULL being 0;
      a slot whose `dp` is NULL is free. `name` is the first `namlen` bytes of the slot's name. */
  datatype Slot = Slot(dp: nat, name: seq<nat>, cred: int, vp: nat)

  function NcHash(name: seq<nat>, dp: nat): (h: nat)
    requires |name| > 0
    ensures h < NC_HASH_SIZE
  {
    (name[0] + name[|name| - 1] + |name| + dp) % NC_HASH_SIZE
  }

  predicate Matches(s: Slot, dp: nat, name: seq<nat>, cred: int)
  {
    s.dp == dp && s.name == name && (cred == ANYCRED || s.cred == cred)
  }

  predicate SameKey(a: Slot, b: Slot)
  {
    a.dp == b.dp && a.name == b.name && a.cred == b.cred
  }

  predicate InUse(s: Slot)
  {
    s.dp != 0 && s.vp != 0 && s.cred >= 0 && 0 < |s.name| <= NC_NAMLEN
  }

  /** What every cache satisfies: bounded, its entries in use, no key twice. */
  predicate Cache(e: seq<Slot>, size: nat)
  {
    && |e| <= size
    && (forall i :: 0 <= i < |e| ==> InUse(e[i]))
    && (forall i, j :: 0 <= i < j < |e| ==> !SameKey(e[i], e[j]))
  }

  /** The first match in `e`, or |e|. */
  function Find(e: seq<Slot>, dp: nat, name: seq<nat>, cred: int): (i: nat)
    ensures i <= |e|
    ensures i < |e| ==> Matches(e[i], dp, name, cred)
    ensures forall j :: 0 <= j < i ==> !Matches(e[j], dp, name, cred)
  {
    if e == [] || Matches(e[0], dp, name, cred) then 0 else 1 + Find(e[1..], dp, name, cred)
  }

  /** Entry `i` becomes the last used. */
  function Touch(e: seq<Slot>, i: nat): (r: seq<Slot>)
    requires i < |e|
  {
    DeleteAt(e, i) + [e[i]]
  }

  /** A new name goes in as the last used, in place of the least recently used when all
      `size` slots are taken; a name already there is left as it is. */
  function Enter(e: seq<Slot>, size: nat, s: Slot): seq<Slot>
    requires |e| <= size
  {
    if Find(e, s.dp, s.name, s.cred) < |e| || size == 0 then e
    else (if |e| == size then e[1..] else e) + [s]
  }

  // -------------------------------------------------------- what a lookup sees

  /** The vnode looked up, NULL when there is none. */
  function Answer(e: seq<Slot>, dp: nat, name: seq<nat>, cred: int): nat
  {
    var i := Find(e, dp, name, cred);
    if i < |e| then e[i].vp else 0
  }

  lemma OnlyMatch(e: seq<Slot>, size: nat, dp: nat, name: seq<nat>, cred: int, i: nat)
    requires Cache(e, size) && i < |e| && Matches(e[i], dp, name, cred) && cred != ANYCRED
    ensures Find(e, dp, name, cred) == i && Answer(e, dp, name, cred) == e[i].vp
  {
    var j := Find(e, dp, name, cred);
    if j < i { assert SameKey(e[j], e[i]); }
  }

  lemma OtherEntry(e: seq<Slot>, size: nat, dp: nat, name: seq<nat>, cred: int, i: nat, j: nat)
    requires Cache(e, size) && i == Find(e, dp, name, cred) && i != j && j < |e| && cred != ANYCRED
    ensures !Matches(e[j], dp, name, cred)
  {
    assert i < j ==> !SameKey(e[i], e[j]);
  }

  lemma AppendKeeps(e: seq<Slot>, size: nat, s: Slot, d: nat)
    requires Cache(e, size) && InUse(s) && d <= |e| && |e| - d < size && Find(e, s.dp, s.name, s.cred) == |e|
    ensures Cache(e[d..] + [s], size)
  {
    var e' := e[d..] + [s];
    assert forall i :: 0 <= i < |e'| - 1 ==> e'[i] == e[i + d];
    assert forall i :: 0 <= i < |e| ==> !Matches(e[i], s.dp, s.name, s.cred);
  }

  lemma AppendAnswers(e: seq<Slot>, size: nat, s: Slot, d: nat, dp: nat, name: seq<nat>, cred: int)
    requires d <= |e| && d <= 1 && cred != ANYCRED && Cache(e, size) && Cache(e[d..] + [s], size)
    ensures Answer(e[d..] + [s], dp, name, cred) ==
            if Matches(s, dp, name, cred) then s.vp
            else if d == 1 && Matches(e[0], dp, name, cred) then 0
            else Answer(e, dp, name, cred)
  {
    hide Cache, Matches;
    var e' := e[d..] + [s];
    assert forall i :: 0 <= i < |e'| - 1 ==> e'[i] == e[i + d];
    if Matches(s, dp, name, cred) {
      OnlyMatch(e', size, dp, name, cred, |e'| - 1);
    } else {
      var i := Find(e, dp, name, cred);
      if i == |e| || i < d {
        forall j | 0 <= j < |e'| - 1 ensures !Matches(e'[j], dp, name, cred) {
          OtherEntry(e, size, dp, name, cred, i, j + d);
        }
      } else {
        OnlyMatch(e', size, dp, name, cred, i - d);
      }
    }
  }

  /** Entering a new name changes the answer for it, and for the name evicted, and no other;
      entering a name already present changes nothing, even when the vnode differs. */
  lemma EnterAnswers(e: seq<Slot>, size: nat, s: Slot, dp: nat, name: seq<nat>, cred: int)
    requires Cache(e, size) && InUse(s) && size > 0 && cred != ANYCRED
    ensures Cache(Enter(e, size, s), size)
    ensures var a, b := Answer(e, dp, name, cred), Answer(Enter(e, size, s), dp, name, cred);
            if Answer(e, s.dp, s.name, s.cred) != 0 then b == a
            else if Matches(s, dp, name, cred) then b == s.vp
            else if |e| == size && Matches(e[0], dp, name, cred) then b == 0
            else b == a
  {
    if Find(e, s.dp, s.name, s.cred) == |e| {
      var d := if |e| == size then 1 else 0;
      hide Matches;
      assert Enter(e, size, s) == e[d..] + [s];
      AppendKeeps(e, size, s, d);
      AppendAnswers(e, size, s, d, dp, name, cred);
    }
  }

  lemma TouchAnswers(e: seq<Slot>, size: nat, k: nat, dp: nat, name: seq<nat>, cred: int)
    requires Cache(e, size) && k < |e| && cred != ANYCRED
    ensures Cache(Touch(e, k), size) && Answer(Touch(e, k), dp, name, cred) == Answer(e, dp, name, cred)
  {
    var e' := Touch(e, k);
    assert forall i :: 0 <= i < |e'| ==> e'[i] == if i < k then e[i] else if i < |e| - 1 then e[i + 1] else e[k];
    forall i, j | 0 <= i < j < |e'| ensures !SameKey(e'[i], e'[j]) {}
    var i := Find(e, dp, name, cred);
    if i < |e| {
      OnlyMatch(e', size, dp, name, cred, if i < k then i else if i == k then |e| - 1 else i - 1);
    } else {
      assert forall j :: 0 <= j < |e'| ==> !Matches(e'[j], dp, name, cred);
    }
  }

  /** dnlc_lookup moves a hit one place forward on its hash chain `c`, from place i to i - 1.
      That changes the answer to a lookup exactly when the two neighbours are the first entries
      that match it and name different vnodes, which takes a lookup under ANYCRED. */
  lemma ForwardAnswers(c: seq<Slot>, i: nat, dp: nat, name: seq<nat>, cred: int)
    requires 0 < i < |c| && !SameKey(c[i - 1], c[i]) && (forall j :: 0 <= j < |c| ==> c[j].cred != ANYCRED)
    ensures var c' := InsertAt(DeleteAt(c, i), i - 1, c[i]);
            Answer(c', dp, name, cred) ==
            if Find(c, dp, name, cred) == i - 1 && Matches(c[i], dp, name, cred) then c[i].vp
            else Answer(c, dp, name, cred)
    ensures var c' := InsertAt(DeleteAt(c, i), i - 1, c[i]);
            Answer(c', dp, name, cred) != Answer(c, dp, name, cred) <==>
            Find(c, dp, name, cred) == i - 1 && Matches(c[i], dp, name, cred) && c[i].vp != c[i - 1].vp
    ensures Find(c, dp, name, cred) == i - 1 && Matches(c[i], dp, name, cred) ==> cred == ANYCRED
  {
    var c' := InsertAt(DeleteAt(c, i), i - 1, c[i]);
    assert forall j :: 0 <= j < |c'| ==> c'[j] == if j == i - 1 then c[i] else if j == i then c[i - 1] else c[j];
    var f, f' := Find(c, dp, name, cred), Find(c', dp, name, cred);
    if f == |c| {
      assert f' == |c'|;
    } else if f == i {
      assert f' == i - 1;
    } else if f == i - 1 {
      assert f' == if Matches(c[i], dp, name, cred) then i - 1 else i;
    } else {
      assert f' == f;
    }
  }

  /** One name in one directory, cached for the credentials 5 and 6 with the vnodes 7 and 8: a
      lookup under 6 makes 8 the answer under ANYCRED, which was 7. */
  lemma ForwardExample(dp: nat, name: seq<nat>)
    requires dp != 0 && 0 < |name| <= NC_NAMLEN
    ensures var c := [Slot(dp, name, 5, 7), Slot(dp, name, 6, 8)];
            && Cache(c, 2) && Find(c, dp, name, 6) == 1
            && Answer(c, dp, name, ANYCRED) == 7
            && Answer(InsertAt(DeleteAt(c, 1), 0, c[1]), dp, name, ANYCRED) == 8
  {
    var c := [Slot(dp, name, 5, 7), Slot(dp, name, 6, 8)];
    assert Find(c[1..], dp, name, 6) == 0;
    ForwardAnswers(c, 1, dp, name, ANYCRED);
  }

  // ------------------------------------------------------------ last-use order

  datatype Use = Entering(s: Slot) | LookingUp(dp: nat, name: seq<nat>, cred: int)

  function KeyOf(u: Use): (nat, seq<nat>, int)
  {
    match u
    case Entering(s) => (s.dp, s.name, s.cred)
    case LookingUp(dp, name, cred) => (dp, name, cred)
  }

  /** One dnlc_enter or dnlc_lookup under a given credential. */
  function Used(e: seq<Slot>, size: nat, u: Use): seq<Slot>
    requires |e| <= size
  {
    match u
    case Entering(s) => Enter(e, size, s)
    case LookingUp(dp, name, cred) =>
      var i := Find(e, dp, name, cred);
      if i < |e| then Touch(e, i) else e
  }

  predicate Legal(u: Use)
  {
    match u
    case Entering(s) => InUse(s)
    case LookingUp(_, _, cred) => cred != ANYCRED
  }

  function RunUses(e: seq<Slot>, size: nat, us: seq<Use>): (r: seq<Slot>)
    requires |e| <= size
    ensures |r| <= size
  {
    if us == [] then e
    else
      var n := |us| - 1;
      Used(RunUses(e, size, us[..n]), size, us[n])
  }

  ghost function Keys(us: seq<Use>): set<(nat, seq<nat>, int)>
  {
    set u | u in us :: KeyOf(u)
  }

  /** The keys of the entries used since entry `i`. */
  ghost function Since(e: seq<Slot>, i: nat): set<(nat, seq<nat>, int)>
    requires i < |e|
  {
    set j | i < j < |e| :: (e[j].dp, e[j].name, e[j].cred)
  }

  lemma {:induction false} SinceSize(e: seq<Slot>, size: nat, i: nat)
    requires Cache(e, size) && i < |e|
    ensures |Since(e, i)| == |e| - 1 - i
    decreases |e| - i
  {
    if i + 1 < |e| {
      SinceSize(e, size, i + 1);
      var k := (e[i + 1].dp, e[i + 1].name, e[i + 1].cred);
      assert Since(e, i) == Since(e, i + 1) + {k};
      forall j | i + 1 < j < |e| ensures (e[j].dp, e[j].name, e[j].cred) != k {
        assert !SameKey(e[i + 1], e[j]);
      }
    } else {
      assert Since(e, i) == {};
    }
  }

  /** Eviction is least recently used over whole runs: an entry outlives every run of enters
      and lookups that uses fewer than `size` different names, and stays at its rank among
      the names used since. */
  lemma {:induction false} RecentlyUsedSurvive(e: seq<Slot>, size: nat, us: seq<Use>, i: nat)
    requires Cache(e, size) && i < |e|
    requires forall u :: u in us ==> Legal(u)
    requires |Since(e, i) + Keys(us)| < size
    ensures var r := RunUses(e, size, us);
            && Cache(r, size) && e[i] in r
            && forall j :: 0 <= j < |r| && r[j] == e[i] ==> Since(r, j) <= Since(e, i) + Keys(us)
    decreases |us|
  {
    if us == [] {
      forall j | 0 <= j < |e| && e[j] == e[i] ensures j == i {
        assert SameKey(e[i], e[j]);
      }
    } else {
      var n := |us| - 1;
      var past, u := us[..n], us[n];
      assert us == past + [u];
      assert Keys(past) <= Keys(us) && KeyOf(u) in Keys(us);
      SetGrows(Since(e, i) + Keys(past), Since(e, i) + Keys(us));
      RecentlyUsedSurvive(e, size, past, i);
      var r := RunUses(e, size, past);
      var j: nat :| j < |r| && r[j] == e[i];
      UseKeeps(r, size, u, j, Since(e, i) + Keys(us));
    }
  }

  lemma SetGrows<T>(a: set<T>, b: set<T>)
    requires a <= b
    ensures |a| <= |b|
  {
    assert b == a + (b - a);
  }

  lemma EvictedIsOlder(r: seq<Slot>, size: nat, j: nat, key: (nat, seq<nat>, int), keys: set<(nat, seq<nat>, int)>)
    requires Cache(r, size) && j < |r| == size && Since(r, j) <= keys && key in keys && |keys| < size
    requires Find(r, key.0, key.1, key.2) == |r|
    ensures j > 0
  {
    SinceSize(r, size, j);
    assert key !in Since(r, j);
    SetGrows(Since(r, j) + {key}, keys);
  }

  lemma AppendSince(r: seq<Slot>, x: Slot, j: nat)
    requires j < |r|
    ensures (r + [x])[j] == r[j] && Since(r + [x], j) <= Since(r, j) + {(x.dp, x.name, x.cred)}
  {}

  lemma MoveSince(r: seq<Slot>, d: nat, x: Slot, j: nat) returns (p: nat)
    requires j < |r| && d < |r| && d != j
    ensures var r' := DeleteAt(r, d) + [x];
            p < |r'| && r'[p] == r[j] && Since(r', p) <= Since(r, j) + {(x.dp, x.name, x.cred)}
  {
    p := if j < d then j else j - 1;
    var r' := DeleteAt(r, d) + [x];
    forall k | p < k < |r'|
      ensures (r'[k].dp, r'[k].name, r'[k].cred) in Since(r, j) + {(x.dp, x.name, x.cred)}
    {
      assert r'[k] == if k == |r| - 1 then x else if k < d then r[k] else r[k + 1];
    }
  }

  lemma UseKeeps(r: seq<Slot>, size: nat, u: Use, j: nat, keys: set<(nat, seq<nat>, int)>)
    requires Cache(r, size) && j < |r| && Legal(u)
    requires Since(r, j) <= keys && KeyOf(u) in keys && |keys| < size
    ensures var r' := Used(r, size, u);
            && Cache(r', size) && r[j] in r'
            && forall k :: 0 <= k < |r'| && r'[k] == r[j] ==> Since(r', k) <= keys
  {
    hide Cache, Since;
    CacheFits(r, size);
    var r' := Used(r, size, u);
    UseKeepsCache(r, size, u);
    var p := UsePlace(r, size, u, j, keys);
    forall k | 0 <= k < |r'| && r'[k] == r[j] ensures k == p {
      OnePlace(r', size, k, p);
    }
  }

  lemma CacheFits(e: seq<Slot>, size: nat)
    requires Cache(e, size)
    ensures |e| <= size
  {}

  lemma OnePlace(r: seq<Slot>, size: nat, j: nat, k: nat)
    requires Cache(r, size) && j < |r| && k < |r| && r[j] == r[k]
    ensures j == k
  {
    assert SameKey(r[j], r[k]);
  }

  lemma UseKeepsCache(r: seq<Slot>, size: nat, u: Use)
    requires Cache(r, size) && |r| <= size && Legal(u)
    ensures Cache(Used(r, size, u), size)
  {
    hide Cache;
    var (dp, name, cred) := KeyOf(u);
    if u.Entering? && size > 0 {
      EnterAnswers(r, size, u.s, dp, name, cred);
    } else if u.LookingUp? && Find(r, dp, name, cred) < |r| {
      TouchAnswers(r, size, Find(r, dp, name, cred), dp, name, cred);
    }
  }

  lemma UsePlace(r: seq<Slot>, size: nat, u: Use, j: nat, keys: set<(nat, seq<nat>, int)>) returns (p: nat)
    requires Cache(r, size) && j < |r| && Legal(u)
    requires Since(r, j) <= keys && KeyOf(u) in keys && |keys| < size
    ensures var r' := Used(r, size, u); p < |r'| && r'[p] == r[j] && Since(r', p) <= keys
  {
    hide Since;
    var (dp, name, cred) := KeyOf(u);
    var f := Find(r, dp, name, cred);
    p := j;
    if u.Entering? && f == |r| {
      if |r| == size {
        EvictedIsOlder(r, size, j, KeyOf(u), keys);
        assert r[1..] == DeleteAt(r, 0);
        p := MoveSince(r, 0, u.s, j);
      } else {
        AppendSince(r, u.s, j);
      }
    } else if u.LookingUp? && f < |r| {
      if f == j {
        p := |r| - 1;
        LastSince(Touch(r, f));
      } else {
        p := MoveSince(r, f, r[f], j);
      }
    }
  }

  lemma LastSince(r: seq<Slot>)
    requires r != []
    ensures Since(r, |r| - 1) == {}
  {}

  // ------------------------------------------------------------------ purging

  /** What a purge is aimed at: a name in a directory, a vnode, or a file system (the vnodes
      whose v_vfsp it is). */
  datatype Target = Named(dp: nat, name: seq<nat>) | Vnode(vp: nat) | Vfs(vfsp: nat, vfsOf: nat -> nat) | Anything

  predicate Doomed(t: Target, s: Slot)
  {
    match t
    case Named(dp, name) => Matches(s, dp, name, ANYCRED)
    case Vnode(vp) => s.dp == vp || s.vp == vp
    case Vfs(vfsp, vfsOf) => vfsOf(s.dp) == vfsp || vfsOf(s.vp) == vfsp
    case Anything => true
  }

  function DoomedIn(e: seq<Slot>, t: Target): (n: nat)
    ensures n <= |e|
  {
    if e == [] then 0 else (if Doomed(t, e[0]) then 1 else 0) + DoomedIn(e[1..], t)
  }

  /** `e` without the `n` least recently used of the entries aimed at. */
  function Purged(e: seq<Slot>, t: Target, n: nat): seq<Slot>
  {
    if e == [] || n == 0 then e
    else if Doomed(t, e[0]) then Purged(e[1..], t, n - 1)
    else [e[0]] + Purged(e[1..], t, n)
  }

  /** Every entry not aimed at stays, in order; of the others min(n, how many) go. */
  lemma {:induction false} PurgedCount(e: seq<Slot>, t: Target, n: nat)
    ensures var d := if n < DoomedIn(e, t) then n else DoomedIn(e, t);
            && |Purged(e, t, n)| == |e| - d
            && DoomedIn(Purged(e, t, n), t) == DoomedIn(e, t) - d
    ensures forall s :: s in e && !Doomed(t, s) ==> s in Purged(e, t, n)
    ensures forall s :: s in Purged(e, t, n) ==> s in e
    ensures n >= DoomedIn(e, t) ==> forall s :: s in Purged(e, t, n) ==> !Doomed(t, s)
  {
    if e != [] && n > 0 {
      PurgedCount(e[1..], t, if Doomed(t, e[0]) then n - 1 else n);
      if !Doomed(t, e[0]) {
        var r := Purged(e[1..], t, n);
        assert ([e[0]] + r)[1..] == r;
      }
    } else if e != [] {
      NoneDoomed(e, t);
    }
  }

  lemma {:induction false} NoneDoomed(e: seq<Slot>, t: Target)
    ensures DoomedIn(e, t) == 0 <==> forall s :: s in e ==> !Doomed(t, s)
  {
    if e != [] { NoneDoomed(e[1..], t); }
  }

  lemma {:induction false} HitsCount(e: seq<Slot>, t: Target, hit: Slot -> bool)
    requires forall s :: hit(s) == Doomed(t, s)
    ensures DoomedIn(e, t) == |Keeping(e, hit)|
  {
    hide Doomed;
    if e != [] { HitsCount(e[1..], t, hit); }
  }

  /** A purge takes the first of the entries aimed at. */
  lemma {:induction false} PurgedHits(e: seq<Slot>, t: Target, n: nat, hit: Slot -> bool)
    requires n <= |Keeping(e, hit)| && forall s :: hit(s) == Doomed(t, s)
    ensures Keeping(Purged(e, t, n), hit) == Keeping(e, hit)[n..]
  {
    hide Doomed;
    if e != [] && n > 0 {
      var s, rest := e[0], e[1..];
      if hit(s) {
        PurgedHits(rest, t, n - 1, hit);
        assert Keeping(e, hit)[n..] == Keeping(rest, hit)[n - 1..];
      } else {
        PurgedHits(rest, t, n, hit);
        assert Keeping(e, hit) == Keeping(rest, hit);
        KeepingCons(s, Purged(rest, t, n), hit);
      }
    }
  }

  /** It takes no other. */
  lemma {:induction false} PurgedMisses(e: seq<Slot>, t: Target, n: nat, miss: Slot -> bool)
    requires forall s :: miss(s) == !Doomed(t, s)
    ensures Keeping(Purged(e, t, n), miss) == Keeping(e, miss)
  {
    hide Doomed;
    if e != [] && n > 0 {
      var s, rest := e[0], e[1..];
      if miss(s) {
        PurgedMisses(rest, t, n, miss);
        KeepingCons(s, Purged(rest, t, n), miss);
      } else {
        PurgedMisses(rest, t, n - 1, miss);
      }
    }
  }

  /** All of them gone, the entries are those not aimed at. */
  lemma {:induction false} PurgedAll(e: seq<Slot>, t: Target, n: nat, miss: Slot -> bool)
    requires n >= DoomedIn(e, t) && forall s :: miss(s) == !Doomed(t, s)
    ensures Purged(e, t, n) == Keeping(e, miss)
  {
    hide Doomed;
    if e != [] {
      var s, rest := e[0], e[1..];
      if miss(s) {
        PurgedAll(rest, t, n, miss);
        assert n == 0 ==> e == [s] + rest && Purged(rest, t, 0) == rest;
      } else {
        PurgedAll(rest, t, n - 1, miss);
      }
    }
  }

  /** No holds on a vnode that no entry names. */
  lemma {:induction false} NoHoldsLeft(e: seq<Slot>, vp: nat)
    requires forall s :: s in e ==> s.dp != vp && s.vp != vp
    ensures VnodeHolds(e)[vp] == 0
  {
    if e != [] { NoHoldsLeft(e[..|e| - 1], vp); }
  }

  lemma PurgedVnode(e: seq<Slot>, vp: nat)
    ensures var r := Purged(e, Vnode(vp), DoomedIn(e, Vnode(vp)));
            && r == Keeping(e, (s: Slot) => s.dp != vp && s.vp != vp)
            && (forall s :: s in r ==> s.dp != vp && s.vp != vp)
            && VnodeHolds(r)[vp] == 0
  {
    PurgedAll(e, Vnode(vp), DoomedIn(e, Vnode(vp)), (s: Slot) => s.dp != vp && s.vp != vp);
    NoHoldsLeft(Purged(e, Vnode(vp), DoomedIn(e, Vnode(vp))), vp);
  }

  lemma PurgedName(e: seq<Slot>, dp: nat, name: seq<nat>)
    ensures var r := Purged(e, Named(dp, name), DoomedIn(e, Named(dp, name)));
            && r == Keeping(e, (s: Slot) => s.dp != dp || s.name != name)
            && forall s :: s in r ==> s.dp != dp || s.name != name
  {
    PurgedAll(e, Named(dp, name), DoomedIn(e, Named(dp, name)), (s: Slot) => s.dp != dp || s.name != name);
  }

  /** What dnlc_purge_vfsp did: of the entries whose directory or vnode is of the file system the first
      n are gone, and no other entry is. */
  ghost predicate PurgedOf(was: seq<Slot>, now: seq<Slot>, vfsp: nat, vfsOf: nat -> nat, n: nat)
  {
    var own := (s: Slot) => vfsOf(s.dp) == vfsp || vfsOf(s.vp) == vfsp;
    var other := (s: Slot) => vfsOf(s.dp) != vfsp && vfsOf(s.vp) != vfsp;
    && n <= OfVfs(was, vfsp, vfsOf) && Keeping(now, own) == Keeping(was, own)[n..]
    && Keeping(now, other) == Keeping(was, other)
    && (n == OfVfs(was, vfsp, vfsOf) ==> now == Keeping(was, other))
  }

  /** The number of entries whose directory or vnode is of the file system. */
  function OfVfs(e: seq<Slot>, vfsp: nat, vfsOf: nat -> nat): nat
  {
    |Keeping(e, (s: Slot) => vfsOf(s.dp) == vfsp || vfsOf(s.vp) == vfsp)|
  }

  lemma PurgedVfs(e: seq<Slot>, vfsp: nat, vfsOf: nat -> nat, n: nat)
    ensures DoomedIn(e, Vfs(vfsp, vfsOf)) == OfVfs(e, vfsp, vfsOf)
    ensures var all := OfVfs(e, vfsp, vfsOf);
            PurgedOf(e, Purged(e, Vfs(vfsp, vfsOf), n), vfsp, vfsOf, if n < all then n else all)
  {
    var own := (s: Slot) => vfsOf(s.dp) == vfsp || vfsOf(s.vp) == vfsp;
    var other := (s: Slot) => vfsOf(s.dp) != vfsp && vfsOf(s.vp) != vfsp;
    var t := Vfs(vfsp, vfsOf);
    HitsCount(e, t, own);
    var all := |Keeping(e, own)|;
    var d := if n < all then n else all;
    PurgedHits(e, t, d, own);
    PurgedMisses(e, t, d, other);
    if n >= all {
      PurgedAll(e, t, n, other);
      PurgedAll(e, t, all, other);
    }
  }

  /** Removing the first entry aimed at is one step of a purge. */
  lemma {:induction false} PurgeFirst(e: seq<Slot>, t: Target, n: nat, k: nat)
    requires k < |e| && Doomed(t, e[k]) && n > 0
    requires forall j :: 0 <= j < k ==> !Doomed(t, e[j])
    ensures Purged(e, t, n) == Purged(DeleteAt(e, k), t, n - 1)
    ensures DoomedIn(DeleteAt(e, k), t) == DoomedIn(e, t) - 1
  {
    if k > 0 {
      PurgeFirst(e[1..], t, n, k - 1);
      assert DeleteAt(e, k) == [e[0]] + DeleteAt(e[1..], k - 1);
      assert DeleteAt(e, k)[1..] == DeleteAt(e[1..], k - 1);
    } else {
      assert DeleteAt(e, 0) == e[1..];
    }
  }

  /** When all of them go it does not matter in which order. */
  lemma {:induction false} PurgeAny(e: seq<Slot>, t: Target, n: nat, k: nat)
    requires k < |e| && Doomed(t, e[k]) && n > DoomedIn(DeleteAt(e, k), t)
    ensures Purged(e, t, n) == Purged(DeleteAt(e, k), t, n - 1)
    ensures DoomedIn(DeleteAt(e, k), t) == DoomedIn(e, t) - 1
  {
    if k > 0 {
      assert DeleteAt(e, k) == [e[0]] + DeleteAt(e[1..], k - 1);
      assert DeleteAt(e, k)[1..] == DeleteAt(e[1..], k - 1);
      PurgeAny(e[1..], t, if Doomed(t, e[0]) then n - 1 else n, k - 1);
      if !Doomed(t, e[0]) && n == 1 {
        PurgeEnough(DeleteAt(e[1..], k - 1), t, 0);
      }
    } else {
      assert DeleteAt(e, 0) == e[1..];
    }
  }

  lemma PurgeEnough(e: seq<Slot>, t: Target, n: nat)
    requires n >= DoomedIn(e, t)
    ensures DoomedIn(e, t) == 0 ==> Purged(e, t, n) == e
  {
    if DoomedIn(e, t) == 0 { NothingToPurge(e, t, n); }
  }

  lemma {:induction false} NothingToPurge(e: seq<Slot>, t: Target, n: nat)
    requires DoomedIn(e, t) == 0
    ensures Purged(e, t, n) == e
  {
    if e != [] { NothingToPurge(e[1..], t, n); }
  }

  // -------------------------------------------------------------------- holds

  /** One hold on the directory and one on the vnode for each entry. */
  function VnodeHolds(e: seq<Slot>): multiset<nat>
  {
    if e == [] then multiset{}
    else VnodeHolds(e[..|e| - 1]) + TwoVnodes(e[|e| - 1])
  }

  function TwoVnodes(s: Slot): multiset<nat>
  {
    multiset{s.dp, s.vp}
  }

  /** One hold on the credential of each entry that has one. */
  function CredHolds(e: seq<Slot>): multiset<int>
  {
    if e == [] then multiset{}
    else CredHolds(e[..|e| - 1]) + OneCred(e[|e| - 1])
  }

  function OneCred(s: Slot): multiset<int>
  {
    if s.cred == NOCRED then multiset{} else multiset{s.cred}
  }

  /** A vnode is held once for each entry whose directory it is and once for each it is the vnode of. */
  lemma {:induction false} HoldsCount(e: seq<Slot>, v: nat)
    ensures VnodeHolds(e)[v] == |Keeping(e, (s: Slot) => s.dp == v)| + |Keeping(e, (s: Slot) => s.vp == v)|
  {
    hide TwoVnodes, Keeping;
    if e == [] {
      NoneKept(e, (s: Slot) => s.dp == v);
      NoneKept(e, (s: Slot) => s.vp == v);
    } else {
      var n := |e| - 1;
      HoldsCount(e[..n], v);
      TwoCount(e[n], v);
      assert e == e[..n] + [e[n]];
      KeepingSnoc(e[..n], e[n], (s: Slot) => s.dp == v);
      KeepingSnoc(e[..n], e[n], (s: Slot) => s.vp == v);
    }
  }

  lemma NoneKept(e: seq<Slot>, p: Slot -> bool)
    requires e == []
    ensures Keeping(e, p) == []
  {}

  lemma TwoCount(s: Slot, v: nat)
    ensures TwoVnodes(s)[v] == (if s.dp == v then 1 else 0) + (if s.vp == v then 1 else 0)
  {}

  lemma OneCount(s: Slot, c: int)
    requires c != NOCRED
    ensures OneCred(s)[c] == if s.cred == c then 1 else 0
  {}

  /** A credential is held once for each entry made under it. */
  lemma {:induction false} CredsCount(e: seq<Slot>, c: int)
    requires c != NOCRED
    ensures CredHolds(e)[c] == |Keeping(e, (s: Slot) => s.cred == c)|
  {
    hide OneCred, Keeping;
    if e == [] {
      NoneKept(e, (s: Slot) => s.cred == c);
    } else {
      var n := |e| - 1;
      CredsCount(e[..n], c);
      OneCount(e[n], c);
      assert e == e[..n] + [e[n]];
      KeepingSnoc(e[..n], e[n], (s: Slot) => s.cred == c);
    }
  }

  lemma {:induction false} VnodeHoldsDelete(e: seq<Slot>, k: nat)
    requires k < |e|
    ensures VnodeHolds(e) == VnodeHolds(DeleteAt(e, k)) + TwoVnodes(e[k])
  {
    hide TwoVnodes;
    var n := |e| - 1;
    if k < n {
      VnodeHoldsDelete(e[..n], k);
      var d := DeleteAt(e, k);
      assert d[..n - 1] == DeleteAt(e[..n], k) && d[n - 1] == e[n];
      var rest, one, last := VnodeHolds(d[..n - 1]), TwoVnodes(e[k]), TwoVnodes(e[n]);
      assert VnodeHolds(e) == rest + one + last && VnodeHolds(d) == rest + last;
    } else {
      assert DeleteAt(e, n) == e[..n];
    }
  }

  lemma {:induction false} CredHoldsDelete(e: seq<Slot>, k: nat)
    requires k < |e|
    ensures CredHolds(e) == CredHolds(DeleteAt(e, k)) + OneCred(e[k])
  {
    hide OneCred;
    var n := |e| - 1;
    if k < n {
      CredHoldsDelete(e[..n], k);
      var d := DeleteAt(e, k);
      assert d[..n - 1] == DeleteAt(e[..n], k) && d[n - 1] == e[n];
      var rest, one, last := CredHolds(d[..n - 1]), OneCred(e[k]), OneCred(e[n]);
      assert CredHolds(e) == rest + one + last && CredHolds(d) == rest + last;
    } else {
      assert DeleteAt(e, n) == e[..n];
    }
  }

  lemma HoldsAppend(e: seq<Slot>, s: Slot)
    ensures VnodeHolds(e + [s]) == VnodeHolds(e) + TwoVnodes(s)
    ensures CredHolds(e + [s]) == CredHolds(e) + OneCred(s)
  {
    assert (e + [s])[..|e|] == e;
  }
}

/** The slots, the LRU ring through all of them and the eight hash chains (fs/dnlc.c). */
module NameCache {
  import opened Common
  import opened Rings
  import opened CacheSpec

  predicate Free(s: Slot)
  {
    s.dp == 0 && s.vp == 0 && s.cred == NOCRED
  }

  /** The entries in last-use order: the slots on the LRU ring behind the `free` free ones. */
  function EntriesOf(lru: seq<nat>, free: nat, slots: seq<Slot>): (e: seq<Slot>)
    requires free <= |lru| && forall k :: 0 <= k < |lru| ==> lru[k] < |slots|
    ensures |e| == |lru| - free
  {
    seq(|lru| - free, i requires 0 <= i < |lru| - free && (forall k :: 0 <= k < |lru| ==> lru[k] < |slots|) => slots[lru[free + i]])
  }

  ghost predicate EverySlot(size: nat, lru: seq<nat>)
  {
    && |lru| == size && (forall i :: 0 <= i < size ==> lru[i] < size)
    && (forall x: nat :: x < size ==> x in lru)
    && (forall i, j :: 0 <= i < j < size ==> lru[i] != lru[j])
  }

  /** The slot at `k` moved to place `to`. */
  function Moved(lru: seq<nat>, k: nat, to: nat): (r: seq<nat>)
    requires k < |lru| && to < |lru|
    ensures |r| == |lru|
  {
    InsertAt(DeleteAt(lru, k), to, lru[k])
  }

  /** Every slot is on the LRU ring, once; free slots come first, then entries without duplicates. */
  ghost predicate LruOk(size: nat, lru: seq<nat>, free: nat, slots: seq<Slot>)
  {
    && |slots| == size && EverySlot(size, lru) && free <= size
    && (forall i :: 0 <= i < free ==> Free(slots[lru[i]]))
    && Cache(EntriesOf(lru, free, slots), size)
  }

  predicate Hashes(s: Slot, h: nat)
  {
    s.dp != 0 && |s.name| > 0 && NcHash(s.name, s.dp) == h
  }

  ghost predicate AllHash(c: seq<nat>, slots: seq<Slot>, h: nat, x: nat)
  {
    forall y: nat :: y in c ==> y < |slots| && y != x && Hashes(slots[y], h)
  }

  /** Each slot in use is on the chain its hash names and each free one by itself; slot `x`,
      which is on no chain, does not matter (none such when x == size). */
  ghost predicate Chained(size: nat, chains: seq<seq<nat>>, slots: seq<Slot>, hn: seq<nat>, hp: seq<nat>, x: nat)
  {
    && |chains| == NC_HASH_SIZE && |slots| == size && |hn| == |hp| == size + NC_HASH_SIZE
    && (forall h: nat :: h < NC_HASH_SIZE ==> Ring(size + h, chains[h], hn, hp))
    && (forall h: nat :: h < NC_HASH_SIZE ==> AllHash(chains[h], slots, h, x))
    && (forall y: nat :: y < size && y != x ==>
          if slots[y].dp == 0 then hn[y] == y == hp[y]
          else |slots[y].name| > 0 && y in chains[NcHash(slots[y].name, slots[y].dp)])
  }

  ghost predicate Unlinked(chains: seq<seq<nat>>, chains': seq<seq<nat>>, h: nat, i: nat, x: nat)
  {
    && |chains| == NC_HASH_SIZE && h < NC_HASH_SIZE && i < |chains[h]| && chains[h][i] == x
    && chains' == chains[h := DeleteAt(chains[h], i)]
  }

  /** Entry `i` of chain `h` moved one place forward, if it was not the first. */
  ghost predicate MovedForward(chains: seq<seq<nat>>, chains': seq<seq<nat>>, h: nat, i: nat)
  {
    && |chains| == NC_HASH_SIZE && h < NC_HASH_SIZE && i < |chains[h]|
    && chains' == if i == 0 then chains else chains[h := InsertAt(DeleteAt(chains[h], i), i - 1, chains[h][i])]
  }

  /** The condition the scans of the LRU ring stop at. */
  predicate Hit(t: Target, s: Slot)
  {
    match t
    case Named(dp, name) => s.dp != 0 && Matches(s, dp, name, ANYCRED)
    case Vnode(vp) => s.dp == vp || s.vp == vp
    case Vfs(vfsp, vfsOf) => (s.dp != 0 && vfsOf(s.dp) == vfsp) || (s.vp != 0 && vfsOf(s.vp) == vfsp)
    case Anything => s.dp != 0
  }

  class DirNameCache {
    const size: nat               // ncsize; nc_lru is node `size`, chain head h is node size + h
    const doing: bool             // doingcache
    var slots: seq<Slot>
    var lruNext: seq<nat>
    var lruPrev: seq<nat>
    var hashNext: seq<nat>
    var hashPrev: seq<nat>
    var vnodeHolds: multiset<nat> // holds the cache has on vnodes
    var credHolds: multiset<int>  // and on credentials
    ghost var lru: seq<nat>
    ghost var free: nat
    ghost var chains: seq<seq<nat>>

    ghost predicate Valid()
      reads this
    {
      && free <= |lru| == |slots| == size && (forall k :: 0 <= k < |lru| ==> lru[k] < |slots|)
      && LruOk(size, lru, free, slots)
      && (doing ==>
            && |lruNext| == size + 1 && Ring(size, lru, lruNext, lruPrev)
            && Chained(size, chains, slots, hashNext, hashPrev, size))
      && (doing <==> size > 0)
      && vnodeHolds == VnodeHolds(EntriesOf(lru, free, slots))
      && credHolds == CredHolds(EntriesOf(lru, free, slots))
    }

    ghost function Entries(): seq<Slot>
      reads this
      requires free <= |lru| && forall k :: 0 <= k < |lru| ==> lru[k] < |slots|
    {
      EntriesOf(lru, free, slots)
    }

    // ------------------------------------------------------- list primitives

    method InsLru(ncp: nat, at: nat, ghost i: nat)
      requires Ring(size, lru, lruNext, lruPrev) && i <= |lru| && at == Before(size, lru, i)
      requires ncp < |lruNext| && ncp != size && ncp !in lru
      modifies this`lruNext, this`lruPrev, this`lru
      ensures lru == InsertAt(old(lru), i, ncp) && Ring(size, lru, lruNext, lruPrev) && |lruNext| == old(|lruNext|)
    {
      hide Ring;
      Neighbours(size, lru, lruNext, lruPrev, i);
      Rings.Insert(size, lru, lruNext, lruPrev, i, ncp);
      var ncp3 := lruNext[at];
      lruNext := lruNext[ncp := ncp3][at := ncp];
      lruPrev := lruPrev[ncp := at][ncp3 := ncp];
      lru := InsertAt(lru, i, ncp);
    }

    method RmLru(ncp: nat, ghost i: nat)
      requires Ring(size, lru, lruNext, lruPrev) && i < |lru| && lru[i] == ncp
      modifies this`lruNext, this`lruPrev, this`lru
      ensures lru == DeleteAt(old(lru), i) && Ring(size, lru, lruNext, lruPrev) && |lruNext| == old(|lruNext|)
    {
      hide Ring;
      Delete(size, lru, lruNext, lruPrev, i);
      lruNext := lruNext[lruPrev[ncp] := lruNext[ncp]];
      lruPrev := lruPrev[lruNext[ncp] := lruPrev[ncp]];
      lru := DeleteAt(lru, i);
    }

    method InsHash(ncp: nat, hp: nat, ghost h: nat, ghost i: nat)
      requires Chained(size, chains, slots, hashNext, hashPrev, ncp) && ncp < size
      requires h < NC_HASH_SIZE && i <= |chains[h]| && hp == Before(size + h, chains[h], i) && Hashes(slots[ncp], h)
      modifies this`hashNext, this`hashPrev, this`chains
      ensures |old(chains)| == NC_HASH_SIZE && chains == old(chains)[h := InsertAt(old(chains[h]), i, ncp)]
      ensures Chained(size, chains, slots, hashNext, hashPrev, size)
    {
      hide Ring;
      ChainInsert(size, chains, slots, hashNext, hashPrev, ncp, h, i);
      Neighbours(size + h, chains[h], hashNext, hashPrev, i);
      var hn := hashNext[hp];
      hashNext := hashNext[ncp := hn];
      hashPrev := hashPrev[ncp := hp];
      hashPrev := hashPrev[hn := ncp];
      hashNext := hashNext[hp := ncp];
      chains := chains[h := InsertAt(chains[h], i, ncp)];
    }

    /** nc_rmhash; on a free slot, linked to itself, it does nothing. */
    method RmHash(ncp: nat) returns (ghost i: nat)
      requires Chained(size, chains, slots, hashNext, hashPrev, size) && ncp < size
      modifies this`hashNext, this`hashPrev, this`chains
      ensures Chained(size, chains, slots, hashNext, hashPrev, ncp)
      ensures slots[ncp].dp == 0 ==> chains == old(chains)
      ensures slots[ncp].dp != 0 ==> |slots[ncp].name| > 0
      ensures slots[ncp].dp != 0 ==> Unlinked(old(chains), chains, NcHash(slots[ncp].name, slots[ncp].dp), i, ncp)
      ensures |hashPrev| > ncp && hashPrev[ncp] == old(hashPrev)[ncp]
    {
      hide Ring, AllHash, NcHash;
      if slots[ncp].dp == 0 {
        FreeInHand(size, chains, slots, hashNext, hashPrev, ncp);
        i := 0;
      } else {
        ghost var h;
        h, i := ChainPlace(size, chains, slots, hashNext, hashPrev, ncp);
        ChainDelete(size, chains, slots, hashNext, hashPrev, h, i);
        chains := chains[h := DeleteAt(chains[h], i)];
      }
      hashNext := hashNext[hashPrev[ncp] := hashNext[ncp]];
      hashPrev := hashPrev[hashNext[ncp] := hashPrev[ncp]];
    }

    method NullHash(ncp: nat)
      requires Chained(size, chains, slots, hashNext, hashPrev, ncp) && ncp < size && slots[ncp].dp == 0
      modifies this`hashNext, this`hashPrev
      ensures Chained(size, chains, slots, hashNext, hashPrev, size)
    {
      hide Ring;
      AloneAgain(size, chains, slots, hashNext, hashPrev, ncp);
      hashNext := hashNext[ncp := ncp];
      hashPrev := hashPrev[ncp := ncp];
    }

    /** dnlc_search: the first match on the chain, and none only if no entry matches. */
    method Search(dp: nat, name: seq<nat>, hash: nat, cred: int) returns (found: bool, ncp: nat, ghost k: nat)
      requires Valid() && doing && 0 < |name| && hash == NcHash(name, dp)
      ensures found ==> k < |chains[hash]| && ncp == chains[hash][k] && ncp < size
      ensures found ==> Matches(slots[ncp], dp, name, cred)
      ensures found ==> forall j :: 0 <= j < k ==> chains[hash][j] < size && !Matches(slots[chains[hash][j]], dp, name, cred)
      ensures !found ==> forall s :: s in Entries() ==> !Matches(s, dp, name, cred)
    {
      hide Ring, NcHash, LruOk;
      var nhp := size + hash;
      k := 0;
      ChainStep(size, chains, slots, hashNext, hashPrev, hash, 0);
      ncp := hashNext[nhp];
      while ncp != nhp
        invariant k <= |chains[hash]| && ncp == After(nhp, chains[hash], k)
        invariant ncp == nhp <==> k == |chains[hash]|
        invariant forall j :: 0 <= j < k ==> chains[hash][j] < size && !Matches(slots[chains[hash][j]], dp, name, cred)
        decreases |chains[hash]| - k
      {
        ChainStep(size, chains, slots, hashNext, hashPrev, hash, k);
        if slots[ncp].dp == dp && |slots[ncp].name| == |name| && (cred == ANYCRED || slots[ncp].cred == cred)
           && slots[ncp].name[0] == name[0] && slots[ncp].name == name {
          return true, ncp, k;
        }
        ncp := hashNext[ncp];
        k := k + 1;
        ChainStep(size, chains, slots, hashNext, hashPrev, hash, k);
      }
      MissIsMiss(size, lru, free, chains, slots, hashNext, hashPrev, dp, name, cred);
      return false, 0, k;
    }

    // ------------------------------------------------------------ holds

    method VnRele(v: nat, ghost left: multiset<nat>)
      requires vnodeHolds == left + multiset{v}
      modifies this`vnodeHolds
      ensures vnodeHolds == left
    {
      vnodeHolds := vnodeHolds[v := vnodeHolds[v] - 1];
    }

    method CrFree(c: int, ghost left: multiset<int>)
      requires credHolds == left + multiset{c}
      modifies this`credHolds
      ensures credHolds == left
    {
      credHolds := credHolds[c := credHolds[c] - 1];
    }

    /** The holds dnlc_rm gives back. */
    method DropHolds(s: Slot, ghost vnodesLeft: multiset<nat>, ghost credsLeft: multiset<int>)
      requires vnodeHolds == vnodesLeft + TwoVnodes(s) && credHolds == credsLeft + OneCred(s)
      modifies this`vnodeHolds, this`credHolds
      ensures vnodeHolds == vnodesLeft && credHolds == credsLeft
    {
      hide TwoVnodes;
      TwoApart(vnodesLeft, s);
      VnRele(s.dp, vnodesLeft + multiset{s.vp});
      VnRele(s.vp, vnodesLeft);
      if s.cred != NOCRED {
        CrFree(s.cred, credsLeft);
      }
    }

    /** The holds dnlc_enter gives back, if the slot it takes had any. */
    method DropHoldsIfAny(was: Slot, ghost vnodesLeft: multiset<nat>, ghost credsLeft: multiset<int>)
      requires || (Free(was) && vnodeHolds == vnodesLeft && credHolds == credsLeft)
               || (InUse(was) && vnodeHolds == vnodesLeft + TwoVnodes(was) && credHolds == credsLeft + OneCred(was))
      modifies this`vnodeHolds, this`credHolds
      ensures vnodeHolds == vnodesLeft && credHolds == credsLeft
    {
      hide TwoVnodes;
      TwoApart(vnodesLeft, was);
      if was.dp != 0 {
        VnRele(was.dp, vnodesLeft + multiset{was.vp});
      }
      if was.vp != 0 {
        VnRele(was.vp, vnodesLeft);
      }
      if was.cred != NOCRED {
        CrFree(was.cred, credsLeft);
      }
    }

    /** The holds it takes. */
    method TakeHolds(s: Slot)
      modifies this`vnodeHolds, this`credHolds
      ensures vnodeHolds == old(vnodeHolds) + TwoVnodes(s) && credHolds == old(credHolds) + OneCred(s)
    {
      vnodeHolds := vnodeHolds[s.dp := vnodeHolds[s.dp] + 1];
      vnodeHolds := vnodeHolds[s.vp := vnodeHolds[s.vp] + 1];
      if s.cred != NOCRED {
        credHolds := credHolds[s.cred := credHolds[s.cred] + 1];
      }
    }

    /** Both, for entry `s` in the slot of `was`. */
    method ExchangeHolds(was: Slot, s: Slot, ghost e: seq<Slot>, ghost evict: bool)
      requires vnodeHolds == VnodeHolds(e) && credHolds == CredHolds(e)
      requires if evict then e != [] && e[0] == was && InUse(was) else Free(was)
      modifies this`vnodeHolds, this`credHolds
      ensures var r := (if evict then DeleteAt(e, 0) else e) + [s];
              vnodeHolds == VnodeHolds(r) && credHolds == CredHolds(r)
    {
      hide VnodeHolds, CredHolds, TwoVnodes, OneCred, Free, InUse, DeleteAt;
      ghost var vnodesLeft, credsLeft := HoldsLeft(e, evict, s);
      DropHoldsIfAny(was, vnodesLeft, credsLeft);
      TakeHolds(s);
    }

    // ------------------------------------------------------ the cache calls

    /** dnlc_init. Without memory, or asked for no slots, caching is off. */
    constructor (ncsize: int, memory: bool)
      ensures Valid() && Entries() == [] && doing == (ncsize > 0 && memory)
      ensures size == if doing then ncsize else 0
    {
      var n: nat := if ncsize <= 0 || !memory then 0 else ncsize;
      size := n;
      doing := n > 0;
      slots := seq(n, _ => Slot(0, [], NOCRED, 0));
      lruNext := seq(n + 1, _ => n);
      lruPrev := seq(n + 1, _ => n);
      hashNext := seq(n + NC_HASH_SIZE, x => x);
      hashPrev := seq(n + NC_HASH_SIZE, x => x);
      vnodeHolds, credHolds := multiset{}, multiset{};
      lru, free := [], n;
      chains := seq(NC_HASH_SIZE, _ => []);
      new;
      hide Ring, Chained, LruOk;
      EmptyRing(size, lruNext, lruPrev);
      AllAlone(size, chains, slots, hashNext, hashPrev);
      ghost var s, hn, hp, c := slots, hashNext, hashPrev, chains;
      for i := 0 to size
        invariant |lruNext| == size + 1 && Ring(size, lru, lruNext, lruPrev)
        invariant |lru| == i && forall k :: 0 <= k < i ==> lru[k] == i - 1 - k
        invariant slots == s && hashNext == hn && hashPrev == hp && chains == c && free == size
        invariant vnodeHolds == multiset{} && credHolds == multiset{}
      {
        InsLru(i, size, 0);
      }
      AllFree(size, lru, slots);
    }

    /** dnlc_rm: obliterate the entry in slot `ncp`, which becomes the first to grab. */
    method Rm(ncp: nat, ghost k: nat)
      requires Valid() && doing && free <= k < size && lru[k] == ncp
      modifies this`slots, this`lruNext, this`lruPrev, this`hashNext, this`hashPrev, this`vnodeHolds, this`credHolds,
               this`lru, this`free, this`chains
      ensures Valid() && k - old(free) < |old(Entries())| && Entries() == DeleteAt(old(Entries()), k - old(free))
      ensures free == old(free) + 1
    {
      hide Ring, NcHash, LruOk, Chained, Unlinked, VnodeHolds, CredHolds, TwoVnodes, OneCred, EntriesOf;
      LruFreed(size, lru, free, slots, k);
      VnodeHoldsDelete(Entries(), k - free);
      CredHoldsDelete(Entries(), k - free);
      RmLru(ncp, k);
      ghost var i := RmHash(ncp);
      DropHolds(slots[ncp], VnodeHolds(DeleteAt(old(Entries()), k - free)), CredHolds(DeleteAt(old(Entries()), k - free)));
      SlotStored(size, chains, slots, hashNext, hashPrev, ncp, slots[ncp].(dp := 0, vp := 0, cred := NOCRED));
      slots := slots[ncp := slots[ncp].(dp := 0, vp := 0, cred := NOCRED)];
      InsLru(ncp, size, 0);
      free := free + 1;
      NullHash(ncp);
    }

    /** dnlc_enter */
    method Enter(dp: nat, name: seq<nat>, vp: nat, cred: int)
      requires Valid() && dp != 0 && vp != 0 && name != [] && cred >= 0
      modifies this`slots, this`lruNext, this`lruPrev, this`hashNext, this`hashPrev, this`vnodeHolds, this`credHolds,
               this`lru, this`free, this`chains
      ensures Valid() && |old(Entries())| <= size
      ensures Entries() == if |name| > NC_NAMLEN then old(Entries())
                           else CacheSpec.Enter(old(Entries()), size, Slot(dp, name, cred, vp))
    {
      hide Ring, NcHash, LruOk, Chained, Unlinked, VnodeHolds, CredHolds, TwoVnodes, OneCred, EntriesOf;
      LruBounds(size, lru, free, slots);
      if !doing {
        return;
      }
      if |name| > NC_NAMLEN {
        return;
      }
      var hash := NcHash(name, dp);
      var found, ncp, k := Search(dp, name, hash, cred);
      if found {
        ghost var at := FoundEntry(size, lru, free, slots, ncp, dp, name, cred);
        return;
      }
      TakeSlot(Slot(dp, name, cred, vp), hash);
    }

    /** The rest of dnlc_enter: the least recently used slot is given to entry `s`. */
    method TakeSlot(s: Slot, hash: nat)
      requires Valid() && doing && InUse(s) && hash == NcHash(s.name, s.dp)
      requires forall t :: t in Entries() ==> !Matches(t, s.dp, s.name, s.cred)
      modifies this`slots, this`lruNext, this`lruPrev, this`hashNext, this`hashPrev, this`vnodeHolds, this`credHolds,
               this`lru, this`free, this`chains
      ensures Valid() && |old(Entries())| <= size
      ensures Entries() == CacheSpec.Enter(old(Entries()), size, s)
    {
      hide Ring, NcHash, LruOk, Chained, Unlinked, VnodeHolds, CredHolds, TwoVnodes, OneCred, EntriesOf, CacheSpec.Enter,
        Free, InUse, Matches, InsertAt, DeleteAt;
      var ncp := lruNext[size];
      LruBounds(size, lru, free, slots);
      LruStep(size, lru, lruNext, lruPrev, 0);
      FillsChain(s, hash);
      if ncp == size { // LRU queue empty
        assert false;
      }
      LruEntered(size, lru, free, slots, s);
      ghost var e := Entries();
      RmLru(ncp, 0);
      ghost var i := RmHash(ncp);
      ExchangeHolds(slots[ncp], s, e, free == 0);
      SlotStored(size, chains, slots, hashNext, hashPrev, ncp, s);
      slots := slots[ncp := s];
      LastNode(size, lru, lruNext, lruPrev);
      InsLru(ncp, lruPrev[size], |lru|);
      free := if free == 0 then 0 else free - 1;
      LruBounds(size, lru, free, slots);
      InsHash(ncp, size + hash, hash, 0);
    }

    /** dnlc_lookup. With caching off there is no entry to find. */
    method Lookup(dp: nat, name: seq<nat>, cred: int) returns (vp: nat)
      requires Valid() && dp != 0 && name != []
      modifies this`lruNext, this`lruPrev, this`hashNext, this`hashPrev, this`lru, this`chains
      ensures Valid()
      ensures vp == 0 ==> Entries() == old(Entries()) && forall s :: s in old(Entries()) ==> !Matches(s, dp, name, cred)
      ensures vp != 0 ==> exists i: nat :: i < |old(Entries())| && Matches(old(Entries())[i], dp, name, cred)
                                           && vp == old(Entries())[i].vp && Entries() == Touch(old(Entries()), i)
      ensures cred != ANYCRED ==> vp == Answer(old(Entries()), dp, name, cred)
      ensures chains == old(chains) || exists i: nat :: MovedForward(old(chains), chains, NcHash(name, dp), i)
    {
      hide Ring, NcHash, LruOk, Chained, Unlinked, VnodeHolds, CredHolds, EntriesOf, Touch, Answer, MovedForward;
      LruBounds(size, lru, free, slots);
      LongMiss(size, lru, free, slots, dp, name, cred);
      if !doing {
        return 0;
      }
      if |name| > NC_NAMLEN {
        return 0;
      }
      var hash := NcHash(name, dp);
      var found, ncp, k := Search(dp, name, hash, cred);
      if !found {
        MissAnswer(Entries(), dp, name, cred);
        return 0;
      }
      ghost var at := FoundEntry(size, lru, free, slots, ncp, dp, name, cred);
      EntryAt(size, lru, free, slots, at);
      HitAnswer(Entries(), size, dp, name, cred, at - free);
      Refresh(ncp, at);
      MoveUp(ncp, hash, k);
      return slots[ncp].vp;
    }

    /** A hit goes to the end of the LRU ring. */
    method Refresh(ncp: nat, ghost at: nat)
      requires Valid() && free <= at < |lru| && lru[at] == ncp
      modifies this`lruNext, this`lruPrev, this`lru
      ensures Valid() && Entries() == Touch(old(Entries()), at - free)
    {
      hide Ring, NcHash, LruOk, Chained, Unlinked, VnodeHolds, CredHolds, EntriesOf, Touch;
      LruBounds(size, lru, free, slots);
      LruTouched(size, lru, free, slots, at);
      RmLru(ncp, at);
      LastNode(size, lru, lruNext, lruPrev);
      InsLru(ncp, lruPrev[size], |lru|);
    }

    /** The end of dnlc_lookup: a hit moves one place forward on its chain. */
    method MoveUp(ncp: nat, hash: nat, ghost k: nat)
      requires Chained(size, chains, slots, hashNext, hashPrev, size) && ncp < size
      requires hash < NC_HASH_SIZE && k < |chains[hash]| && chains[hash][k] == ncp
      modifies this`hashNext, this`hashPrev, this`chains
      ensures Chained(size, chains, slots, hashNext, hashPrev, size)
      ensures MovedForward(old(chains), chains, hash, k)
    {
      hide Ring, NcHash, AllHash, Chained;
      ChainBounds(size, chains, slots, hashNext, hashPrev, hash);
      ChainStep(size, chains, slots, hashNext, hashPrev, hash, k);
      if hashPrev[ncp] != size + hash {
        ghost var i := RmHash(ncp);
        ChainBefore(size, chains, slots, hashNext, hashPrev, ncp, hash, k - 1);
        InsHash(ncp, hashPrev[hashPrev[ncp]], hash, k - 1);
      }
    }

    /** dnlc_remove */
    method Remove(dp: nat, name: seq<nat>)
      requires Valid() && dp != 0 && name != []
      modifies this`slots, this`lruNext, this`lruPrev, this`hashNext, this`hashPrev, this`vnodeHolds, this`credHolds,
               this`lru, this`free, this`chains
      ensures Valid()
      ensures var t := Named(dp, name); Entries() == Purged(old(Entries()), t, DoomedIn(old(Entries()), t))
      ensures Entries() == Keeping(old(Entries()), (s: Slot) => s.dp != dp || s.name != name)
      ensures forall s :: s in Entries() ==> s.dp != dp || s.name != name
    {
      hide Ring, NcHash, LruOk, Chained, VnodeHolds, CredHolds, EntriesOf, Purged, DoomedIn;
      ghost var t := Named(dp, name);
      PurgedName(Entries(), dp, name);
      LruBounds(size, lru, free, slots);
      LongMiss(size, lru, free, slots, dp, name, ANYCRED);
      if !doing {
        NothingDoomed(Entries(), t);
        return;
      }
      if |name| > NC_NAMLEN {
        NothingDoomed(Entries(), t);
        return;
      }
      var hash := NcHash(name, dp);
      var found, ncp, k := Search(dp, name, hash, ANYCRED);
      while found
        invariant Valid()
        invariant found ==> 0 <= ncp < size && Matches(slots[ncp], dp, name, ANYCRED)
        invariant !found ==> forall s :: s in Entries() ==> !Matches(s, dp, name, ANYCRED)
        invariant Purged(Entries(), t, DoomedIn(Entries(), t)) == Purged(old(Entries()), t, DoomedIn(old(Entries()), t))
        decreases |Entries()|, found
      {
        ghost var at := FoundEntry(size, lru, free, slots, ncp, dp, name, ANYCRED);
        OneGone(Entries(), t, at - free);
        Rm(ncp, at);
        found, ncp, k := Search(dp, name, hash, ANYCRED);
      }
      NothingDoomed(Entries(), t);
    }

    /** dnlc_purge */
    method Purge()
      requires Valid()
      modifies this`slots, this`lruNext, this`lruPrev, this`hashNext, this`hashPrev, this`vnodeHolds, this`credHolds,
               this`lru, this`free, this`chains
      ensures Valid() && Entries() == []
    {
      hide Ring, NcHash, LruOk, Chained, VnodeHolds, CredHolds, EntriesOf;
      LruBounds(size, lru, free, slots);
      if !doing {
        return;
      }
      var restart := true;
      while restart
        invariant Valid() && (!restart ==> Entries() == [])
        decreases |Entries()|, restart
      {
        var nch := BusyChain();
        restart := nch < NC_HASH_SIZE;
        if restart {
          ChainBounds(size, chains, slots, hashNext, hashPrev, nch);
          ChainStep(size, chains, slots, hashNext, hashPrev, nch, 0);
          var ncp := hashNext[size + nch];
          ghost var at := EntryPlace(size, lru, free, slots, ncp);
          if slots[ncp].dp == 0 || slots[ncp].vp == 0 { // panic
            assert false;
          }
          Rm(ncp, at);
        }
      }
    }

    /** The scan of the chain heads in dnlc_purge. */
    method BusyChain() returns (nch: nat)
      requires Valid() && doing
      ensures nch <= NC_HASH_SIZE
      ensures nch < NC_HASH_SIZE ==> chains[nch] != []
      ensures nch == NC_HASH_SIZE ==> Entries() == []
    {
      hide Ring, NcHash, LruOk, EntriesOf;
      nch := 0;
      while nch < NC_HASH_SIZE
        invariant nch <= NC_HASH_SIZE && forall h :: 0 <= h < nch ==> chains[h] == []
      {
        ChainStep(size, chains, slots, hashNext, hashPrev, nch, 0);
        if hashNext[size + nch] != size + nch {
          return;
        }
        nch := nch + 1;
      }
      AllChainsEmpty(size, lru, free, chains, slots, hashNext, hashPrev);
    }

    /** The scan of the LRU ring in dnlc_purge_vp, dnlc_purge_vfsp and dnlc_purge1. */
    method Scan(t: Target) returns (ncp: nat, ghost k: nat)
      requires Valid() && doing && (t.Vnode? ==> t.vp != 0)
      ensures ncp == size ==> forall s :: s in Entries() ==> !Doomed(t, s)
      ensures ncp != size ==> free <= k < size && ncp == lru[k] && Doomed(t, Entries()[k - free])
                              && forall j :: 0 <= j < k - free ==> !Doomed(t, Entries()[j])
    {
      hide Ring, LruOk, Chained;
      LruBounds(size, lru, free, slots);
      ncp := lruNext[size];
      k := 0;
      LruStep(size, lru, lruNext, lruPrev, 0);
      while ncp != size && !Hit(t, slots[ncp])
        invariant k <= size && ncp == After(size, lru, k) && (ncp == size <==> k == |lru|) && ncp <= size
        invariant forall j :: 0 <= j < k - free && j < |Entries()| ==> !Doomed(t, Entries()[j])
        decreases size - k
      {
        LruStep(size, lru, lruNext, lruPrev, k);
        LruStep(size, lru, lruNext, lruPrev, k + 1);
        HitIsDoomed(size, lru, free, slots, k, t);
        ncp := lruNext[ncp];
        k := k + 1;
      }
      if ncp != size {
        HitIsDoomed(size, lru, free, slots, k, t);
      }
    }

    /** dnlc_purge_vp */
    method PurgeVp(vp: nat)
      requires Valid() && vp != 0
      modifies this`slots, this`lruNext, this`lruPrev, this`hashNext, this`hashPrev, this`vnodeHolds, this`credHolds,
               this`lru, this`free, this`chains
      ensures Valid()
      ensures Entries() == Purged(old(Entries()), Vnode(vp), DoomedIn(old(Entries()), Vnode(vp)))
      ensures Entries() == Keeping(old(Entries()), (s: Slot) => s.dp != vp && s.vp != vp)
      ensures (forall s :: s in Entries() ==> s.dp != vp && s.vp != vp) && vnodeHolds[vp] == 0
    {
      hide Ring, NcHash, LruOk, Chained, VnodeHolds, CredHolds, EntriesOf, Purged, DoomedIn;
      var t := Vnode(vp);
      PurgedVnode(Entries(), vp);
      LruBounds(size, lru, free, slots);
      if !doing {
        NothingDoomed(Entries(), t);
        return;
      }
      var moretodo := true;
      while moretodo
        invariant Valid() && (!moretodo ==> forall s :: s in Entries() ==> !Doomed(t, s))
        invariant Purged(Entries(), t, DoomedIn(Entries(), t)) == Purged(old(Entries()), t, DoomedIn(old(Entries()), t))
        decreases |Entries()|, moretodo
      {
        moretodo := false;
        var ncp, k := Scan(t);
        if ncp != size {
          OneGone(Entries(), t, k - free);
          Rm(ncp, k);
          moretodo := true;
        }
      }
      NothingDoomed(Entries(), t);
    }

    /** dnlc_purge_vfsp: up to `count` entries, all of them when it is 0, and one when it is negative. */
    method PurgeVfsp(vfsp: nat, count: int, vfsOf: nat -> nat) returns (n: nat)
      requires Valid()
      modifies this`slots, this`lruNext, this`lruPrev, this`hashNext, this`hashPrev, this`vnodeHolds, this`credHolds,
               this`lru, this`free, this`chains
      ensures Valid()
      ensures var e, t := old(Entries()), Vfs(vfsp, vfsOf);
              var limit := if count == 0 then DoomedIn(e, t) else if count < 0 then 1 else count;
              && Entries() == Purged(e, t, limit)
              && n == if DoomedIn(e, t) < limit then DoomedIn(e, t) else limit
      ensures var all := OfVfs(old(Entries()), vfsp, vfsOf);
              && PurgedOf(old(Entries()), Entries(), vfsp, vfsOf, n)
              && n == if count == 0 || all < count then all else if count > 0 then count else if all > 0 then 1 else 0
    {
      hide Ring, NcHash, LruOk, Chained, VnodeHolds, CredHolds, EntriesOf, Purged, DoomedIn, PurgedOf, OfVfs;
      var t := Vfs(vfsp, vfsOf);
      LruBounds(size, lru, free, slots);
      n := 0;
      ghost var e := Entries();
      ghost var limit := if count == 0 then DoomedIn(e, t) else if count < 0 then 1 else count;
      PurgedVfs(e, vfsp, vfsOf, limit);
      if !doing {
        NothingDoomed(Entries(), t);
        NothingToPurge(Entries(), t, limit);
        return;
      }
      var moretodo := true;
      while moretodo
        invariant Valid() && n <= limit && n <= DoomedIn(e, t)
        invariant moretodo ==> n < limit || count == 0
        invariant DoomedIn(Entries(), t) == DoomedIn(e, t) - n
        invariant Purged(e, t, limit) == Purged(Entries(), t, limit - n)
        invariant !moretodo ==> n == limit || forall s :: s in Entries() ==> !Doomed(t, s)
        decreases |Entries()|, moretodo
      {
        moretodo := false;
        var ncp, k := Scan(t);
        if ncp != size {
          SomeDoomed(Entries(), t, k - free);
          PurgeFirst(Entries(), t, limit - n, k - free);
          n := n + 1;
          Rm(ncp, k);
          if count == 0 || n < count {
            moretodo := true;
          }
        }
      }
      PurgedNone(Entries(), t);
      if n < limit {
        NothingDoomed(Entries(), t);
        NothingToPurge(Entries(), t, limit - n);
      }
    }

    /** dnlc_purge1 */
    method Purge1() returns (r: nat)
      requires Valid()
      modifies this`slots, this`lruNext, this`lruPrev, this`hashNext, this`hashPrev, this`vnodeHolds, this`credHolds,
               this`lru, this`free, this`chains
      ensures Valid()
      ensures if old(Entries()) == [] then r == 0 && Entries() == [] else r == 1 && Entries() == old(Entries())[1..]
    {
      hide Ring, NcHash, LruOk, Chained, VnodeHolds, CredHolds, EntriesOf;
      LruBounds(size, lru, free, slots);
      if !doing {
        return 0;
      }
      var ncp, k := Scan(Anything);
      if ncp == size {
        NoEntries(Entries());
        return 0;
      }
      FirstIsDoomed(Entries(), k - free);
      Rm(ncp, k);
      return 1;
    }
  }

  lemma TwoApart(left: multiset<nat>, s: Slot)
    ensures left + TwoVnodes(s) == left + multiset{s.vp} + multiset{s.dp}
  {}

  lemma FillsChain(s: Slot, h: nat)
    requires InUse(s) && h == NcHash(s.name, s.dp)
    ensures Hashes(s, h)
  {}

  lemma HoldsLeft(e: seq<Slot>, evict: bool, s: Slot) returns (vnodesLeft: multiset<nat>, credsLeft: multiset<int>)
    requires evict ==> e != []
    ensures var rest := if evict then DeleteAt(e, 0) else e;
            && VnodeHolds(rest + [s]) == vnodesLeft + TwoVnodes(s)
            && CredHolds(rest + [s]) == credsLeft + OneCred(s)
    ensures if evict then VnodeHolds(e) == vnodesLeft + TwoVnodes(e[0]) && CredHolds(e) == credsLeft + OneCred(e[0])
            else VnodeHolds(e) == vnodesLeft && CredHolds(e) == credsLeft
  {
    hide VnodeHolds, CredHolds;
    var rest := if evict then DeleteAt(e, 0) else e;
    HoldsAppend(rest, s);
    if evict {
      VnodeHoldsDelete(e, 0);
      CredHoldsDelete(e, 0);
    }
    vnodesLeft, credsLeft := VnodeHolds(rest), CredHolds(rest);
  }

  /** A change of links on chain `h`, and of the slot in hand, leaves every other chain a ring. */
  lemma OtherChain(size: nat, chains: seq<seq<nat>>, slots: seq<Slot>, hn: seq<nat>, hp: seq<nat>, x: nat,
                   h: nat, g: nat, hn': seq<nat>, hp': seq<nat>)
    requires Chained(size, chains, slots, hn, hp, x) && h < NC_HASH_SIZE && g < NC_HASH_SIZE && g != h
    requires |hn'| == |hn| && |hp'| == |hp|
    requires forall y: nat :: y < |hn| && y != size + h && y !in chains[h] && (y != x || y >= size) ==>
               hn'[y] == hn[y] && hp'[y] == hp[y]
    ensures Ring(size + g, chains[g], hn', hp')
  {
    hide Ring, NcHash;
    assert AllHash(chains[g], slots, g, x) && AllHash(chains[h], slots, h, x);
    forall y | y in chains[g] ensures y !in chains[h] && y < size && y != x {
      ChainsApart(size, chains, slots, hn, hp, x, g, h, y);
    }
    Frame(size + g, chains[g], hn, hp, hn', hp');
  }

  lemma AllHashMore(c: seq<nat>, slots: seq<Slot>, h: nat, x: nat, i: nat)
    requires AllHash(c, slots, h, x) && x < |slots| && Hashes(slots[x], h) && i <= |c|
    ensures AllHash(InsertAt(c, i, x), slots, h, |slots|) && forall y :: y in InsertAt(c, i, x) <==> y == x || y in c
  {
    hide NcHash;
  }

  lemma AllHashElse(c: seq<nat>, slots: seq<Slot>, h: nat, x: nat)
    requires AllHash(c, slots, h, x)
    ensures AllHash(c, slots, h, |slots|)
  {
    hide NcHash;
  }

  lemma ChainInsert(size: nat, chains: seq<seq<nat>>, slots: seq<Slot>, hn: seq<nat>, hp: seq<nat>, x: nat, h: nat, i: nat)
    requires Chained(size, chains, slots, hn, hp, x) && x < size
    requires h < NC_HASH_SIZE && i <= |chains[h]| && Hashes(slots[x], h)
    ensures var a, b := Before(size + h, chains[h], i), After(size + h, chains[h], i);
            && a < |hn| && b < |hp|
            && Chained(size, chains[h := InsertAt(chains[h], i, x)], slots, hn[x := b][a := x], hp[x := a][b := x], size)
  {
    hide Ring, NcHash, AllHash, InsertAt;
    var c := chains[h];
    assert AllHash(c, slots, h, x);
    ChainNodes(c, slots, h, x);
    Rings.Insert(size + h, c, hn, hp, i, x);
    var a, b := Before(size + h, c, i), After(size + h, c, i);
    assert (a == size + h || a in c) && (b == size + h || b in c);
    var chains' := chains[h := InsertAt(c, i, x)];
    var hn', hp' := hn[x := b][a := x], hp[x := a][b := x];
    AllHashMore(c, slots, h, x, i);
    forall g: nat | g < NC_HASH_SIZE ensures Ring(size + g, chains'[g], hn', hp') && AllHash(chains'[g], slots, g, size) {
      if g != h {
        OtherChain(size, chains, slots, hn, hp, x, h, g, hn', hp');
        assert AllHash(chains[g], slots, g, x);
        AllHashElse(chains[g], slots, g, x);
      }
    }
    forall y: nat | y < size && slots[y].dp == 0 ensures hn'[y] == y == hp'[y] {
      assert y !in c && y != x;
    }
  }

  /** The nodes of a chain are slots in use, and not the one in hand. */
  lemma ChainNodes(c: seq<nat>, slots: seq<Slot>, h: nat, x: nat)
    requires AllHash(c, slots, h, x)
    ensures x !in c && forall y: nat :: y in c ==> y < |slots| && slots[y].dp != 0
  {
    hide NcHash;
  }

  lemma ChainsApart(size: nat, chains: seq<seq<nat>>, slots: seq<Slot>, hn: seq<nat>, hp: seq<nat>, x: nat,
                    g: nat, h: nat, y: nat)
    requires Chained(size, chains, slots, hn, hp, x) && g < NC_HASH_SIZE && h < NC_HASH_SIZE && g != h
    requires y in chains[g]
    ensures y !in chains[h] && y < size && y != x
  {
    hide Ring;
  }

  lemma ChainPlace(size: nat, chains: seq<seq<nat>>, slots: seq<Slot>, hn: seq<nat>, hp: seq<nat>, y: nat) returns (h: nat, i: nat)
    requires Chained(size, chains, slots, hn, hp, size) && y < size && slots[y].dp != 0
    ensures |slots[y].name| > 0 && h == NcHash(slots[y].name, slots[y].dp) && i < |chains[h]| && chains[h][i] == y
  {
    hide Ring, AllHash, NcHash;
    h := NcHash(slots[y].name, slots[y].dp);
    i :| i < |chains[h]| && chains[h][i] == y;
  }

  lemma AllHashLess(c: seq<nat>, slots: seq<Slot>, h: nat, i: nat)
    requires AllHash(c, slots, h, |slots|) && i < |c| && forall j, k :: 0 <= j < k < |c| ==> c[j] != c[k]
    ensures AllHash(DeleteAt(c, i), slots, h, c[i]) && forall y :: y in DeleteAt(c, i) <==> y in c && y != c[i]
  {
    hide NcHash, DeleteAt;
    DeleteMembers(c, i);
  }

  lemma AllHashBut(c: seq<nat>, slots: seq<Slot>, h: nat, x: nat)
    requires AllHash(c, slots, h, |slots|) && x !in c
    ensures AllHash(c, slots, h, x)
  {
    hide NcHash;
  }

  lemma ChainDelete(size: nat, chains: seq<seq<nat>>, slots: seq<Slot>, hn: seq<nat>, hp: seq<nat>, h: nat, i: nat)
    requires Chained(size, chains, slots, hn, hp, size)
    requires h < NC_HASH_SIZE && i < |chains[h]|
    ensures var a, b, x := Before(size + h, chains[h], i), After(size + h, chains[h], i + 1), chains[h][i];
            && a < |hn| && b < |hp| && x < |hn| && hp[x] == a && hn[x] == b
            && Chained(size, chains[h := DeleteAt(chains[h], i)], slots, hn[a := b], hp[b := a], x)
  {
    hide Ring, NcHash, AllHash, DeleteAt;
    var c := chains[h];
    assert AllHash(c, slots, h, size);
    ChainNodes(c, slots, h, size);
    Members(size + h, c, hn, hp);
    Delete(size + h, c, hn, hp, i);
    var a, b, x := Before(size + h, c, i), After(size + h, c, i + 1), c[i];
    assert (a == size + h || a in c) && (b == size + h || b in c) && x in c;
    var chains' := chains[h := DeleteAt(c, i)];
    var hn', hp' := hn[a := b], hp[b := a];
    AllHashLess(c, slots, h, i);
    forall g: nat | g < NC_HASH_SIZE ensures Ring(size + g, chains'[g], hn', hp') && AllHash(chains'[g], slots, g, x) {
      if g != h {
        OtherChain(size, chains, slots, hn, hp, size, h, g, hn', hp');
        assert AllHash(chains[g], slots, g, size);
        if x in chains[g] { ChainsApart(size, chains, slots, hn, hp, size, g, h, x); }
        AllHashBut(chains[g], slots, g, x);
      }
    }
    forall y: nat | y < size && slots[y].dp == 0 ensures hn'[y] == y == hp'[y] {
      assert y !in c;
    }
  }

  lemma DeleteMembers(c: seq<nat>, i: nat)
    requires i < |c| && forall j, k :: 0 <= j < k < |c| ==> c[j] != c[k]
    ensures forall y :: y in DeleteAt(c, i) <==> y in c && y != c[i]
  {
    var d := DeleteAt(c, i);
    forall y | y in c && y != c[i] ensures y in d {
      var j :| 0 <= j < |c| && c[j] == y;
      assert d[if j < i then j else j - 1] == y;
    }
  }

  lemma FreeInHand(size: nat, chains: seq<seq<nat>>, slots: seq<Slot>, hn: seq<nat>, hp: seq<nat>, x: nat)
    requires Chained(size, chains, slots, hn, hp, size) && x < size && slots[x].dp == 0
    ensures Chained(size, chains, slots, hn, hp, x) && hn[x] == x == hp[x]
    ensures hn[x := x] == hn && hp[x := x] == hp
  {
    hide Ring, NcHash;
    forall h: nat | h < NC_HASH_SIZE ensures AllHash(chains[h], slots, h, x) {
      assert AllHash(chains[h], slots, h, size);
    }
  }

  lemma AloneAgain(size: nat, chains: seq<seq<nat>>, slots: seq<Slot>, hn: seq<nat>, hp: seq<nat>, x: nat)
    requires Chained(size, chains, slots, hn, hp, x) && x < size && slots[x].dp == 0
    ensures Chained(size, chains, slots, hn[x := x], hp[x := x], size)
  {
    hide Ring, NcHash;
    forall h: nat | h < NC_HASH_SIZE
      ensures Ring(size + h, chains[h], hn[x := x], hp[x := x]) && AllHash(chains[h], slots, h, size)
    {
      assert AllHash(chains[h], slots, h, x);
      Frame(size + h, chains[h], hn, hp, hn[x := x], hp[x := x]);
    }
  }

  /** Filling or clearing the slot in hand. */
  lemma SlotStored(size: nat, chains: seq<seq<nat>>, slots: seq<Slot>, hn: seq<nat>, hp: seq<nat>, x: nat, s: Slot)
    requires Chained(size, chains, slots, hn, hp, x) && x < size
    ensures Chained(size, chains, slots[x := s], hn, hp, x)
  {
    hide Ring, NcHash;
    forall h: nat | h < NC_HASH_SIZE ensures AllHash(chains[h], slots[x := s], h, x) {
      assert AllHash(chains[h], slots, h, x);
    }
  }

  /** What the chains say about the walk along chain `h`. */
  lemma ChainStep(size: nat, chains: seq<seq<nat>>, slots: seq<Slot>, hn: seq<nat>, hp: seq<nat>, h: nat, k: nat)
    requires Chained(size, chains, slots, hn, hp, size) && h < NC_HASH_SIZE && k <= |chains[h]|
    ensures hn[size + h] == After(size + h, chains[h], 0)
    ensures k < |chains[h]| ==>
              chains[h][k] < size && Hashes(slots[chains[h][k]], h) && hn[chains[h][k]] == After(size + h, chains[h], k + 1)
    ensures k < |chains[h]| ==> hp[chains[h][k]] == Before(size + h, chains[h], k)
    ensures After(size + h, chains[h], k) == size + h <==> k == |chains[h]|
  {
    hide Ring, NcHash;
    Members(size + h, chains[h], hn, hp);
    assert AllHash(chains[h], slots, h, size);
    Neighbours(size + h, chains[h], hn, hp, 0);
    if k < |chains[h]| {
      assert chains[h][k] in chains[h];
      Neighbours(size + h, chains[h], hn, hp, k);
      Neighbours(size + h, chains[h], hn, hp, k + 1);
    }
  }

  lemma MissIsMiss(size: nat, lru: seq<nat>, free: nat, chains: seq<seq<nat>>, slots: seq<Slot>, hn: seq<nat>, hp: seq<nat>,
                   dp: nat, name: seq<nat>, cred: int)
    requires LruOk(size, lru, free, slots) && Chained(size, chains, slots, hn, hp, size)
    requires |name| > 0 && var h := NcHash(name, dp);
               forall j :: 0 <= j < |chains[h]| ==> chains[h][j] < size && !Matches(slots[chains[h][j]], dp, name, cred)
    ensures forall s :: s in EntriesOf(lru, free, slots) ==> !Matches(s, dp, name, cred)
  {
    hide Ring, AllHash, NcHash;
    var e := EntriesOf(lru, free, slots);
    forall s | s in e ensures !Matches(s, dp, name, cred) {
      var i :| 0 <= i < |e| && e[i] == s;
      assert slots[lru[free + i]] == s && InUse(s);
    }
  }

  lemma EmptyRing(size: nat, next: seq<nat>, prev: seq<nat>)
    requires |next| == |prev| == size + 1 && next[size] == size == prev[size]
    ensures Ring(size, [], next, prev)
  {
    assert Cycle(size, []) == [size, size];
  }

  lemma AllAlone(size: nat, chains: seq<seq<nat>>, slots: seq<Slot>, hn: seq<nat>, hp: seq<nat>)
    requires |chains| == NC_HASH_SIZE && |slots| == size && |hn| == |hp| == size + NC_HASH_SIZE
    requires forall h :: 0 <= h < NC_HASH_SIZE ==> chains[h] == []
    requires forall x :: 0 <= x < size ==> slots[x].dp == 0
    requires forall x :: 0 <= x < size + NC_HASH_SIZE ==> hn[x] == x == hp[x]
    ensures Chained(size, chains, slots, hn, hp, size)
  {
    forall h: nat | h < NC_HASH_SIZE ensures Ring(size + h, chains[h], hn, hp) {
      assert Cycle(size + h, []) == [size + h, size + h];
    }
  }

  lemma AllFree(size: nat, lru: seq<nat>, slots: seq<Slot>)
    requires |slots| == |lru| == size && forall i :: 0 <= i < size ==> lru[i] == size - 1 - i
    requires forall x :: 0 <= x < size ==> Free(slots[x])
    ensures LruOk(size, lru, size, slots) && EntriesOf(lru, size, slots) == []
  {
    forall x: nat | x < size ensures x in lru { assert lru[size - 1 - x] == x; }
  }

  /** The slot of an entry, and the entry of a slot. */
  lemma EntryPlace(size: nat, lru: seq<nat>, free: nat, slots: seq<Slot>, x: nat) returns (k: nat)
    requires LruOk(size, lru, free, slots) && x < size && slots[x].dp != 0
    ensures free <= k < size && lru[k] == x && InUse(slots[x])
    ensures EntriesOf(lru, free, slots)[k - free] == slots[x]
  {
    assert x in lru;
    k :| 0 <= k < |lru| && lru[k] == x;
    assert EntriesOf(lru, free, slots)[k - free] == slots[x];
  }

  lemma CacheDelete(e: seq<Slot>, size: nat, k: nat)
    requires Cache(e, size) && k < |e|
    ensures Cache(DeleteAt(e, k), size)
  {
    var d := DeleteAt(e, k);
    assert forall i :: 0 <= i < |d| ==> d[i] == if i < k then e[i] else e[i + 1];
  }

  function Cleared(s: Slot): Slot
  {
    s.(dp := 0, vp := 0, cred := NOCRED)
  }

  lemma LruFreed(size: nat, lru: seq<nat>, free: nat, slots: seq<Slot>, k: nat)
    requires LruOk(size, lru, free, slots) && free <= k < size
    ensures |lru| == |slots| == size && forall i :: 0 <= i < size ==> lru[i] < size
    ensures lru[k] !in DeleteAt(lru, k)
    ensures EntriesOf(lru, free, slots)[k - free] == slots[lru[k]] && InUse(slots[lru[k]])
    ensures var lru' := Moved(lru, k, 0);
            var slots' := slots[lru[k] := Cleared(slots[lru[k]])];
            && LruOk(size, lru', free + 1, slots')
            && EntriesOf(lru', free + 1, slots') == DeleteAt(EntriesOf(lru, free, slots), k - free)
  {
    hide Cache, EverySlot, Moved, EntriesOf, LruOk, DeleteAt, InUse, Free, Cleared;
    FreedEntries(size, lru, free, slots, k);
    var e := EntriesOf(lru, free, slots);
    InUseAt(e, size, k - free);
    CacheDelete(e, size, k - free);
  }

  lemma EntryAt(size: nat, lru: seq<nat>, free: nat, slots: seq<Slot>, k: nat)
    requires LruOk(size, lru, free, slots) && free <= k < size
    ensures |lru| == |slots| == size && forall i :: 0 <= i < size ==> lru[i] < size
    ensures EntriesOf(lru, free, slots)[k - free] == slots[lru[k]] && Cache(EntriesOf(lru, free, slots), size)
  {
    hide Cache;
    EntriesAt(lru, free, slots);
  }

  /** The slots in front are free again, the cleared one first. */
  lemma FreedFront(size: nat, lru: seq<nat>, free: nat, slots: seq<Slot>, k: nat)
    requires LruOk(size, lru, free, slots) && free <= k < size
    ensures |lru| == |slots| == size && forall i :: 0 <= i < size ==> lru[i] < size
    ensures var lru' := Moved(lru, k, 0);
            var slots' := slots[lru[k] := Cleared(slots[lru[k]])];
            && (forall i :: 0 <= i < size ==> lru'[i] < size) && EverySlot(size, lru')
            && forall i :: 0 <= i <= free ==> Free(slots'[lru'[i]])
  {
    hide Cache, EverySlot, Moved, EntriesOf;
    SlotBounds(size, lru);
    Apart(size, lru, k);
    Rotated(size, lru, k, 0);
    MovedFirst(lru, k);
  }

  lemma FreedEntries(size: nat, lru: seq<nat>, free: nat, slots: seq<Slot>, k: nat)
    requires LruOk(size, lru, free, slots) && free <= k < size
    ensures |lru| == |slots| == size && (forall i :: 0 <= i < size ==> lru[i] < size) && lru[k] !in DeleteAt(lru, k)
    ensures var e := EntriesOf(lru, free, slots);
            var lru' := Moved(lru, k, 0);
            var slots' := slots[lru[k] := Cleared(slots[lru[k]])];
            && |e| == size - free && e[k - free] == slots[lru[k]] && Cache(e, size)
            && (forall i :: 0 <= i < size ==> lru'[i] < size)
            && EntriesOf(lru', free + 1, slots') == DeleteAt(e, k - free)
            && (Cache(DeleteAt(e, k - free), size) ==> LruOk(size, lru', free + 1, slots'))
  {
    hide Cache, EverySlot, Moved, Cleared, Free;
    SlotBounds(size, lru);
    NotLeft(size, lru, k);
    Apart(size, lru, k);
    MovedFirst(lru, k);
    FreedFront(size, lru, free, slots, k);
    EntryAt(size, lru, free, slots, k);
    var e, lru', slots' := EntriesOf(lru, free, slots), Moved(lru, k, 0), slots[lru[k] := Cleared(slots[lru[k]])];
    assert EntriesOf(lru', free + 1, slots') == DeleteAt(e, k - free);
  }

  lemma InUseAt(e: seq<Slot>, size: nat, i: nat)
    requires Cache(e, size) && i < |e|
    ensures InUse(e[i]) && |e| <= size
  {}

  lemma MovedAt(lru: seq<nat>, k: nat, to: nat)
    requires k < |lru| && to < |lru|
    ensures forall i :: 0 <= i < |lru| ==>
              Moved(lru, k, to)[i] == if i == to then lru[k] else var j := if i < to then i else i - 1; lru[if j < k then j else j + 1]
  {
    var d := DeleteAt(lru, k);
    assert forall i :: 0 <= i < |d| ==> d[i] == lru[if i < k then i else i + 1];
  }

  lemma MovedFirst(lru: seq<nat>, k: nat)
    requires k < |lru|
    ensures Moved(lru, k, 0)[0] == lru[k]
    ensures forall i :: 0 < i <= k ==> Moved(lru, k, 0)[i] == lru[i - 1]
    ensures forall i :: k < i < |lru| ==> Moved(lru, k, 0)[i] == lru[i]
  {
    hide Moved;
    MovedAt(lru, k, 0);
  }

  lemma MovedLast(lru: seq<nat>, k: nat)
    requires k < |lru|
    ensures var r := Moved(lru, k, |lru| - 1);
            && r[|lru| - 1] == lru[k] && (forall i :: 0 <= i < k ==> r[i] == lru[i])
            && forall i :: k <= i < |lru| - 1 ==> r[i] == lru[i + 1]
  {
    hide Moved;
    MovedAt(lru, k, |lru| - 1);
  }

  /** Moving one slot along the LRU ring keeps every slot on it, once. */
  lemma Rotated(size: nat, lru: seq<nat>, k: nat, to: nat)
    requires EverySlot(size, lru) && k < size && to < size
    ensures EverySlot(size, Moved(lru, k, to))
    ensures forall i :: 0 <= i < size ==> lru[i] < size && Moved(lru, k, to)[i] < size
  {
    hide Moved;
    MovedAt(lru, k, to);
    var r := Moved(lru, k, to);
    forall x: nat | x < size ensures x in r {
      assert x in lru;
      var i :| 0 <= i < size && lru[i] == x;
      if i == k { assert r[to] == x; }
      else {
        var j := if i < k then i else i - 1;
        assert r[if j < to then j else j + 1] == x;
      }
    }
  }

  lemma NotLeft(size: nat, lru: seq<nat>, k: nat)
    requires EverySlot(size, lru) && k < size
    ensures |lru| == size && lru[k] !in DeleteAt(lru, k)
  {
    assert forall i :: 0 <= i < size - 1 ==> DeleteAt(lru, k)[i] == lru[if i < k then i else i + 1];
  }

  lemma LruBounds(size: nat, lru: seq<nat>, free: nat, slots: seq<Slot>)
    requires LruOk(size, lru, free, slots)
    ensures free <= |lru| == |slots| == size && forall k :: 0 <= k < |lru| ==> lru[k] < |slots|
    ensures |EntriesOf(lru, free, slots)| <= size
    ensures size == 0 ==> EntriesOf(lru, free, slots) == []
  {}

  lemma LruStep(size: nat, lru: seq<nat>, next: seq<nat>, prev: seq<nat>, k: nat)
    requires Ring(size, lru, next, prev) && k <= |lru|
    ensures |next| > size && next[size] == After(size, lru, 0)
    ensures k < |lru| ==> lru[k] < |next| && next[lru[k]] == After(size, lru, k + 1)
    ensures After(size, lru, k) == size <==> k == |lru|
  {
    hide Ring;
    Members(size, lru, next, prev);
    Neighbours(size, lru, next, prev, 0);
    if k < |lru| {
      assert lru[k] in lru;
      Neighbours(size, lru, next, prev, k + 1);
    }
  }

  lemma LastNode(size: nat, lru: seq<nat>, next: seq<nat>, prev: seq<nat>)
    requires Ring(size, lru, next, prev)
    ensures |prev| > size && prev[size] == Before(size, lru, |lru|)
  {
    hide Ring;
    Neighbours(size, lru, next, prev, |lru|);
  }

  lemma FoundEntry(size: nat, lru: seq<nat>, free: nat, slots: seq<Slot>, x: nat, dp: nat, name: seq<nat>, cred: int)
    returns (k: nat)
    requires LruOk(size, lru, free, slots) && x < size && Matches(slots[x], dp, name, cred) && dp != 0
    ensures free <= k < size && lru[k] == x && InUse(slots[x])
    ensures var e := EntriesOf(lru, free, slots);
            e[k - free] == slots[x] && Find(e, dp, name, cred) < |e|
  {
    k := EntryPlace(size, lru, free, slots, x);
    assert Matches(EntriesOf(lru, free, slots)[k - free], dp, name, cred);
  }

  /** Filling the first slot on the LRU ring and moving it to the end. */
  lemma LruEntered(size: nat, lru: seq<nat>, free: nat, slots: seq<Slot>, s: Slot)
    requires LruOk(size, lru, free, slots) && size > 0 && InUse(s)
    requires forall t :: t in EntriesOf(lru, free, slots) ==> !Matches(t, s.dp, s.name, s.cred)
    ensures |lru| == |slots| == size && forall i :: 0 <= i < size ==> lru[i] < size
    ensures |DeleteAt(lru, 0)| == size - 1 && lru[0] !in DeleteAt(lru, 0)
    ensures if free == 0 then InUse(slots[lru[0]]) && slots[lru[0]] == EntriesOf(lru, free, slots)[0]
            else Free(slots[lru[0]])
    ensures var x := lru[0];
            var e := EntriesOf(lru, free, slots);
            var lru' := Moved(lru, 0, size - 1);
            var slots' := slots[x := s];
            var free' := if free == 0 then 0 else free - 1;
            && LruOk(size, lru', free', slots') && |e| <= size
            && EntriesOf(lru', free', slots') == CacheSpec.Enter(e, size, s)
            && EntriesOf(lru', free', slots') == (if free == 0 then DeleteAt(e, 0) else e) + [s]
  {
    hide Cache, CacheSpec.Enter, Find, Matches, EntriesOf;
    var e := EntriesOf(lru, free, slots);
    var rest := (if free == 0 then DeleteAt(e, 0) else e) + [s];
    EnteredEntries(size, lru, free, slots, s);
    MissEnters(e, size, s, free == 0);
    EnteredOrder(size, lru, free, slots, s);
  }

  lemma MissEnters(e: seq<Slot>, size: nat, s: Slot, full: bool)
    requires Cache(e, size) && size > 0 && InUse(s) && full == (|e| == size)
    requires forall t :: t in e ==> !Matches(t, s.dp, s.name, s.cred)
    ensures var e' := (if full then DeleteAt(e, 0) else e) + [s]; Cache(e', size) && e' == CacheSpec.Enter(e, size, s)
  {
    hide Cache;
    InUseLength(e, size);
    EnterAnswers(e, size, s, s.dp, s.name, s.cred);
    if full { assert e[1..] == DeleteAt(e, 0); }
  }

  lemma InUseLength(e: seq<Slot>, size: nat)
    requires Cache(e, size)
    ensures |e| <= size && forall i :: 0 <= i < |e| ==> InUse(e[i])
  {}

  lemma SlotBounds(size: nat, lru: seq<nat>)
    requires EverySlot(size, lru)
    ensures |lru| == size && forall i :: 0 <= i < size ==> lru[i] < size
  {}

  lemma EntriesAt(lru: seq<nat>, free: nat, slots: seq<Slot>)
    requires free <= |lru| && forall k :: 0 <= k < |lru| ==> lru[k] < |slots|
    ensures forall i :: 0 <= i < |lru| - free ==> EntriesOf(lru, free, slots)[i] == slots[lru[free + i]]
  {}

  lemma EntryIs(lru: seq<nat>, free: nat, slots: seq<Slot>, i: nat)
    requires free + i < |lru| && forall k :: 0 <= k < |lru| ==> lru[k] < |slots|
    ensures EntriesOf(lru, free, slots)[i] == slots[lru[free + i]]
  {}

  lemma Apart(size: nat, lru: seq<nat>, k: nat)
    requires EverySlot(size, lru) && k < size
    ensures |lru| == size && forall i :: 0 <= i < size && i != k ==> lru[i] != lru[k]
  {}

  lemma FirstMoved(size: nat, lru: seq<nat>)
    requires EverySlot(size, lru) && size > 0
    ensures lru[0] !in DeleteAt(lru, 0)
    ensures var r := Moved(lru, 0, size - 1);
            && EverySlot(size, r) && (forall i :: 0 <= i < size ==> r[i] < size) && r[size - 1] == lru[0]
            && forall i :: 0 <= i < size - 1 ==> r[i] == lru[i + 1] && r[i] != lru[0]
  {
    hide Moved;
    Rotated(size, lru, 0, size - 1);
    MovedLast(lru, 0);
    NotLeft(size, lru, 0);
    Apart(size, lru, 0);
  }

  lemma LruParts(size: nat, lru: seq<nat>, free: nat, slots: seq<Slot>)
    requires LruOk(size, lru, free, slots)
    ensures |slots| == size == |lru| && free <= size && EverySlot(size, lru) && (forall i :: 0 <= i < size ==> lru[i] < size)
    ensures Cache(EntriesOf(lru, free, slots), size)
  {}

  /** One entry after the first slot is filled with `s` and moved to the end. */
  lemma EnteredAt(size: nat, lru: seq<nat>, free: nat, slots: seq<Slot>, s: Slot, i: nat)
    requires EverySlot(size, lru) && |slots| == |lru| == size > 0 && free <= size && forall i :: 0 <= i < size ==> lru[i] < size
    requires i < size - if free == 0 then 0 else free - 1
    ensures var lru' := Moved(lru, 0, size - 1);
            var free' := if free == 0 then 0 else free - 1;
            && |lru'| == size && lru'[free' + i] < size
            && slots[lru[0] := s][lru'[free' + i]] == if free' + i == size - 1 then s else slots[lru[free' + i + 1]]
  {
    hide EverySlot, Moved;
    FirstMoved(size, lru);
  }

  lemma EnteredIs(size: nat, lru: seq<nat>, free: nat, slots: seq<Slot>, s: Slot, i: nat, lru': seq<nat>)
    requires EverySlot(size, lru) && |slots| == |lru| == size > 0 && free <= size && forall i :: 0 <= i < size ==> lru[i] < size
    requires lru' == Moved(lru, 0, size - 1) && |lru'| == size && forall i :: 0 <= i < size ==> lru'[i] < size
    requires i < size - if free == 0 then 0 else free - 1
    ensures var e := EntriesOf(lru, free, slots);
            var free' := if free == 0 then 0 else free - 1;
            var r := (if free == 0 then DeleteAt(e, 0) else e) + [s];
            i < |r| && EntriesOf(lru', free', slots[lru[0] := s])[i] == r[i]
  {
    hide Cache, EverySlot, Moved, EntriesOf;
    EnteredAt(size, lru, free, slots, s, i);
    EntryIs(lru', if free == 0 then 0 else free - 1, slots[lru[0] := s], i);
    if i < size - free - if free == 0 then 1 else 0 { EntryIs(lru, free, slots, if free == 0 then i + 1 else i); }
  }

  lemma EnteredEntries(size: nat, lru: seq<nat>, free: nat, slots: seq<Slot>, s: Slot)
    requires LruOk(size, lru, free, slots) && size > 0
    ensures |lru| == |slots| == size && (forall i :: 0 <= i < size ==> lru[i] < size)
    ensures var lru' := Moved(lru, 0, size - 1);
            var slots' := slots[lru[0] := s];
            var free' := if free == 0 then 0 else free - 1;
            var e := EntriesOf(lru, free, slots);
            && Cache(e, size) && |e| == size - free && |lru'| == size && (forall i :: 0 <= i < size ==> lru'[i] < size)
            && EntriesOf(lru', free', slots') == (if free == 0 then DeleteAt(e, 0) else e) + [s]
  {
    hide Cache, EverySlot, Moved, LruOk, EntriesOf, DeleteAt;
    LruParts(size, lru, free, slots);
    Rotated(size, lru, 0, size - 1);
    var lru', e := Moved(lru, 0, size - 1), EntriesOf(lru, free, slots);
    var e' := EntriesOf(lru', if free == 0 then 0 else free - 1, slots[lru[0] := s]);
    var r := (if free == 0 then DeleteAt(e, 0) else e) + [s];
    assert e' == r by {
      forall i | 0 <= i < |e'| ensures i < |r| && e'[i] == r[i] { EnteredIs(size, lru, free, slots, s, i, lru'); }
    }
  }

  lemma EnteredOrder(size: nat, lru: seq<nat>, free: nat, slots: seq<Slot>, s: Slot)
    requires LruOk(size, lru, free, slots) && size > 0
    ensures |lru| == |slots| == size && (forall i :: 0 <= i < size ==> lru[i] < size)
    ensures lru[0] !in DeleteAt(lru, 0)
    ensures if free == 0 then slots[lru[0]] == EntriesOf(lru, free, slots)[0] && InUse(slots[lru[0]]) else Free(slots[lru[0]])
    ensures var lru' := Moved(lru, 0, size - 1);
            var slots' := slots[lru[0] := s];
            var free' := if free == 0 then 0 else free - 1;
            && |lru'| == size && (forall i :: 0 <= i < size ==> lru'[i] < size)
            && (Cache(EntriesOf(lru', free', slots'), size) ==> LruOk(size, lru', free', slots'))
  {
    hide Cache, EverySlot, Moved, EntriesOf;
    SlotBounds(size, lru);
    FirstMoved(size, lru);
    SlotBounds(size, Moved(lru, 0, size - 1));
    EntriesAt(lru, free, slots);
    if free == 0 { InUseAt(EntriesOf(lru, free, slots), size, 0); }
  }

  lemma LongMiss(size: nat, lru: seq<nat>, free: nat, slots: seq<Slot>, dp: nat, name: seq<nat>, cred: int)
    requires LruOk(size, lru, free, slots)
    ensures |name| > NC_NAMLEN || size == 0 ==>
              forall s :: s in EntriesOf(lru, free, slots) ==> !Matches(s, dp, name, cred)
    ensures |name| > NC_NAMLEN || size == 0 ==> Answer(EntriesOf(lru, free, slots), dp, name, cred) == 0
  {
    InUseLength(EntriesOf(lru, free, slots), size);
  }

  lemma MissAnswer(e: seq<Slot>, dp: nat, name: seq<nat>, cred: int)
    requires forall s :: s in e ==> !Matches(s, dp, name, cred)
    ensures Answer(e, dp, name, cred) == 0
  {}

  lemma HitAnswer(e: seq<Slot>, size: nat, dp: nat, name: seq<nat>, cred: int, i: nat)
    requires Cache(e, size) && i < |e| && Matches(e[i], dp, name, cred)
    ensures cred != ANYCRED ==> Answer(e, dp, name, cred) == e[i].vp
  {
    if cred != ANYCRED { OnlyMatch(e, size, dp, name, cred, i); }
  }

  lemma LruTouched(size: nat, lru: seq<nat>, free: nat, slots: seq<Slot>, k: nat)
    requires LruOk(size, lru, free, slots) && free <= k < size
    ensures |lru| == |slots| == size && (forall i :: 0 <= i < size ==> lru[i] < size) && lru[k] !in DeleteAt(lru, k)
    ensures EntriesOf(lru, free, slots)[k - free] == slots[lru[k]] && Cache(EntriesOf(lru, free, slots), size)
    ensures var e := EntriesOf(lru, free, slots);
            var lru' := Moved(lru, k, size - 1);
            && LruOk(size, lru', free, slots) && EntriesOf(lru', free, slots) == Touch(e, k - free)
            && VnodeHolds(EntriesOf(lru', free, slots)) == VnodeHolds(e)
            && CredHolds(EntriesOf(lru', free, slots)) == CredHolds(e)
  {
    hide Cache, VnodeHolds, CredHolds, EverySlot, Touch, Moved, Free, EntriesOf, DeleteAt, LruOk;
    TouchedEntries(size, lru, free, slots, k);
    var e := EntriesOf(lru, free, slots);
    TouchAnswers(e, size, k - free, 0, [], NOCRED);
    TouchedHolds(e, k - free);
  }

  lemma TouchedEntries(size: nat, lru: seq<nat>, free: nat, slots: seq<Slot>, k: nat)
    requires LruOk(size, lru, free, slots) && free <= k < size
    ensures |lru| == |slots| == size && (forall i :: 0 <= i < size ==> lru[i] < size) && lru[k] !in DeleteAt(lru, k)
    ensures var e := EntriesOf(lru, free, slots);
            var lru' := Moved(lru, k, size - 1);
            && |e| == size - free && e[k - free] == slots[lru[k]] && Cache(e, size)
            && (forall i :: 0 <= i < size ==> lru'[i] < size)
            && EntriesOf(lru', free, slots) == Touch(e, k - free)
            && (Cache(Touch(e, k - free), size) ==> LruOk(size, lru', free, slots))
  {
    hide Cache, EverySlot, Touch, Moved, Free, EntriesOf, DeleteAt;
    SlotBounds(size, lru);
    NotLeft(size, lru, k);
    Rotated(size, lru, k, size - 1);
    MovedLast(lru, k);
    var e, lru' := EntriesOf(lru, free, slots), Moved(lru, k, size - 1);
    EntriesAt(lru, free, slots);
    EntriesAt(lru', free, slots);
    TouchedAt(e, k - free);
    assert EntriesOf(lru', free, slots) == Touch(e, k - free);
  }

  lemma TouchedAt(e: seq<Slot>, i: nat)
    requires i < |e|
    ensures |Touch(e, i)| == |e|
    ensures Touch(e, i)[|e| - 1] == e[i]
    ensures forall j :: 0 <= j < i ==> Touch(e, i)[j] == e[j]
    ensures forall j :: i <= j < |e| - 1 ==> Touch(e, i)[j] == e[j + 1]
  {}

  lemma TouchedHolds(e: seq<Slot>, i: nat)
    requires i < |e|
    ensures VnodeHolds(Touch(e, i)) == VnodeHolds(e) && CredHolds(Touch(e, i)) == CredHolds(e)
  {
    hide VnodeHolds, CredHolds;
    VnodeHoldsDelete(e, i);
    CredHoldsDelete(e, i);
    HoldsAppend(DeleteAt(e, i), e[i]);
  }

  lemma ChainBounds(size: nat, chains: seq<seq<nat>>, slots: seq<Slot>, hn: seq<nat>, hp: seq<nat>, h: nat)
    requires Chained(size, chains, slots, hn, hp, size) && h < NC_HASH_SIZE
    ensures |chains| == NC_HASH_SIZE && |slots| == size && |hn| == |hp| == size + NC_HASH_SIZE
    ensures forall i, j :: 0 <= i < j < |chains[h]| ==> chains[h][i] != chains[h][j]
    ensures forall i :: 0 <= i < |chains[h]| ==> chains[h][i] < size && Hashes(slots[chains[h][i]], h)
  {
    hide Ring, NcHash;
    Members(size + h, chains[h], hn, hp);
    assert AllHash(chains[h], slots, h, size);
    forall i | 0 <= i < |chains[h]| ensures chains[h][i] < size && Hashes(slots[chains[h][i]], h) {
      assert chains[h][i] in chains[h];
    }
  }

  lemma ChainBefore(size: nat, chains: seq<seq<nat>>, slots: seq<Slot>, hn: seq<nat>, hp: seq<nat>, x: nat, h: nat, i: nat)
    requires Chained(size, chains, slots, hn, hp, x) && h < NC_HASH_SIZE && i < |chains[h]|
    ensures chains[h][i] < |hp| && hp[chains[h][i]] == Before(size + h, chains[h], i)
  {
    hide Ring, NcHash, AllHash;
    Neighbours(size + h, chains[h], hn, hp, i);
  }

  lemma NothingDoomed(e: seq<Slot>, t: Target)
    requires forall s :: s in e ==> !Doomed(t, s)
    ensures DoomedIn(e, t) == 0 && Purged(e, t, 0) == e
  {
    NoneDoomed(e, t);
  }

  lemma {:induction false} AllDoomed(e: seq<Slot>)
    ensures DoomedIn(e, Anything) == |e|
  {
    if e != [] { AllDoomed(e[1..]); }
  }

  lemma FirstIsDoomed(e: seq<Slot>, k: nat)
    requires k < |e| && forall j :: 0 <= j < k ==> !Doomed(Anything, e[j])
    ensures k == 0
  {
    AllDoomed(e[..k]);
    NoneDoomed(e[..k], Anything);
  }

  lemma NoEntries(e: seq<Slot>)
    requires forall s :: s in e ==> !Doomed(Anything, s)
    ensures e == []
  {
    NoneDoomed(e, Anything);
    AllDoomed(e);
  }

  lemma PurgedNone(e: seq<Slot>, t: Target)
    ensures Purged(e, t, 0) == e
  {}

  lemma SomeDoomed(e: seq<Slot>, t: Target, k: nat)
    requires k < |e| && Doomed(t, e[k])
    ensures DoomedIn(e, t) > 0
  {
    NoneDoomed(e, t);
  }

  lemma OneGone(e: seq<Slot>, t: Target, k: nat)
    requires k < |e| && Doomed(t, e[k])
    ensures var d := DeleteAt(e, k); Purged(d, t, DoomedIn(d, t)) == Purged(e, t, DoomedIn(e, t))
  {
    hide Purged, DoomedIn;
    var d := DeleteAt(e, k);
    PurgeAny(e, t, DoomedIn(d, t) + 1, k);
  }

  lemma AllChainsEmpty(size: nat, lru: seq<nat>, free: nat, chains: seq<seq<nat>>, slots: seq<Slot>, hn: seq<nat>, hp: seq<nat>)
    requires LruOk(size, lru, free, slots) && Chained(size, chains, slots, hn, hp, size)
    requires forall h :: 0 <= h < NC_HASH_SIZE ==> chains[h] == []
    ensures EntriesOf(lru, free, slots) == []
  {
    hide Ring, NcHash, AllHash;
    if free < size {
      InUseAt(EntriesOf(lru, free, slots), size, 0);
    }
  }

  lemma HitIsDoomed(size: nat, lru: seq<nat>, free: nat, slots: seq<Slot>, k: nat, t: Target)
    requires LruOk(size, lru, free, slots) && k < size && (t.Vnode? ==> t.vp != 0)
    ensures lru[k] < size
    ensures k < free ==> !Hit(t, slots[lru[k]])
    ensures k >= free ==> (Hit(t, slots[lru[k]]) <==> Doomed(t, EntriesOf(lru, free, slots)[k - free]))
  {
    if k >= free {
      InUseAt(EntriesOf(lru, free, slots), size, k - free);
    }
  }
}
