/** Circular doubly linked lists whose nodes are indices into `next` and `prev`. */
module Rings {
  import opened Common

  /** The nodes met going once round from `head` back to `head`. */
  function Cycle(head: nat, s: seq<nat>): seq<nat>
  {
    [head] + s + [head]
  }

  /** Consecutive nodes of the walk `c` are linked both ways. */
  ghost predicate Linked(c: seq<nat>, next: seq<nat>, prev: seq<nat>)
  {
    && |next| == |prev|
    && (forall i :: 0 <= i < |c| ==> c[i] < |next|)
    && (forall i :: 0 <= i < |c| - 1 ==> next[c[i]] == c[i + 1])
    && (forall i :: 0 < i < |c| ==> prev[c[i]] == c[i - 1])
  }

  /** No node is met twice, but for the one the walk starts and ends at. */
  ghost predicate Simple(c: seq<nat>)
  {
    forall i, j :: 0 <= i < j < |c| && !(i == 0 && j == |c| - 1) ==> c[i] != c[j]
  }

  /** Going round from `head` visits exactly `s`, each node once, and back again. */
  ghost predicate Ring(head: nat, s: seq<nat>, next: seq<nat>, prev: seq<nat>)
  {
    Linked(Cycle(head, s), next, prev) && Simple(Cycle(head, s))
  }

  lemma LinkIn(c: seq<nat>, next: seq<nat>, prev: seq<nat>, i: nat, x: nat)
    requires Linked(c, next, prev) && Simple(c) && i + 1 < |c| && x < |next| && x !in c
    ensures var d := c[..i + 1] + [x] + c[i + 1..];
            Linked(d, next[x := c[i + 1]][c[i] := x], prev[x := c[i]][c[i + 1] := x]) && Simple(d)
  {
    var d := c[..i + 1] + [x] + c[i + 1..];
    var next', prev' := next[x := c[i + 1]][c[i] := x], prev[x := c[i]][c[i + 1] := x];
    forall j | 0 <= j < |d| ensures d[j] == (if j <= i then c[j] else if j == i + 1 then x else c[j - 1]) && d[j] < |next'| {}
    forall j | 0 <= j < |d| - 1 ensures next'[d[j]] == d[j + 1] {}
    forall j | 0 < j < |d| ensures prev'[d[j]] == d[j - 1] {}
    forall j, k | 0 <= j < k < |d| && !(j == 0 && k == |d| - 1) ensures d[j] != d[k] {}
  }

  lemma LinkOut(c: seq<nat>, next: seq<nat>, prev: seq<nat>, i: nat)
    requires Linked(c, next, prev) && Simple(c) && 0 < i < |c| - 1
    ensures var d := c[..i] + c[i + 1..];
            Linked(d, next[c[i - 1] := c[i + 1]], prev[c[i + 1] := c[i - 1]]) && Simple(d)
  {
    var d := c[..i] + c[i + 1..];
    var next', prev' := next[c[i - 1] := c[i + 1]], prev[c[i + 1] := c[i - 1]];
    forall j | 0 <= j < |d| ensures d[j] == (if j < i then c[j] else c[j + 1]) && d[j] < |next'| {}
    forall j | 0 <= j < |d| - 1 ensures next'[d[j]] == d[j + 1] {}
    forall j | 0 < j < |d| ensures prev'[d[j]] == d[j - 1] {}
    forall j, k | 0 <= j < k < |d| && !(j == 0 && k == |d| - 1) ensures d[j] != d[k] {}
  }

  /** The nodes on either side of gap `i`. */
  function Before(head: nat, s: seq<nat>, i: nat): nat
    requires i <= |s|
  {
    if i == 0 then head else s[i - 1]
  }

  function After(head: nat, s: seq<nat>, i: nat): nat
    requires i <= |s|
  {
    if i == |s| then head else s[i]
  }

  /** What a ring says about one gap, and about membership. */
  lemma Neighbours(head: nat, s: seq<nat>, next: seq<nat>, prev: seq<nat>, i: nat)
    requires Ring(head, s, next, prev) && i <= |s|
    ensures |next| == |prev| && Before(head, s, i) < |next| && After(head, s, i) < |next|
    ensures next[Before(head, s, i)] == After(head, s, i)
    ensures prev[After(head, s, i)] == Before(head, s, i)
  {
    var c := Cycle(head, s);
    assert c[i] == Before(head, s, i) && c[i + 1] == After(head, s, i);
  }

  lemma Members(head: nat, s: seq<nat>, next: seq<nat>, prev: seq<nat>)
    requires Ring(head, s, next, prev)
    ensures head < |next| == |prev| && head !in s
    ensures forall k :: 0 <= k < |s| ==> s[k] < |next|
    ensures forall i, j :: 0 <= i < j < |s| ==> s[i] != s[j]
  {
    var c := Cycle(head, s);
    assert c[0] == head;
    forall k | 0 <= k < |s| ensures s[k] < |next| && s[k] != head {
      assert c[k + 1] == s[k] && c[0] == head;
    }
    forall i, j | 0 <= i < j < |s| ensures s[i] != s[j] {
      assert c[i + 1] == s[i] && c[j + 1] == s[j];
    }
  }

  /** Linking `x` into gap `i`. */
  lemma Insert(head: nat, s: seq<nat>, next: seq<nat>, prev: seq<nat>, i: nat, x: nat)
    requires Ring(head, s, next, prev) && i <= |s| && x < |next| && x != head && x !in s
    ensures |next| == |prev| && Before(head, s, i) < |next| && After(head, s, i) < |next|
    ensures var a, b := Before(head, s, i), After(head, s, i);
            Ring(head, InsertAt(s, i, x), next[x := b][a := x], prev[x := a][b := x])
  {
    hide Linked, Simple;
    Neighbours(head, s, next, prev, i);
    var c := Cycle(head, s);
    assert c[i] == Before(head, s, i) && c[i + 1] == After(head, s, i);
    LinkIn(c, next, prev, i, x);
    assert Cycle(head, InsertAt(s, i, x)) == c[..i + 1] + [x] + c[i + 1..];
  }

  /** Unlinking node `i`. */
  lemma Delete(head: nat, s: seq<nat>, next: seq<nat>, prev: seq<nat>, i: nat)
    requires Ring(head, s, next, prev) && i < |s|
    ensures |next| == |prev| && s[i] < |next| && Before(head, s, i) < |next| && After(head, s, i + 1) < |next|
    ensures prev[s[i]] == Before(head, s, i) && next[s[i]] == After(head, s, i + 1)
    ensures var a, b := Before(head, s, i), After(head, s, i + 1);
            Ring(head, DeleteAt(s, i), next[a := b], prev[b := a])
  {
    hide Linked, Simple;
    Neighbours(head, s, next, prev, i);
    Neighbours(head, s, next, prev, i + 1);
    var c := Cycle(head, s);
    assert c[i] == Before(head, s, i) && c[i + 1] == s[i] && c[i + 2] == After(head, s, i + 1);
    LinkOut(c, next, prev, i + 1);
    assert Cycle(head, DeleteAt(s, i)) == c[..i + 1] + c[i + 2..];
  }

  /** A ring is untouched by changes to other nodes' links. */
  lemma Frame(head: nat, s: seq<nat>, next: seq<nat>, prev: seq<nat>, next': seq<nat>, prev': seq<nat>)
    requires Ring(head, s, next, prev) && |next'| == |next| && |prev'| == |prev|
    requires forall x: nat :: (x == head || x in s) && x < |next| ==> next'[x] == next[x] && prev'[x] == prev[x]
    ensures Ring(head, s, next', prev')
  {
    var c := Cycle(head, s);
    forall i | 0 <= i < |c| ensures next'[c[i]] == next[c[i]] && prev'[c[i]] == prev[c[i]] {
      if 0 < i < |c| - 1 { assert c[i] == s[i - 1]; }
    }
  }
}
