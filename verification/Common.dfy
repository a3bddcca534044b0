/** What several parts share. */
module Common {

  const EINVAL := 22

  type Byte = x: int | 0 <= x < 256

  datatype Option<T> = None | Some(value: T)

  predicate Distinct(s: seq<nat>)
  {
    forall i, j :: 0 <= i < j < |s| ==> s[i] != s[j]
  }

  /** The elements of `s` that `p` holds of, in order. */
  function Keeping<T(!new)>(s: seq<T>, p: T -> bool): (r: seq<T>)
    ensures forall x :: x in r <==> x in s && p(x)
  {
    if s == [] then [] else (if p(s[0]) then [s[0]] else []) + Keeping(s[1..], p)
  }

  lemma KeepingCons<T(!new)>(x: T, s: seq<T>, p: T -> bool)
    ensures Keeping([x] + s, p) == (if p(x) then [x] else []) + Keeping(s, p)
  {
    assert ([x] + s)[1..] == s;
  }

  lemma {:induction false} KeepingSnoc<T(!new)>(s: seq<T>, x: T, p: T -> bool)
    ensures Keeping(s + [x], p) == Keeping(s, p) + (if p(x) then [x] else [])
  {
    if s == [] {
      assert s + [x] == [x] && [x][1..] == [];
    } else {
      assert (s + [x])[1..] == s[1..] + [x];
      KeepingSnoc(s[1..], x, p);
    }
  }

  function InsertAt<T>(s: seq<T>, i: nat, x: T): (r: seq<T>)
    requires i <= |s|
    ensures |r| == |s| + 1
  {
    s[..i] + [x] + s[i..]
  }

  function DeleteAt<T>(s: seq<T>, i: nat): (r: seq<T>)
    requires i < |s|
    ensures |r| == |s| - 1
  {
    s[..i] + s[i + 1..]
  }
}

/** The errors of priocntl and of the time conversions: EINVAL, EPERM, ERANGE and EDOM. */
module Errors {

  datatype Errno = Ok | Invalid | NotPermitted | Range | Domain
}
