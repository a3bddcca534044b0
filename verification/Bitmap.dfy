/** Bitmaps of 32-bit words (bitmap.h, bitmap.c), as the dispatcher uses them.
    A word is an unsigned 32-bit number; its bits are read by repeated halving. */
module Bitmap {
  import opened Arith

  type Word = w: int | 0 <= w < 0x1_0000_0000

  /** Bit `i` of `w`, counted from the low end. */
  predicate Bit(w: nat, i: nat)
  {
    if i == 0 then w % 2 == 1 else Bit(w / 2, i - 1)
  }

  /** `w | 1 << i` */
  function SetBit(w: nat, i: nat): nat
  {
    if i == 0 then w / 2 * 2 + 1 else SetBit(w / 2, i - 1) * 2 + w % 2
  }

  /** `w & ~(1 << i)` */
  function ClearBit(w: nat, i: nat): nat
  {
    if i == 0 then w / 2 * 2 else ClearBit(w / 2, i - 1) * 2 + w % 2
  }

  lemma {:induction false} BitOfSet(w: nat, i: nat, j: nat)
    ensures Bit(SetBit(w, i), j) == (Bit(w, j) || i == j)
  {
    if i > 0 && j > 0 {
      BitOfSet(w / 2, i - 1, j - 1);
    }
  }

  lemma {:induction false} BitOfClear(w: nat, i: nat, j: nat)
    ensures Bit(ClearBit(w, i), j) == (Bit(w, j) && i != j)
  {
    if i > 0 && j > 0 {
      BitOfClear(w / 2, i - 1, j - 1);
    }
  }

  lemma {:induction false} SetBitFits(w: nat, i: nat, n: nat)
    requires w < Pow2(n) && i < n
    ensures SetBit(w, i) < Pow2(n) && ClearBit(w, i) < Pow2(n)
  {
    var half := Pow2(n - 1);
    assert Pow2(n) == 2 * half;
    hide Pow2;
    if i > 0 {
      assert w / 2 < half;
      SetBitFits(w / 2, i - 1, n - 1);
    }
  }

  /** A number between two powers of two has the lower one as its top bit. */
  lemma {:induction false} TopBit(w: nat, h: nat)
    requires Pow2(h) <= w < Pow2(h + 1)
    ensures Bit(w, h)
    ensures forall j :: j > h ==> !Bit(w, j)
  {
    if h == 0 {
      forall j | j > 0 ensures !Bit(w, j) { ZeroHasNoBit(j - 1); }
    } else {
      TopBit(w / 2, h - 1);
      forall j | j > h ensures !Bit(w, j) { assert Bit(w, j) == Bit(w / 2, j - 1); }
    }
  }

  lemma {:induction false} ZeroHasNoBit(j: nat)
    ensures !Bit(0, j)
  {
    if j > 0 { ZeroHasNoBit(j - 1); }
  }

  // ------------------------------------------------------------- whole maps

  predicate Test(m: seq<Word>, p: nat)
    requires p / 32 < |m|
  {
    Bit(m[p / 32], p % 32)
  }

  lemma Pow32()
    ensures Pow2(32) == 0x1_0000_0000 && Pow2(16) == 0x1_0000 && Pow2(8) == 0x100
  {
    assert Pow2(8) == 0x100;
    assert Pow2(16) == 0x1_0000;
    assert Pow2(24) == 0x100_0000;
  }

  /** BT_SET */
  function Set(m: seq<Word>, p: nat): (r: seq<Word>)
    requires p / 32 < |m|
    ensures |r| == |m|
    ensures forall q: nat :: q / 32 < |m| ==> Test(r, q) == (Test(m, q) || p == q)
  {
    Pow32();
    SetBitFits(m[p / 32], p % 32, 32);
    var r := m[p / 32 := SetBit(m[p / 32], p % 32)];
    assert forall q: nat :: q / 32 < |m| ==> Test(r, q) == (Test(m, q) || p == q) by {
      forall q: nat | q / 32 < |m|
        ensures Test(r, q) == (Test(m, q) || p == q)
      {
        BitOfSet(m[p / 32], p % 32, q % 32);
      }
    }
    r
  }

  /** `map[p >> BT_ULSHIFT] &= ~BT_BIW(p)` */
  function Clear(m: seq<Word>, p: nat): (r: seq<Word>)
    requires p / 32 < |m|
    ensures |r| == |m|
    ensures forall q: nat :: q / 32 < |m| ==> Test(r, q) == (Test(m, q) && p != q)
  {
    Pow32();
    SetBitFits(m[p / 32], p % 32, 32);
    var r := m[p / 32 := ClearBit(m[p / 32], p % 32)];
    assert forall q: nat :: q / 32 < |m| ==> Test(r, q) == (Test(m, q) && p != q) by {
      forall q: nat | q / 32 < |m|
        ensures Test(r, q) == (Test(m, q) && p != q)
      {
        BitOfClear(m[p / 32], p % 32, q % 32);
      }
    }
    r
  }

  /** `word` shifted right by `h` is `w`. */
  predicate ShiftsTo(word: nat, h: nat, w: nat)
  {
    Pow2(h) * w <= word < Pow2(h) * (w + 1)
  }

  /** Dropping the low part `r` of `w == q * c + r` keeps the shifted-out range. */
  lemma DropLowPart(word: nat, p: nat, w: nat, c: nat, q: nat, r: nat)
    requires p * w <= word < p * (w + 1)
    requires w == q * c + r && r < c
    ensures p * c * q <= word < p * c * (q + 1)
  {
    assert c * q == q * c;
    MulAssoc(p, c, q);
    MulLe(q * c, w, p);
    Distribute(c, q, 1);
    MulAssoc(p, c, q + 1);
    MulLe(w + 1, c * (q + 1), p);
  }

  lemma QuotientRange(w: nat, c: nat)
    requires 0 < c <= w < c * c
    ensures 0 < w / c < c
    ensures w == w / c * c + w % c
  {
    var q := w / c;
    if q >= c { MulLe(c, q, c); }
  }

  lemma ShiftFurther(word: nat, h: nat, w: nat, k: nat)
    requires ShiftsTo(word, h, w)
    requires Pow2(k) <= w < Pow2(2 * k)
    ensures ShiftsTo(word, h + k, w / Pow2(k)) && 0 < w / Pow2(k) < Pow2(k)
  {
    hide Pow2;
    var c := Pow2(k);
    Pow2Add(k, k);
    assert k + k == 2 * k;
    Pow2Add(h, k);
    QuotientRange(w, c);
    DropLowPart(word, Pow2(h), w, c, w / c, w % c);
  }

  /** One step of the binary search: drop `k` low bits when something is left above them. */
  method HalveSearch(word: nat, h: nat, w: nat, k: nat, c: nat) returns (h': nat, w': nat)
    requires ShiftsTo(word, h, w) && c == Pow2(k) && 0 < w < Pow2(2 * k)
    ensures ShiftsTo(word, h', w') && 0 < w' < c
    ensures h <= h' <= h + k
  {
    if w >= c {
      ShiftFurther(word, h, w, k);
      h', w' := h + k, w / c;
    } else {
      h', w' := h, w;
    }
  }

  /** The binary search for the top bit of one word. */
  method HighBitOfWord(word: Word) returns (h: nat)
    requires word != 0
    ensures h < 32 && Bit(word, h)
    ensures forall j :: j > h ==> !Bit(word, j)
  {
    Pow32();
    var w;
    h, w := HalveSearch(word, 0, word, 16, 0x1_0000);
    h, w := HalveSearch(word, h, w, 8, 0x100);
    h, w := HalveSearch(word, h, w, 4, 0x10);
    h, w := HalveSearch(word, h, w, 2, 4);
    h, w := HalveSearch(word, h, w, 1, 2);
    TopBit(word, h);
  }

  /** bt_gethighbit: the highest bit on in word `wx` or below it, -1 if there is none. */
  method GetHighBit(m: seq<Word>, wx: nat) returns (pos: int)
    requires wx < |m|
    ensures pos == -1 || (pos >= 0 && pos / 32 <= wx && Test(m, pos))
    ensures forall q: nat :: q > pos && q / 32 <= wx ==> !Test(m, q)
  {
    var i: int := wx;
    while m[i] == 0
      invariant 0 <= i <= wx
      invariant forall q: nat :: i < q / 32 <= wx ==> !Test(m, q)
      decreases i
    {
      forall q: nat | q / 32 == i ensures !Test(m, q) { ZeroHasNoBit(q % 32); }
      i := i - 1;
      if i < 0 {
        return -1;
      }
    }
    var h := HighBitOfWord(m[i]);
    pos := 32 * i + h;
  }
}
