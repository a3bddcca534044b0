/** Double-long integers: pairs of 32-bit words (dl.h, ladd.s, lsub.s, lshiftl.s,
    lsign.s), and the multiplication and division built on them (lmul.c, ldivide.c). */
module DoubleLong {
  import opened Arith

  const W32: nat := 0x1_0000_0000
  const W63: nat := 0x8000_0000_0000_0000
  const W64: nat := 0x1_0000_0000_0000_0000

  type U32 = x: int | 0 <= x < 0x1_0000_0000

  /** `hop` is the bit pattern of the signed high word. */
  datatype Dl = Dl(lop: U32, hop: U32)

  const DL_ZERO := Dl(0, 0)

  /** The pair read as an unsigned 64-bit number. */
  function Val(d: Dl): (v: nat)
    ensures v < W64
  {
    d.hop * W32 + d.lop
  }

  /** lsign: the top bit. */
  predicate Lsign(d: Dl)
  {
    d.hop >= 0x8000_0000
  }

  /** ladd: add low words, then high words with the carry. */
  function Ladd(a: Dl, b: Dl): (r: Dl)
    ensures Val(r) == if Val(a) + Val(b) < W64 then Val(a) + Val(b) else Val(a) + Val(b) - W64
  {
    var lo := a.lop + b.lop;
    var carry := if lo >= W32 then 1 else 0;
    var hi := a.hop + b.hop + carry;
    Dl(if lo >= W32 then lo - W32 else lo, if hi >= W32 then hi - W32 else hi)
  }

  /** lsub: subtract low words, then high words with the borrow. */
  function Lsub(a: Dl, b: Dl): (r: Dl)
    ensures Val(r) == if Val(a) >= Val(b) then Val(a) - Val(b) else Val(a) - Val(b) + W64
  {
    var lo := a.lop - b.lop;
    var borrow := if lo < 0 then 1 else 0;
    var hi := a.hop - b.hop - borrow;
    Dl(if lo < 0 then lo + W32 else lo, if hi < 0 then hi + W32 else hi)
  }

  /** One `shll`, `rcll` step: the low word's top bit moves into the high word. */
  function Shl1(d: Dl): (r: Dl)
    ensures Val(r) == if Val(d) < W63 then 2 * Val(d) else 2 * Val(d) - W64
    ensures r.lop % 2 == 0
  {
    var lo := 2 * d.lop;
    var carry := if lo >= W32 then 1 else 0;
    var hi := 2 * d.hop + carry;
    Dl(if lo >= W32 then lo - W32 else lo, if hi >= W32 then hi - W32 else hi)
  }

  /** One `sarl`, `rcrl` step: the sign stays, the high word's low bit moves down. */
  function Sar1(d: Dl): (r: Dl)
    ensures !Lsign(d) ==> Val(r) == Val(d) / 2 && !Lsign(r)
  {
    var sign := if Lsign(d) then 0x8000_0000 else 0;
    Dl(d.lop / 2 + d.hop % 2 * 0x8000_0000, d.hop / 2 + sign)
  }

  /** lshiftl: left for a positive count, arithmetic right for a negative one. */
  function Lshiftl(d: Dl, n: int): Dl
    decreases if n < 0 then -n else n
  {
    if n == 0 then d
    else if n > 0 then Lshiftl(Shl1(d), n - 1)
    else Lshiftl(Sar1(d), n + 1)
  }

  lemma Pow63()
    ensures Pow2(63) == W63 && Pow2(62) == W63 / 2
  {
    assert Pow2(8) == 0x100;
    assert Pow2(16) == 0x1_0000;
    assert Pow2(24) == 0x100_0000;
    assert Pow2(32) == 0x1_0000_0000;
    assert Pow2(40) == 0x100_0000_0000;
    assert Pow2(48) == 0x1_0000_0000_0000;
    assert Pow2(56) == 0x100_0000_0000_0000;
  }

  /** A left shift whose result still fits multiplies by the power of two. */
  lemma {:induction false} ShiftLeftFits(d: Dl, n: nat)
    requires Val(d) * Pow2(n) < W63
    ensures Val(Lshiftl(d, n)) == Val(d) * Pow2(n)
    decreases n
  {
    if n > 0 {
      assert Val(d) * Pow2(n) == 2 * Val(d) * Pow2(n - 1) by { MulAssoc(Val(d), 2, Pow2(n - 1)); }
      assert Val(d) < W63 by { MulLe(1, Pow2(n), Val(d)); }
      ShiftLeftFits(Shl1(d), n - 1);
    }
  }

  /** `Half(v, n)` is `v` shifted right `n` times. */
  function Half(v: nat, n: nat): nat
  {
    if n == 0 then v else Half(v / 2, n - 1)
  }

  lemma {:induction false} ShiftRight(d: Dl, n: nat)
    requires !Lsign(d)
    ensures Val(Lshiftl(d, 0 - n)) == Half(Val(d), n)
    decreases n
  {
    if n > 0 {
      ShiftRight(Sar1(d), n - 1);
    }
  }

  lemma {:induction false} HalfStep(v: nat, n: nat)
    ensures Half(v, n + 1) == Half(v, n) / 2
  {
    if n > 0 {
      HalfStep(v / 2, n - 1);
    }
  }

  lemma LowBit(d: Dl)
    ensures d.lop % 2 == Val(d) % 2
  {}

  /** Masking off the sign bit changes nothing below 2^63. */
  lemma MaskFits(d: Dl)
    requires Val(d) < W63
    ensures d.hop % 0x8000_0000 == d.hop
  {}

  /** `low` is `r` modulo 2^jj. */
  ghost predicate LowPart(r: nat, jj: nat, low: nat)
  {
    r == Half(r, jj) * Pow2(jj) + low && low < Pow2(jj)
  }

  /** What the loop of lmul adds for bit `jj`. */
  ghost function Term(l: nat, jj: nat): nat
  {
    l * Pow2(jj)
  }

  /** lmul: the sum of the shifted multiplicands. While the product stays below 2^63 no
      partial term loses a bit, and the answer is the product. */
  method Lmul(lop: Dl, rop: Dl) returns (ans: Dl)
    ensures Val(lop) * Val(rop) < W63 ==> Val(ans) == Val(lop) * Val(rop)
  {
    hide Half, Pow2, Ladd, Lshiftl, Val, Lsign, LowPart, Term, Product;
    ghost var l, r := Val(lop), Val(rop);
    ghost var fits := Product(l, r) < W63 && !Lsign(rop);
    ans := DL_ZERO;
    var jj := 0;
    ghost var low: nat := 0;
    StartOf(l, r);
    while jj <= 63
      invariant 0 <= jj <= 64
      invariant fits ==> LowPart(r, jj, low)
      invariant fits ==> Val(ans) == Product(l, low)
      invariant l == 0 ==> Val(ans) == 0
    {
      if fits {
        ShiftRight(rop, jj);
        LowBit(Lshiftl(rop, 0 - jj));
        LowStep(r, jj, low);
      }
      if Lshiftl(rop, 0 - jj).lop % 2 != 0 {
        var tmp := Lshiftl(lop, jj);
        if fits {
          TermFits(lop, r, jj, low);
          MaskFits(tmp);
        }
        if l == 0 {
          ShiftLeftFits(lop, jj);
          MaskFits(tmp);
        }
        tmp := tmp.(hop := tmp.hop % 0x8000_0000);
        ans := Ladd(ans, tmp);
        low := low + Pow2(jj);
      }
      jj := jj + 1;
    }
    if fits {
      NotNegative(rop);
      AllLow(l, r, low);
    } else {
      SmallFactor(lop, rop);
    }
  }

  /** A product below 2^63 with a factor that is not is zero. */
  lemma SmallFactor(lop: Dl, rop: Dl)
    ensures Product(Val(lop), Val(rop)) == Val(lop) * Val(rop)
    ensures Lsign(rop) && Val(lop) * Val(rop) < W63 ==> Val(lop) == 0 == Val(lop) * Val(rop)
  {
    if Val(lop) > 0 { MulLe(1, Val(lop), Val(rop)); }
  }

  ghost function Product(a: nat, b: nat): nat
  {
    a * b
  }

  lemma NotNegative(d: Dl)
    requires !Lsign(d)
    ensures Val(d) < W63
  {}

  lemma StartOf(l: nat, r: nat)
    ensures LowPart(r, 0, 0) && Val(DL_ZERO) == 0 == Product(l, 0)
  {}

  /** One more low bit moves from the high part to the low part. */
  lemma LowStep(r: nat, jj: nat, low: nat)
    requires LowPart(r, jj, low)
    ensures LowPart(r, jj + 1, if Half(r, jj) % 2 == 1 then low + Pow2(jj) else low)
  {
    hide Half;
    HalfStep(r, jj);
    SplitLow(r, Half(r, jj), Pow2(jj), low);
  }

  lemma SplitLow(r: nat, h: nat, p: nat, low: nat)
    requires r == h * p + low && low < p
    ensures h % 2 == 0 ==> r == h / 2 * (2 * p) + low
    ensures h % 2 == 1 ==> r == h / 2 * (2 * p) + (low + p)
  {
    assert h == h / 2 * 2 + h % 2;
    Distribute(p, h / 2 * 2, h % 2);
    MulAssoc(h / 2, 2, p);
  }

  lemma TermFits(lop: Dl, r: nat, jj: nat, low: nat)
    requires LowPart(r, jj, low) && Half(r, jj) % 2 == 1 && Product(Val(lop), r) < W63
    ensures Val(Lshiftl(lop, jj)) < W63
    ensures Product(Val(lop), low) + Val(Lshiftl(lop, jj)) == Product(Val(lop), low + Pow2(jj)) < W63
  {
    hide Half, Lshiftl, Val;
    var l := Val(lop);
    MulLe(1, Half(r, jj), Pow2(jj));
    Distribute(l, low, Pow2(jj));
    MulLe(low + Pow2(jj), r, l);
    MulLe(Pow2(jj), r, l);
    ShiftLeftFits(lop, jj);
  }

  lemma AllLow(l: nat, r: nat, low: nat)
    requires LowPart(r, 64, low) && r < W63
    ensures low == r
    ensures Product(l, r) == l * r
  {
    HalfVanishes(r, low);
  }

  lemma HalfVanishes(r: nat, low: nat)
    requires r < W63 && r == Half(r, 64) * Pow2(64) + low
    ensures low == r
  {
    Pow63();
    assert Pow2(64) == 2 * Pow2(63);
    if Half(r, 64) > 0 {
      MulLe(1, Half(r, 64), Pow2(64));
    }
  }

  /** The magnitude of a signed double long. */
  function Magnitude(d: Dl): nat
  {
    if Lsign(d) then W64 - Val(d) else Val(d)
  }

  lemma MagnitudeIs(d: Dl)
    requires Magnitude(d) < W63
    ensures Magnitude(d) == if Lsign(d) then Val(Lsub(DL_ZERO, d)) else Val(d)
  {}

  /** ldivide: 63 steps of restoring division give the floor quotient of the magnitudes. */
  method Ldivide(lop0: Dl, rop0: Dl) returns (ans: Dl)
    requires Magnitude(lop0) < W63 && 0 < Magnitude(rop0) < W63
    ensures Val(ans) == Magnitude(lop0) / Magnitude(rop0)
  {
    hide Pow2, Val, Brought, Divided;
    var lop, rop := lop0, rop0;
    if Lsign(lop) {
      lop := Lsub(DL_ZERO, lop);
    }
    if Lsign(rop) {
      rop := Lsub(DL_ZERO, rop);
    }
    ghost var l, r := Val(lop), Val(rop);
    assert l == Magnitude(lop0) && r == Magnitude(rop0) by { MagnitudeIs(lop0); MagnitudeIs(rop0); }
    ans := DL_ZERO;
    var div := DL_ZERO;
    ghost var q: nat, s: nat := 0, l;      // l * 2^cnt == q * 2^63 + s
    var cnt := 0;
    DivisionStart(l, rop);
    while cnt < 63
      invariant 0 <= cnt <= 63
      invariant Brought(l, cnt, q, s)
      invariant Val(lop) == s || Val(lop) == W63 + s
      invariant Divided(q, ans, rop, div)
    {
      BringNext(l, cnt, q, s);
      ghost var bit := if 2 * s >= W63 then 1 else 0;
      lop, div, ans := DivideStep(lop, rop, div, ans, q, s);
      q, s := 2 * q + bit, 2 * s - bit * W63;
      cnt := cnt + 1;
    }
    DivisionEnd(l, q, s, ans, rop, div);
  }

  /** The top `cnt` bits of the dividend, `q`, have been brought down; `s` are the others. */
  ghost predicate Brought(l: nat, cnt: nat, q: nat, s: nat)
  {
    l * Pow2(cnt) == q * W63 + s && s < W63 && q < Pow2(cnt)
  }

  /** `q` divided by the divisor gives `ans`, remainder `div`. */
  ghost predicate Divided(q: nat, ans: Dl, rop: Dl, div: Dl)
  {
    q == Val(ans) * Val(rop) + Val(div) && Val(div) < Val(rop) && Val(ans) <= q
  }

  lemma DivisionStart(l: nat, rop: Dl)
    requires l < W63 && 0 < Val(rop)
    ensures Brought(l, 0, 0, l) && Divided(0, DL_ZERO, rop, DL_ZERO)
  {}

  lemma DivisionEnd(l: nat, q: nat, s: nat, ans: Dl, rop: Dl, div: Dl)
    requires Brought(l, 63, q, s) && Divided(q, ans, rop, div) && 0 < Val(rop)
    ensures Val(ans) == l / Val(rop)
  {
    Pow63();
    TopOut(l, q, s);
    QuotientUnique(l, Val(rop), Val(ans), Val(div));
  }

  lemma BringNext(l: nat, cnt: nat, q: nat, s: nat)
    requires Brought(l, cnt, q, s) && cnt < 63
    ensures q < W63 / 2 && s < W63
    ensures var bit := if 2 * s >= W63 then 1 else 0; Brought(l, cnt + 1, 2 * q + bit, 2 * s - bit * W63)
  {
    hide Pow2;
    SmallPow(cnt);
    DoubleBoth(l, Pow2(cnt), q, s);
  }

  lemma {:induction false} SmallPow(n: nat)
    requires n <= 62
    ensures Pow2(n) <= W63 / 2 && Pow2(n + 1) == 2 * Pow2(n)
    decreases 62 - n
  {
    Pow63();
    if n < 62 { SmallPow(n + 1); }
  }

  lemma DoubleBoth(l: nat, p: nat, q: nat, s: nat)
    requires l * p == q * W63 + s
    ensures l * (2 * p) == (2 * q) * W63 + 2 * s
    ensures l * (2 * p) == (2 * q + 1) * W63 + (2 * s - W63)
  {
    assert l * (2 * p) == 2 * (l * p) by {
      MulAssoc(2, l, p);
      assert 2 * l == l * 2;
      MulAssoc(l, 2, p);
    }
  }

  /** One step of the restoring division: bring down the next bit of the dividend,
      subtract the divisor if it fits, and record whether it did. */
  method DivideStep(lop0: Dl, rop: Dl, div0: Dl, ans0: Dl, ghost q: nat, ghost s: nat)
    returns (lop: Dl, div: Dl, ans: Dl)
    requires 0 < Val(rop) < W63 && s < W63 && (Val(lop0) == s || Val(lop0) == W63 + s)
    requires Divided(q, ans0, rop, div0) && q < W63 / 2
    ensures Val(lop) == 2 * s
    ensures Divided(2 * q + if 2 * s >= W63 then 1 else 0, ans, rop, div)
  {
    hide Ladd, Lsub, Shl1;
    lop := lop0;
    div := Shl1(div0);
    LowBit(div);
    lop := Shl1(lop);
    if Lsign(lop) {
      div := AddOne(div);
    }
    var tmp := Lsub(div, rop);
    ans := Shl1(ans0);
    BringDown(q, Val(ans0), Val(rop), Val(div0));
    if !Lsign(tmp) {
      ans := AddOne(ans);
      div := tmp;
    }
    MulLe(1, Val(rop), Val(ans));
  }

  /** `d.dl_lop |= 1` on an even double long. */
  function AddOne(d: Dl): (r: Dl)
    requires d.lop % 2 == 0
    ensures Val(r) == Val(d) + 1
  {
    d.(lop := d.lop + 1)
  }

  lemma BringDown(q: nat, a: nat, r: nat, e: nat)
    requires q == a * r + e
    ensures 2 * q == 2 * a * r + 2 * e
    ensures 2 * q == (2 * a + 1) * r + (2 * e - r)
  {
    MulAssoc(2, a, r);
    Distribute(r, 2 * a, 1);
  }

  lemma TopOut(l: nat, q: nat, s: nat)
    requires l * W63 == q * W63 + s && s < W63
    ensures q == l && s == 0
  {}
}
