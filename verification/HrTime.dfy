/** Conversion of times between resolutions (hrtimers.c) and of real-time quanta between
    ticks and seconds with nanoseconds (rt.c). */
module HrTime {
  import opened Arith
  import opened DoubleLong
  import opened Errors
  import R = RtSpec

  const NANOSEC := 1_000_000_000

  datatype Rounding = Trunc | Rnd | RndUp

  /** The value of a 32-bit unsigned, and of a 32-bit signed, variable after an assignment. */
  function ToU32(x: int): (r: U32)
    ensures 0 <= x < W32 ==> r == x
  {
    x % 0x1_0000_0000
  }

  function ToLong(x: int): (r: int)
    ensures -0x8000_0000 <= r < 0x8000_0000
    ensures -0x8000_0000 <= x < 0x8000_0000 ==> r == x
  {
    (x + 0x8000_0000) % 0x1_0000_0000 - 0x8000_0000
  }

  predicate LegalRes(res: int)
  {
    0 < res <= NANOSEC
  }

  /** The mathematical quotient, rounded down, half up, or up. */
  function Rounded(rnd: Rounding, n: nat, d: nat): (q: nat)
    requires d > 0
  {
    match rnd
    case Trunc => n / d
    case Rnd => (2 * n + d) / (2 * d)
    case RndUp => if n % d == 0 then n / d else n / d + 1
  }

  /** A number divided by its divisor plus what rounding adds. */
  lemma RoundedByRemainder(rnd: Rounding, n: nat, d: nat, q: nat, r: nat)
    requires d > 0 && n == q * d + r && r < d
    ensures n / d == q && n % d == r
    ensures Rounded(rnd, n, d) ==
            match rnd
            case Trunc => q
            case Rnd => (if 2 * r >= d then q + 1 else q)
            case RndUp => (if r > 0 then q + 1 else q)
  {
    QuotientUnique(n, d, q, r);
    if rnd.Rnd? {
      var up := if 2 * r >= d then 1 else 0;
      assert 2 * n + d == (q + up) * (2 * d) + (2 * r + d - up * (2 * d)) by {
        Distribute(2 * d, q, up);
        assert q * (2 * d) == 2 * (q * d) by { MulAssoc(q, 2, d); MulAssoc(2, q, d); assert q * 2 == 2 * q; }
      }
      QuotientUnique(2 * n + d, 2 * d, q + up, 2 * r + d - up * (2 * d));
    }
  }

  lemma CarriedOver(n: nat, d: nat, q: nat, r: nat, add: nat)
    requires n == q * d + r && r < d && add < d
    ensures (n + add) / d == if r + add >= d then q + 1 else q
  {
    if r + add >= d {
      Distribute(d, q, 1);
      QuotientUnique(n + add, d, q + 1, r + add - d);
    } else {
      QuotientUnique(n + add, d, q, r + add);
    }
  }

  /** What is added before dividing. */
  function Added(rnd: Rounding, d: nat): (add: nat)
    requires d > 0
    ensures add < d
  {
    match rnd case Trunc => 0 case Rnd => d / 2 case RndUp => d - 1
  }

  lemma AddedReaches(rnd: Rounding, d: nat, r: nat)
    requires d > 0 && r < d
    ensures r + Added(rnd, d) >= d <==> match rnd case Trunc => false case Rnd => 2 * r >= d case RndUp => r > 0
  {}

  /** Adding first and dividing after rounds the same way. */
  lemma AddThenDivide(rnd: Rounding, n: nat, d: nat)
    requires d > 0
    ensures (n + Added(rnd, d)) / d == Rounded(rnd, n, d)
  {
    hide Rounded, Added;
    var q, r := n / d, n % d;
    assert n == q * d + r;
    RoundedByRemainder(rnd, n, d, q, r);
    AddedReaches(rnd, d, r);
    CarriedOver(n, d, q, r, Added(rnd, d));
  }

  lemma RoundedBound(rnd: Rounding, i: nat, n: nat, d: nat)
    requires i < d && n > 0
    ensures i * n / d < n && Rounded(rnd, i * n, d) <= n
    ensures i * n == i * n / d * d + i * n % d
  {
    var q, r := i * n / d, i * n % d;
    assert i * n == q * d + r;
    RoundedByRemainder(rnd, i * n, d, q, r);
    if q >= n {
      MulLe(n, q, d);
      MulLt(i, d, n);
    }
  }

  /** A truncated product divides back to the multiplicand exactly when it did not overflow. */
  lemma DivideBackTest(i: nat, n: nat)
    requires 0 < n <= NANOSEC
    ensures ToU32(i * n) / n == i <==> i * n < W32
  {
    var p := i * n;
    if p < W32 {
      QuotientUnique(p, n, i, 0);
    } else {
      var k := p / W32;
      var t := ToU32(p);
      assert p == k * W32 + t && k >= 1;
    }
  }

  class HrTimeT {
    var secs: U32
    var rem: int
    var res: U32

    constructor (secs: U32, rem: int, res: U32)
      ensures this.secs == secs && this.rem == rem && this.res == res
    {
      this.secs, this.rem, this.res := secs, rem, res;
    }

    /** hrt_newres. For a nonnegative time at a legal resolution the result is exact in
        both the single- and the double-precision path, and only an illegal new
        resolution is an error. */
    method NewRes(newRes: U32, rnd: Rounding) returns (err: Errno)
      requires LegalRes(res) && 0 <= rem < 0x8000_0000
      modifies this
      ensures err == if LegalRes(newRes) then Ok else Range
      ensures err == Ok ==>
        && secs == ToU32(old(secs) + old(rem / res))
        && rem == Rounded(rnd, old(rem % res) * newRes, old(res))
        && 0 <= rem <= newRes && res == newRes
      ensures err != Ok ==> secs == old(secs) && rem == old(rem) && res == old(res)
    {
      hide Rounded, ToU32;
      if newRes <= 0 || newRes > NANOSEC {
        return Range;
      }
      ghost var i, d: nat := rem % res, res;
      if rem >= res {
        secs := ToU32(secs + rem / res);
        rem := rem % res;
      } else {
        QuotientUnique(rem, res, 0, rem);
      }
      var interval := rem;
      RoundedBound(rnd, i, newRes, d);
      if interval == 0 {
        RoundedByRemainder(rnd, 0, d, 0, 0);
        res := newRes;
        return Ok;
      }
      var done, result;
      done, err, result := SinglePrecision(interval, newRes, res, rnd);
      if err != Ok {
        return err;
      }
      if !done {
        err, result := DoublePrecision(interval, newRes, res, rnd);
        if err != Ok {
          return err;
        }
      }
      res := newRes;
      rem := result;
      return Ok;
    }

    /** hrt_convert: the whole time in units of its resolution. */
    method Convert() returns (r: int)
      requires LegalRes(res) && 0 <= rem < 0x8000_0000
      ensures r == Converted(secs, rem, res)
    {
      hide ToU32, ToLong;
      WholeProduct(secs, res, rem);
      var product := ToLong(ToU32(secs * res));
      if ToU32(product) / res == secs {
        var sum := ToLong(product + rem);
        WrapCancels(product, rem);
        if ToLong(sum - rem) == product {
          return sum;
        }
      }
      return -1;
    }

    /** hrt_tohz. */
    method ToHz(hz: U32, rnd: Rounding) returns (err: Errno)
      requires LegalRes(res) && 0 <= rem < 0x8000_0000 && LegalRes(hz)
      modifies this
      ensures var s := ToU32(old(secs) + old(rem / res));
              var r := Rounded(rnd, old(rem % res) * hz, old(res));
              && err == (if Converted(s, r, hz) == -1 then Domain else Ok)
              && (err == Ok ==> secs == 0 && rem == Converted(s, r, hz) && res == hz)
    {
      hide Rounded, ToU32, Converted;
      err := NewRes(hz, rnd);
      var result := Convert();
      if result == -1 {
        return Domain;
      }
      secs := 0;
      rem := result;
    }
  }

  /** The fast path of hrt_newres: used whenever the product fits 32 bits, and exact then.
      Neither of its overflow exits can be taken. */
  method SinglePrecision(interval: U32, newRes: U32, res: U32, rnd: Rounding)
    returns (done: bool, err: Errno, result: int)
    requires LegalRes(newRes) && LegalRes(res) && interval < res
    ensures err == Ok && (done <==> interval * newRes < W32)
    ensures done ==> result == Rounded(rnd, interval * newRes, res)
  {
    hide Rounded, ToU32, ToLong;
    var numerator := ToU32(interval * newRes);
    DivideBackTest(interval, newRes);
    if numerator / newRes != interval {
      return false, Ok, 0;
    }
    RoundedBound(rnd, interval, newRes, res);
    done, err, result := RoundQuotient(numerator, res, rnd);
  }

  /** Its division and rounding. */
  method RoundQuotient(numerator: U32, res: U32, rnd: Rounding) returns (done: bool, err: Errno, result: int)
    requires LegalRes(res) && numerator / res < NANOSEC
    ensures done && err == Ok && result == Rounded(rnd, numerator, res)
  {
    hide Rounded, ToU32, ToLong;
    RoundedByRemainder(rnd, numerator, res, numerator / res, numerator % res);
    result := ToLong(numerator / res);
    if rnd == Rnd {
      var modulus := ToU32(numerator - result * res);
      assert modulus == numerator % res;
      var twomodulus := ToU32(2 * modulus);
      if twomodulus / 2 == modulus {
        if twomodulus >= res {
          var temp := ToLong(result + 1);
          if ToLong(temp - 1) == result {
            result := result + 1;
          } else {
            return true, Range, result;
          }
        }
        return true, Ok, result;
      }
      return false, Ok, 0;
    } else if rnd == RndUp {
      if ToU32(result * res) != numerator {
        var temp := ToLong(result + 1);
        if ToLong(temp - 1) == result {
          result := result + 1;
        } else {
          return true, Range, result;
        }
      }
    }
    return true, Ok, result;
  }

  /** The slow path of hrt_newres, on double longs; the quotient always fits a long. */
  method DoublePrecision(interval: U32, newRes: U32, res: U32, rnd: Rounding) returns (err: Errno, result: int)
    requires LegalRes(newRes) && LegalRes(res) && interval < res
    ensures err == Ok && result == Rounded(rnd, interval * newRes, res)
  {
    hide Rounded, Val, Lsign;
    SmallProduct(interval, newRes);
    RoundedBound(rnd, interval, newRes, res);
    OneWord(Dl(interval, 0));
    OneWord(Dl(newRes, 0));
    var prod := Lmul(Dl(interval, 0), Dl(newRes, 0));
    var quot := DivideRounded(prod, interval * newRes, res, rnd);
    OneWord(quot);
    if quot.hop != 0 {
      return Range, 0;
    }
    return Ok, quot.lop;
  }

  method DivideRounded(prod0: Dl, ghost n: nat, res: U32, rnd: Rounding) returns (quot: Dl)
    requires LegalRes(res) && Val(prod0) == n < 0x1000_0000_0000_0000
    ensures Val(quot) == Rounded(rnd, n, res)
  {
    hide Rounded, Val, Magnitude;
    var prod := prod0;
    OneWord(Dl(res, 0));
    OneWord(Dl(res / 2, 0));
    OneWord(Dl(res - 1, 0));
    if rnd == Rnd {
      prod := Ladd(prod, Dl(res / 2, 0));
    } else if rnd == RndUp {
      prod := Ladd(prod, Dl(res - 1, 0));
    }
    Positive(prod);
    AddThenDivide(rnd, n, res);
    quot := Ldivide(prod, Dl(res, 0));
  }

  lemma OneWord(d: Dl)
    ensures d.hop == 0 <==> Val(d) < W32
    ensures d.hop == 0 ==> !Lsign(d)
    ensures d.hop == 0 ==> Val(d) == d.lop && Magnitude(d) == d.lop
  {}

  lemma Positive(d: Dl)
    requires Val(d) < W63
    ensures Magnitude(d) == Val(d)
  {}

  lemma SmallProduct(i: nat, n: nat)
    requires i < NANOSEC && n <= NANOSEC
    ensures i * n < 0x1000_0000_0000_0000
  {
    MulLe(i, NANOSEC, n);
    MulLe(n, NANOSEC, NANOSEC);
  }

  /** What hrt_convert returns: it notices a product of 2^32 or more, but neither a product
      nor a sum that only outgrows the sign. */
  function Converted(secs: U32, rem: int, res: U32): int
  {
    if secs * res < W32 then ToLong(secs * res + rem) else -1
  }

  lemma WholeProduct(secs: U32, res: U32, rem: int)
    requires LegalRes(res)
    ensures secs * res >= 0
    ensures ToU32(ToLong(ToU32(secs * res))) / res == secs <==> secs * res < W32
    ensures secs * res < W32 ==> ToLong(ToLong(ToU32(secs * res)) + rem) == ToLong(secs * res + rem)
  {
    hide ToU32, ToLong;
    MulLe(0, secs, res);
    DivideBackTest(secs, res);
    SameBits(ToU32(secs * res), rem);
  }

  lemma SameBits(x: U32, rem: int)
    ensures ToU32(ToLong(x)) == x && ToLong(ToLong(x) + rem) == ToLong(x + rem)
  {}

  lemma WrapCancels(product: int, rem: int)
    requires -0x8000_0000 <= product < 0x8000_0000
    ensures ToLong(ToLong(product + rem) - rem) == product
  {}

  /** hrt_tohz promises the time in ticks, or EDOM when that is more than a long holds. It
      keeps the promise exactly when the total fits a long, or the seconds alone overflow
      32 bits, or the wrapped total happens to read as -1. */
  lemma ConvertMeetsPromiseIff(secs: U32, rem: nat, res: U32)
    requires LegalRes(res) && rem <= res
    ensures var total := secs * res + rem;
            var r := Converted(secs, rem, res);
            (if total < 0x8000_0000 then r == total else r == -1)
            <==> (total < 0x8000_0000 || secs * res >= W32 || total == W32 - 1)
  {
    MulLe(0, secs, res);
  }

  /** 2^31 ticks at 100 a second are reported as a negative count, not refused. */
  lemma ConvertWrapsExample()
    ensures Converted(21474836, 48, 100) == -0x8000_0000
  {}

  // ------------------------------------------------- real-time quanta (rt.c)

  /** rt_parmsout: a quantum in ticks, as seconds and nanoseconds. */
  method ParmsOut(tqntm: int, hz: U32) returns (err: Errno, secs: U32, nsecs: int)
    requires LegalRes(hz) && -0x8000_0000 <= tqntm < 0x8000_0000
    ensures err == Ok && secs == OutSecs(tqntm, hz) && nsecs == OutNsecs(tqntm, hz)
  {
    secs, nsecs := 0, tqntm;
    if tqntm < 0 {
      return Ok, secs, nsecs;
    }
    var t := new HrTimeT(0, tqntm, hz);
    err := t.NewRes(NANOSEC, Trunc);
    if err != Ok {
      return;
    }
    return Ok, t.secs, t.rem;
  }

  function OutSecs(tqntm: int, hz: U32): U32
    requires LegalRes(hz) && tqntm < 0x8000_0000
  {
    if tqntm < 0 then 0 else ToU32(tqntm / hz)
  }

  function OutNsecs(tqntm: int, hz: U32): int
    requires LegalRes(hz)
  {
    if tqntm < 0 then tqntm else Nanoseconds(tqntm % hz, hz)
  }

  /** `r` ticks of `1 / hz` seconds, in nanoseconds rounded down. */
  function Nanoseconds(r: nat, hz: U32): nat
    requires LegalRes(hz)
  {
    r * NANOSEC / hz
  }

  /** The quantum rt_parmsin stores, when it accepts the parameters. */
  datatype QuantumIn = Accepted(tqntm: int) | Refused(err: Errno)

  function InTicks(secs: U32, nsecs: int, hz: U32): QuantumIn
    requires LegalRes(hz)
  {
    if (secs == 0 && nsecs == 0) || nsecs >= NANOSEC then Refused(Invalid)
    else if nsecs >= 0 then
      var r := Converted(secs, Rounded(RndUp, nsecs * hz, NANOSEC), hz);
      if r == -1 then Refused(Domain) else Accepted(r)
    else if nsecs != R.NOCHANGE && nsecs != R.TQINF && nsecs != R.TQDEF then Refused(Invalid)
    else Accepted(nsecs)
  }

  /** rt_parmsin's treatment of the quantum. */
  method ParmsIn(secs: U32, nsecs: int, hz: U32) returns (r: QuantumIn)
    requires LegalRes(hz) && -0x8000_0000 <= nsecs < 0x8000_0000
    ensures r == InTicks(secs, nsecs, hz)
  {
    if (secs == 0 && nsecs == 0) || nsecs >= NANOSEC {
      return Refused(Invalid);
    }
    if nsecs >= 0 {
      QuotientUnique(nsecs, NANOSEC, 0, nsecs);
      var t := new HrTimeT(secs, nsecs, NANOSEC);
      var err := t.ToHz(hz, RndUp);
      if err != Ok {
        return Refused(err);
      }
      return Accepted(t.rem);
    }
    if nsecs != R.NOCHANGE && nsecs != R.TQINF && nsecs != R.TQDEF {
      return Refused(Invalid);
    }
    return Accepted(nsecs);
  }

  /** The quantum is the least number of ticks that is not shorter than the time asked for. */
  lemma QuantumCovers(secs: U32, nsecs: nat, hz: U32)
    requires LegalRes(hz) && nsecs < NANOSEC && (secs > 0 || nsecs > 0) && secs * hz + hz < 0x8000_0000
    ensures var r := InTicks(secs, nsecs, hz);
            && r.Accepted? && r.tqntm > 0
            && (r.tqntm - 1) * NANOSEC < secs * hz * NANOSEC + nsecs * hz <= r.tqntm * NANOSEC
  {
    hide Rounded;
    var n := nsecs * hz;
    var q, r := n / NANOSEC, n % NANOSEC;
    MulLe(0, secs, hz);
    MulLe(0, nsecs, hz);
    RoundedByRemainder(RndUp, n, NANOSEC, q, r);
    RoundedBound(RndUp, nsecs, hz, NANOSEC);
    if secs > 0 { MulLe(1, secs, hz); }
    if nsecs > 0 { MulLe(1, nsecs, hz); }
  }

  /** The only times refused as invalid: none at all, a billion nanoseconds or more, and negative ones
      without a meaning. */
  lemma QuantumRefusedIff(secs: U32, nsecs: int, hz: U32)
    requires LegalRes(hz)
    ensures InTicks(secs, nsecs, hz) == Refused(Invalid) <==>
              (secs == 0 && nsecs == 0) || nsecs >= NANOSEC || (nsecs < 0 && nsecs !in {R.NOCHANGE, R.TQINF, R.TQDEF})
  {}

  /** Fewer ticks than a second, taken to nanoseconds rounding down, come back rounding up. */
  lemma RoundUpRecovers(r: nat, hz: U32)
    requires LegalRes(hz) && r < hz
    ensures var n := Nanoseconds(r, hz);
            n < NANOSEC && (r > 0 ==> n > 0) && Rounded(RndUp, n * hz, NANOSEC) == r
  {
    hide Rounded;
    var p := r * NANOSEC;
    var n, d := p / hz, p % hz;
    assert p == n * hz + d;
    MulLt(r, hz, NANOSEC);
    if n >= NANOSEC { MulLe(NANOSEC, n, hz); }
    RecoverFrom(r, n * hz, d);
  }

  lemma RecoverFrom(r: nat, m: nat, d: nat)
    requires r * NANOSEC == m + d && d < NANOSEC
    ensures Rounded(RndUp, m, NANOSEC) == r
  {
    hide Rounded;
    if d == 0 {
      RoundedByRemainder(RndUp, m, NANOSEC, r, 0);
    } else {
      RoundedByRemainder(RndUp, m, NANOSEC, r - 1, NANOSEC - d);
    }
  }

  /** Reading a process's quantum and setting it again changes nothing, for every positive
      quantum and every clock rate up to the resolution of a nanosecond. */
  lemma QuantumRoundTrip(q: int, hz: U32)
    requires LegalRes(hz) && 0 < q < 0x8000_0000
    ensures InTicks(OutSecs(q, hz), OutNsecs(q, hz), hz) == Accepted(q)
  {
    hide Rounded, Converted, Nanoseconds;
    var s, r := q / hz, q % hz;
    ConvertExact(s, r, hz, q);
    RoundUpRecovers(r, hz);
  }

  lemma ConvertExact(s: nat, r: nat, hz: U32, q: nat)
    requires LegalRes(hz) && q == s * hz + r && q < 0x8000_0000
    ensures s <= q && Converted(s, r, hz) == q
  {
    MulLe(1, hz, s);
  }

  /** The special quanta pass through unchanged. */
  lemma SpecialRoundTrip(q: int, hz: U32)
    requires LegalRes(hz) && (q == R.NOCHANGE || q == R.TQINF || q == R.TQDEF)
    ensures InTicks(OutSecs(q, hz), OutNsecs(q, hz), hz) == Accepted(q)
  {}
}
