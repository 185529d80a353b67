/** The divider and square root unit: results are computed when they are read, if anything they depend on
    was written since. */
module DivSqrt {
  import opened Machine

  const TWO31: int := 0x8000_0000
  const TWO32: int := 0x1_0000_0000
  const TWO63: int := 0x8000_0000_0000_0000
  const TWO64: int := 0x1_0000_0000_0000_0000

  // ---- signed words ----

  function Signed32(x: U32): (r: int)
    ensures -TWO31 <= r < TWO31 && (r == x || r == x - TWO32)
  {
    if x < TWO31 then x else x - TWO32
  }

  /** The two halves of a 64-bit register. */
  datatype Pair = Pair(lo: U32, hi: U32)

  function Unsigned64(p: Pair): U64 { p.hi * TWO32 + p.lo }

  function Signed64(p: Pair): (r: int)
    ensures -TWO63 <= r < TWO63 && (r == Unsigned64(p) || r == Unsigned64(p) - TWO64)
  {
    Signed32(p.hi) * TWO32 + p.lo
  }

  /** The halves of a 64-bit result. */
  function Halves(x: int): (p: Pair)
    requires -TWO63 <= x < TWO63
    ensures Signed64(p) == x
  {
    var u := if x < 0 then x + TWO64 else x;
    Pair(u % TWO32, u / TWO32)
  }

  // ---- division ----

  function Abs(x: int): nat { if x < 0 then -x else x }

  /** Rust's `/` and `%`, which cut toward zero. */
  function TruncDiv(n: int, d: int): int
    requires d != 0
  {
    var q := Abs(n) / Abs(d);
    if (n < 0) != (d < 0) then -q else q
  }

  function TruncRem(n: int, d: int): int
    requires d != 0
  {
    var r := Abs(n) % Abs(d);
    if n < 0 then -r else r
  }

  datatype Quotient = Quotient(div: int, rem: int)

  datatype Mode = Div32 | Div6432 | Div64

  function Numerator(mode: Mode, numer: Pair): int { if mode.Div32? then Signed32(numer.lo) else Signed64(numer) }

  function Denominator(mode: Mode, denom: Pair): int { if mode.Div64? then Signed64(denom) else Signed32(denom.lo) }

  /** What dividing by zero gives: plus or minus one, in 32-bit mode with the high half inverted. */
  function ByZero(mode: Mode, n: int): Quotient {
    if mode.Div32? then Quotient(if n < 0 then 1 - TWO32 else TWO32 - 1, n) else Quotient(if n < 0 then 1 else -1, n)
  }

  /** The result the registers ask for. */
  function Divide(mode: Mode, numer: Pair, denom: Pair): Quotient {
    var n, d := Numerator(mode, numer), Denominator(mode, denom);
    if d == 0 then ByZero(mode, n)
    else if mode.Div32? then
      if n == -TWO31 && d == -1 then Quotient(TWO31, 0) else Quotient(TruncDiv(n, d), TruncRem(n, d))
    else if n == -TWO63 && d == -1 then Quotient(n, 0)
    else Quotient(TruncDiv(n, d), TruncRem(n, d))
  }

  /** Quotient and remainder of a division that cuts toward zero. */
  predicate Truncates(n: int, d: int, q: int, r: int) {
    n == q * d + r && Abs(r) < Abs(d) && (r == 0 || (r < 0) == (n < 0))
  }

  lemma SignedProduct(a: int, b: int)
    ensures (-a) * b == -(a * b) && a * (-b) == -(a * b) && (-a) * (-b) == a * b
  {
  }

  lemma SignCases(n: int, d: int, k: int, r: int)
    requires d != 0 && k >= 0 && r >= 0 && Abs(n) == k * Abs(d) + r && r < Abs(d)
    ensures Truncates(n, d, if (n < 0) != (d < 0) then -k else k, if n < 0 then -r else r)
  {
    SignedProduct(k, Abs(d));
    if d < 0 {
      assert Abs(d) == -d;
    } else {
      assert Abs(d) == d;
    }
  }

  lemma Euclid(a: nat, b: nat) returns (k: int, r: int)
    requires b > 0
    ensures k == a / b && r == a % b && 0 <= k && 0 <= r < b && a == k * b + r
  {
    k, r := a / b, a % b;
  }

  lemma TruncIsTruncation(n: int, d: int)
    requires d != 0
    ensures Truncates(n, d, TruncDiv(n, d), TruncRem(n, d))
  {
    var k, r := Euclid(Abs(n), Abs(d));
    SignCases(n, d, k, r);
  }

  lemma QuotientBound(a: nat, b: nat)
    requires b > 0
    ensures a / b <= a && (b >= 2 && a > 0 ==> a / b < a)
  {
    var k := a / b;
    assert a == b * k + a % b;
    assert b * k == k + (b - 1) * k;
    if b >= 2 {
      assert (b - 1) * k == k + (b - 2) * k;
    }
  }

  lemma TruncBound(n: int, d: int, bound: int)
    requires d != 0 && -bound <= n < bound && !(n == -bound && d == -1)
    ensures -bound <= TruncDiv(n, d) < bound && -bound <= TruncRem(n, d) < bound
  {
    QuotientBound(Abs(n), Abs(d));
    RemainderBound(Abs(n), Abs(d));
  }

  lemma RemainderBound(a: nat, b: nat)
    requires b > 0
    ensures a % b <= a && (a > 0 && b == 1 ==> a % b < a) && (a < b || a % b < a)
  {
    var k := a / b;
    assert a == b * k + a % b;
    if k > 0 {
      assert b * k == b + b * (k - 1);
    }
  }

  /** Every result fits the signed 64-bit register it is kept in. */
  lemma ResultFits(mode: Mode, numer: Pair, denom: Pair)
    ensures var r := Divide(mode, numer, denom); -TWO63 <= r.div < TWO63 && -TWO63 <= r.rem < TWO63
  {
    var n, d := Numerator(mode, numer), Denominator(mode, denom);
    if d == 0 {
    } else if mode.Div32? {
      if !(n == -TWO31 && d == -1) {
        TruncBound(n, d, TWO31);
      }
    } else if !(n == -TWO63 && d == -1) {
      TruncBound(n, d, TWO63);
    }
  }

  /** With a denominator the result is quotient and remainder cut toward zero, also for the smallest 32-bit
      number over -1, whose quotient 0x8000_0000 fits the wider result. Only the smallest 64-bit number over
      -1 goes around, by 2^64. */
  lemma DivisionLaw(mode: Mode, numer: Pair, denom: Pair)
    requires Denominator(mode, denom) != 0
    ensures var n, d, r := Numerator(mode, numer), Denominator(mode, denom), Divide(mode, numer, denom);
      if n == -TWO63 && d == -1 then r.div * d + r.rem == n + TWO64 && r.rem == 0
      else Truncates(n, d, r.div, r.rem)
  {
    TruncIsTruncation(Numerator(mode, numer), Denominator(mode, denom));
  }

  lemma ProductOfPositives(k: nat, d: nat)
    requires k > 0
    ensures k * d >= d
  {
    assert k * d == d + (k - 1) * d;
  }

  lemma ProductAtLeast(k: int, d: int)
    requires k != 0
    ensures Abs(k * d) >= Abs(d)
  {
    ProductOfPositives(Abs(k), Abs(d));
    if k < 0 && d < 0 {
      assert k * d == Abs(k) * Abs(d);
    } else if k < 0 {
      assert k * d == -(Abs(k) * d);
    } else if d < 0 {
      assert k * d == -(k * Abs(d));
    } else {
      assert k * d == Abs(k) * Abs(d);
    }
  }

  /** No other pair is a quotient and remainder cut toward zero. */
  lemma TruncationIsUnique(n: int, d: int, q: int, r: int, q': int, r': int)
    requires d != 0 && Truncates(n, d, q, r) && Truncates(n, d, q', r')
    ensures q == q' && r == r'
  {
    assert (q - q') * d == q * d - q' * d == r' - r;
    if q != q' {
      ProductAtLeast(q - q', d);
    }
  }

  /** What the divide registers ask for, by the two mode bits of the control: 32 by 32 bits, 64 by 32, 64 by 64.
      Quotient and remainder cut toward zero; over zero plus or minus one, in 32-bit mode with the high half
      inverted, and the numerator as remainder; the one quotient that does not fit goes around. */
  predicate Asked(cnt: bv16, numer: Pair, denom: Pair, q: int, r: int) {
    var n := if cnt & 0x3 == 0 then Signed32(numer.lo) else Signed64(numer);
    var d := if cnt & 0x3 == 2 then Signed64(denom) else Signed32(denom.lo);
    if d == 0 then
      r == n && q == if cnt & 0x3 == 0 then (if n < 0 then -0xFFFF_FFFF else 0xFFFF_FFFF) else if n < 0 then 1 else -1
    else if n == -TWO63 && d == -1 then q == -TWO63 && r == 0
    else n == q * d + r && Abs(r) < Abs(d) && (r == 0 || (r < 0) == (n < 0))
  }

  lemma DivideIsAsked(cnt: bv16, numer: Pair, denom: Pair)
    requires ModeOf(cnt).Some?
    ensures var x := Divide(ModeOf(cnt).value, numer, denom); Asked(cnt, numer, denom, x.div, x.rem)
  {
    var mode := ModeOf(cnt).value;
    if Denominator(mode, denom) != 0 {
      DivisionLaw(mode, numer, denom);
      if Numerator(mode, numer) == -TWO63 && Denominator(mode, denom) == -1 {
        SmallestOverOne(mode, numer, denom);
      }
    }
  }

  lemma SmallestOverOne(mode: Mode, numer: Pair, denom: Pair)
    requires Numerator(mode, numer) == -TWO63 && Denominator(mode, denom) == -1
    ensures Divide(mode, numer, denom) == Quotient(-TWO63, 0)
  {
  }

  /** They ask for one result only. */
  lemma AskedIsUnique(cnt: bv16, numer: Pair, denom: Pair, q: int, r: int, q': int, r': int)
    requires Asked(cnt, numer, denom, q, r) && Asked(cnt, numer, denom, q', r')
    ensures q == q' && r == r'
  {
    var n := if cnt & 0x3 == 0 then Signed32(numer.lo) else Signed64(numer);
    var d := if cnt & 0x3 == 2 then Signed64(denom) else Signed32(denom.lo);
    if d != 0 && !(n == -TWO63 && d == -1) {
      TruncationIsUnique(n, d, q, r, q', r');
    }
  }

  // ---- square root ----

  /** The integer square root, digit by digit in base four. */
  function Isqrt(n: nat): nat { if n == 0 then 0 else NextDigit(n, Isqrt(n / 4)) }

  /** The root of `n` from that of `n / 4`. */
  function NextDigit(n: nat, h: nat): nat { if (2 * h + 1) * (2 * h + 1) <= n then 2 * h + 1 else 2 * h }

  predicate IsRoot(n: nat, r: nat) { r * r <= n < (r + 1) * (r + 1) }

  lemma DoubleRoot(n: nat, q: nat, h: nat)
    requires n / 4 == q && IsRoot(q, h)
    ensures (2 * h) * (2 * h) <= n < (2 * h + 2) * (2 * h + 2)
  {
    assert 4 * q <= n < 4 * q + 4;
    assert (2 * h) * (2 * h) == 4 * (h * h);
    assert (2 * h + 2) * (2 * h + 2) == 4 * ((h + 1) * (h + 1));
  }

  /** The square root is the largest number whose square does not exceed the parameter. */
  lemma PickRoot(n: nat, q: nat, h: nat)
    requires n / 4 == q && IsRoot(q, h)
    ensures IsRoot(n, NextDigit(n, h))
  {
    DoubleRoot(n, q, h);
  }

  lemma {:induction false} IsqrtIsRoot(n: nat)
    ensures IsRoot(n, Isqrt(n))
  {
    if n > 0 {
      IsqrtIsRoot(n / 4);
      PickRoot(n, n / 4, Isqrt(n / 4));
    }
  }

  lemma SquaresGrow(a: nat, b: nat)
    requires a <= b
    ensures a * a <= b * b
  {
    assert b * b == a * a + (b - a) * (a + b);
  }

  lemma RootIsUnique(n: nat, r: nat, s: nat)
    requires IsRoot(n, r) && IsRoot(n, s)
    ensures r == s
  {
    if r < s {
      SquaresGrow(r + 1, s);
    } else if s < r {
      SquaresGrow(s + 1, r);
    }
  }

  lemma RootFits(n: U64)
    ensures Isqrt(n) < TWO32
  {
    IsqrtIsRoot(n);
    if Isqrt(n) >= TWO32 {
      SquaresGrow(TWO32, Isqrt(n));
    }
  }

  // ---- the unit ----

  /** A masked write to one half of a register. */
  function Merge(x: U32, mask: U32, value: U32): U32 {
    ((x as bv32 & !(mask as bv32)) | (value as bv32 & mask as bv32)) as U32
  }

  predicate OneBit(b: bv32) { b != 0 && b & (b - 1) == 0 }

  /** Each bit of the merged word, all words as their bits, is taken from the value if the mask has it, and stays
      otherwise. */
  lemma MergeTakesBits(x: U32, mask: U32, value: U32, before: bv32, m: bv32, v: bv32, after: bv32, b: bv32)
    requires OneBit(b) && before == x as bv32 && m == mask as bv32 && v == value as bv32
    requires after == Merge(x, mask, value) as bv32
    ensures (after & b != 0) == if m & b != 0 then v & b != 0 else before & b != 0
  {
    MergedWord(x, mask, value);
    MergedBit(before, m, v, b);
  }

  lemma MergedWord(x: U32, mask: U32, value: U32)
    ensures Merge(x, mask, value) as bv32 == (x as bv32 & !(mask as bv32)) | (value as bv32 & mask as bv32)
  {
  }

  lemma MergedBit(x: bv32, mask: bv32, value: bv32, b: bv32)
    requires OneBit(b)
    ensures (((x & !mask) | (value & mask)) & b != 0) == if mask & b != 0 then value & b != 0 else x & b != 0
  {
    assert mask & b == 0 || mask & b == b;
  }

  function ModeOf(cnt: bv16): Option<Mode> {
    if cnt & 0x3 == 0 then Some(Div32)
    else if cnt & 0x3 == 1 then Some(Div6432)
    else if cnt & 0x3 == 2 then Some(Div64)
    else None
  }

  /** The control bit that says the denominator is zero. */
  predicate ZeroFlag(cnt: bv16) { cnt & 0x4000 != 0 }

  function WithZeroFlag(cnt: bv16, on: bool): (r: bv16)
    ensures ZeroFlag(r) == on && ModeOf(r) == ModeOf(cnt)
    ensures (r & 0x4000 != 0) == on && r & 0xBFFF == cnt & 0xBFFF
  {
    if on then cnt | 0x4000 else cnt & !0x4000
  }

  /** A masked write to the mode bits; no other bit can be written. */
  function MergeMode(cnt: bv16, mask: bv16, value: bv16): (r: bv16)
    ensures r & !0x3 == cnt & !0x3
    ensures (r & 0x1 != 0) == (if mask & 0x1 != 0 then value & 0x1 != 0 else cnt & 0x1 != 0)
    ensures (r & 0x2 != 0) == (if mask & 0x2 != 0 then value & 0x2 != 0 else cnt & 0x2 != 0)
    ensures ZeroFlag(r) == ZeroFlag(cnt)
  {
    (cnt & !(mask & 0x3)) | (value & (mask & 0x3))
  }

  const ZERO := Pair(0, 0)

  /** The result the square root registers ask for: of the low half or of all of the parameter. */
  function Root(cnt: bv16, param: Pair): (r: U32) {
    RootFits(param.lo);
    RootFits(Unsigned64(param));
    if cnt & 0x1 == 0 then Isqrt(param.lo) else Isqrt(Unsigned64(param))
  }

  lemma RootIsRoot(cnt: bv16, param: Pair)
    ensures var r, n := Root(cnt, param), if cnt & 0x1 == 0 then param.lo else param.hi * 0x1_0000_0000 + param.lo;
      r * r <= n < (r + 1) * (r + 1)
  {
    IsqrtIsRoot(param.lo);
    IsqrtIsRoot(Unsigned64(param));
  }

  /** One half of a result, whatever its sign. */
  function Low(x: int): U32 { x % 0x1_0000_0000 }

  function High(x: int): U32 { x / 0x1_0000_0000 % 0x1_0000_0000 }

  lemma HalvesAreLowAndHigh(x: int)
    requires -TWO63 <= x < TWO63
    ensures Halves(x) == Pair(Low(x), High(x))
  {
  }

  lemma ResultIsAsked(cnt: bv16, numer: Pair, denom: Pair)
    requires ModeOf(cnt).Some?
    ensures var x := Divide(ModeOf(cnt).value, numer, denom);
      && -TWO63 <= x.div < TWO63 && -TWO63 <= x.rem < TWO63
      && (forall q, r :: Asked(cnt, numer, denom, q, r) <==> q == x.div && r == x.rem)
      && Halves(x.div) == Pair(Low(x.div), High(x.div)) && Halves(x.rem) == Pair(Low(x.rem), High(x.rem))
  {
    var x := Divide(ModeOf(cnt).value, numer, denom);
    ResultFits(ModeOf(cnt).value, numer, denom);
    HalvesAreLowAndHigh(x.div);
    HalvesAreLowAndHigh(x.rem);
    DivideIsAsked(cnt, numer, denom);
    forall q, r | Asked(cnt, numer, denom, q, r)
      ensures q == x.div && r == x.rem
    {
      AskedIsUnique(cnt, numer, denom, q, r, x.div, x.rem);
    }
  }

  /** `r` is the low or high half of the quotient or remainder that the registers ask for. */
  ghost predicate Gives(cnt: bv16, numer: Pair, denom: Pair, remainder: bool, high: bool, r: U32) {
    && (exists q, rem :: Asked(cnt, numer, denom, q, rem))
    && (forall q, rem :: Asked(cnt, numer, denom, q, rem) ==>
          var x := if remainder then rem else q; r == if high then High(x) else Low(x))
  }

  lemma DivideGives(cnt: bv16, numer: Pair, denom: Pair)
    requires ModeOf(cnt).Some?
    ensures var x := Divide(ModeOf(cnt).value, numer, denom);
      && -TWO63 <= x.div < TWO63 && -TWO63 <= x.rem < TWO63
      && Gives(cnt, numer, denom, false, false, Halves(x.div).lo)
      && Gives(cnt, numer, denom, false, true, Halves(x.div).hi)
      && Gives(cnt, numer, denom, true, false, Halves(x.rem).lo)
      && Gives(cnt, numer, denom, true, true, Halves(x.rem).hi)
  {
    ResultIsAsked(cnt, numer, denom);
    var x := Divide(ModeOf(cnt).value, numer, denom);
    assert Asked(cnt, numer, denom, x.div, x.rem);
  }

  class DivSqrt {
    var numer: Pair
    var denom: Pair
    var param: Pair
    var divCnt: bv16
    var sqrtCnt: bv16
    var sqrtResult: U32
    var sqrtDirty: bool
    var divResult: int
    var divRem: int
    var divDirty: bool
    /** What the zero flag goes back to: whether the denominator was zero when a result was last read or, if a
        context was set since, the flag in that context. */
    ghost var flaggedZero: bool

    /** Results that are not dirty are the ones the registers ask for, and so is the zero flag. */
    ghost predicate Valid()
      reads this
    {
      && -TWO63 <= divResult < TWO63 && -TWO63 <= divRem < TWO63
      && (!divDirty ==>
            FlagCurrent() && ModeOf(divCnt).Some?
            && Quotient(divResult, divRem) == Divide(ModeOf(divCnt).value, numer, denom))
      && (!sqrtDirty ==> sqrtResult == Root(sqrtCnt, param))
      && ZeroFlag(divCnt) == flaggedZero
    }

    predicate FlagCurrent()
      reads this
    {
      ZeroFlag(divCnt) == (denom == ZERO)
    }

    constructor ()
      ensures Valid() && numer == denom == param == ZERO && divCnt == sqrtCnt == 0
      ensures divDirty && sqrtDirty && !flaggedZero
    {
      flaggedZero := false;
      numer, denom, param, divCnt, sqrtCnt := ZERO, ZERO, ZERO, 0, 0;
      sqrtResult, sqrtDirty, divResult, divRem, divDirty := 0, true, 0, 0, true;
    }

    /** `div`. Mode 3 is undefined behaviour there. */
    method Div()
      requires Valid() && ModeOf(divCnt).Some?
      modifies this`divCnt, this`divResult, this`divRem, this`divDirty, this`flaggedZero
      ensures Valid() && !divDirty && flaggedZero == (denom == ZERO) && ModeOf(divCnt) == ModeOf(old(divCnt))
    {
      flaggedZero := denom == ZERO;
      if !divDirty {
        return;
      }
      divDirty := false;
      var mode := ModeOf(divCnt).value;
      divCnt := WithZeroFlag(divCnt, denom == ZERO);
      divResult, divRem := Evaluate(mode);
    }

    /** The three modes, in the order of the code. */
    method Evaluate(mode: Mode) returns (q: int, r: int)
      ensures Quotient(q, r) == Divide(mode, numer, denom) && -TWO63 <= q < TWO63 && -TWO63 <= r < TWO63
    {
      ResultFits(mode, numer, denom);
      match mode
      case Div32 =>
        var n, d := Signed32(numer.lo), Signed32(denom.lo);
        if n == -TWO31 && d == -1 {
          q, r := TWO31, 0;
        } else if d != 0 {
          q, r := TruncDiv(n, d), TruncRem(n, d);
        } else {
          q, r := if n < 0 then 1 - TWO32 else TWO32 - 1, n;
        }
      case Div6432 =>
        q, r := EvaluateWide(Signed64(numer), Signed32(denom.lo));
      case Div64 =>
        q, r := EvaluateWide(Signed64(numer), Signed64(denom));
    }

    static method EvaluateWide(n: int, d: int) returns (q: int, r: int)
      ensures Quotient(q, r) == (if d == 0 then ByZero(Div64, n)
                                 else if n == -TWO63 && d == -1 then Quotient(n, 0)
                                 else Quotient(TruncDiv(n, d), TruncRem(n, d)))
    {
      if n == -TWO63 && d == -1 {
        q, r := n, 0;
      } else if d != 0 {
        q, r := TruncDiv(n, d), TruncRem(n, d);
      } else {
        q, r := if n < 0 then 1 else -1, n;
      }
    }

    method Sqrt()
      requires Valid()
      modifies this`sqrtResult, this`sqrtDirty
      ensures Valid() && !sqrtDirty
    {
      if !sqrtDirty {
        return;
      }
      sqrtDirty := false;
      sqrtResult := Root(sqrtCnt, param);
    }

    // Reading a result gives what the registers ask for at that moment, whatever was computed before.

    method GetDivResultL() returns (r: U32)
      requires Valid() && ModeOf(divCnt).Some?
      modifies this`divCnt, this`divResult, this`divRem, this`divDirty, this`flaggedZero
      ensures Valid() && flaggedZero == (denom == ZERO) && ModeOf(divCnt) == ModeOf(old(divCnt))
      ensures -TWO63 <= Divide(ModeOf(divCnt).value, numer, denom).div < TWO63
      ensures r == Halves(Divide(ModeOf(divCnt).value, numer, denom).div).lo
      ensures Gives(divCnt, numer, denom, false, false, r)
    {
      Div();
      DivideGives(divCnt, numer, denom);
      r := Halves(divResult).lo;
    }

    method GetDivResultH() returns (r: U32)
      requires Valid() && ModeOf(divCnt).Some?
      modifies this`divCnt, this`divResult, this`divRem, this`divDirty, this`flaggedZero
      ensures Valid() && flaggedZero == (denom == ZERO) && ModeOf(divCnt) == ModeOf(old(divCnt))
      ensures -TWO63 <= Divide(ModeOf(divCnt).value, numer, denom).div < TWO63
      ensures r == Halves(Divide(ModeOf(divCnt).value, numer, denom).div).hi
      ensures Gives(divCnt, numer, denom, false, true, r)
    {
      Div();
      DivideGives(divCnt, numer, denom);
      r := Halves(divResult).hi;
    }

    method GetDivRemResultL() returns (r: U32)
      requires Valid() && ModeOf(divCnt).Some?
      modifies this`divCnt, this`divResult, this`divRem, this`divDirty, this`flaggedZero
      ensures Valid() && flaggedZero == (denom == ZERO) && ModeOf(divCnt) == ModeOf(old(divCnt))
      ensures -TWO63 <= Divide(ModeOf(divCnt).value, numer, denom).rem < TWO63
      ensures r == Halves(Divide(ModeOf(divCnt).value, numer, denom).rem).lo
      ensures Gives(divCnt, numer, denom, true, false, r)
    {
      Div();
      DivideGives(divCnt, numer, denom);
      r := Halves(divRem).lo;
    }

    method GetDivRemResultH() returns (r: U32)
      requires Valid() && ModeOf(divCnt).Some?
      modifies this`divCnt, this`divResult, this`divRem, this`divDirty, this`flaggedZero
      ensures Valid() && flaggedZero == (denom == ZERO) && ModeOf(divCnt) == ModeOf(old(divCnt))
      ensures -TWO63 <= Divide(ModeOf(divCnt).value, numer, denom).rem < TWO63
      ensures r == Halves(Divide(ModeOf(divCnt).value, numer, denom).rem).hi
      ensures Gives(divCnt, numer, denom, true, true, r)
    {
      Div();
      DivideGives(divCnt, numer, denom);
      r := Halves(divRem).hi;
    }

    method GetSqrtResult() returns (r: U32)
      requires Valid()
      modifies this`sqrtResult, this`sqrtDirty
      ensures Valid() && r == Root(sqrtCnt, param)
      ensures var n := if sqrtCnt & 0x1 == 0 then param.lo else param.hi * 0x1_0000_0000 + param.lo;
        r * r <= n < (r + 1) * (r + 1)
    {
      Sqrt();
      r := sqrtResult;
      RootIsRoot(sqrtCnt, param);
    }

    /** Reading the control register computes nothing: its zero flag is of the last result read, or of the
        context set since, so it is right about the denominator exactly when that was alike, zero or not. */
    method GetDivCnt() returns (cnt: bv16)
      requires Valid()
      ensures cnt == divCnt
      ensures ZeroFlag(cnt) == (denom == ZERO) <==> flaggedZero == (denom == ZERO)
    {
      cnt := divCnt;
    }

    // Writes change the register they name and leave results those of the registers.

    method SetDivCnt(mask: bv16, value: bv16)
      requires Valid()
      modifies this`divCnt, this`divDirty
      ensures Valid() && divCnt == MergeMode(old(divCnt), mask, value)
    {
      divCnt := MergeMode(divCnt, mask, value);
      divDirty := true;
    }

    method SetDivNumerL(mask: U32, value: U32)
      requires Valid()
      modifies this`numer, this`divDirty
      ensures Valid() && numer == Pair(Merge(old(numer).lo, mask, value), old(numer).hi)
    {
      numer := numer.(lo := Merge(numer.lo, mask, value));
      divDirty := true;
    }

    method SetDivNumerH(mask: U32, value: U32)
      requires Valid()
      modifies this`numer, this`divDirty
      ensures Valid() && numer == Pair(old(numer).lo, Merge(old(numer).hi, mask, value))
    {
      numer := numer.(hi := Merge(numer.hi, mask, value));
      divDirty := true;
    }

    method SetDivDenomL(mask: U32, value: U32)
      requires Valid()
      modifies this`denom, this`divDirty
      ensures Valid() && denom == Pair(Merge(old(denom).lo, mask, value), old(denom).hi)
    {
      denom := denom.(lo := Merge(denom.lo, mask, value));
      divDirty := true;
    }

    method SetDivDenomH(mask: U32, value: U32)
      requires Valid()
      modifies this`denom, this`divDirty
      ensures Valid() && denom == Pair(old(denom).lo, Merge(old(denom).hi, mask, value))
    {
      denom := denom.(hi := Merge(denom.hi, mask, value));
      divDirty := true;
    }

    method SetSqrtCnt(mask: bv16, value: bv16)
      requires Valid()
      modifies this`sqrtCnt, this`sqrtDirty
      ensures Valid() && sqrtCnt == (old(sqrtCnt) & !(mask & 0x1)) | (value & (mask & 0x1))
    {
      sqrtCnt := (sqrtCnt & !(mask & 0x1)) | (value & (mask & 0x1));
      sqrtDirty := true;
    }

    method SetSqrtParamL(mask: U32, value: U32)
      requires Valid()
      modifies this`param, this`sqrtDirty
      ensures Valid() && param == Pair(Merge(old(param).lo, mask, value), old(param).hi)
    {
      param := param.(lo := Merge(param.lo, mask, value));
      sqrtDirty := true;
    }

    method SetSqrtParamH(mask: U32, value: U32)
      requires Valid()
      modifies this`param, this`sqrtDirty
      ensures Valid() && param == Pair(old(param).lo, Merge(old(param).hi, mask, value))
    {
      param := param.(hi := Merge(param.hi, mask, value));
      sqrtDirty := true;
    }

    method SetContext(numer': Pair, denom': Pair, param': Pair, divCnt': bv16, sqrtCnt': bv16)
      requires Valid()
      modifies this
      ensures Valid() && numer == numer' && denom == denom' && param == param'
      ensures divCnt == divCnt' && sqrtCnt == sqrtCnt'
      ensures flaggedZero == ZeroFlag(divCnt') && divDirty && sqrtDirty
    {
      numer, denom, param, divCnt, sqrtCnt := numer', denom', param', divCnt', sqrtCnt';
      divDirty, sqrtDirty := true, true;
      flaggedZero := ZeroFlag(divCnt');
    }
  }

  /** The control register is read without computing anything, so its zero flag can be out of date: it says
      the denominator is not zero when it is, until a result is read. Here the unit is fresh. */
  method ZeroFlagLags() returns (before: bool, after: bool)
    ensures !before && after
  {
    var unit := new DivSqrt();
    var cnt := unit.GetDivCnt();
    before := ZeroFlag(cnt);
    var _ := unit.GetDivResultL();
    cnt := unit.GetDivCnt();
    after := ZeroFlag(cnt);
  }
}
