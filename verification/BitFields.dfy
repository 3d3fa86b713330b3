/** Bit and bit-field extraction from 64-bit two's-complement integers. */
module BitFields {
  import opened Options

  const WORD: nat := 64

  function Pow2(n: nat): (p: nat)
    ensures p >= 1
  {
    if n == 0 then 1 else 2 * Pow2(n - 1)
  }

  type Int64 = v: int | -0x8000_0000_0000_0000 <= v < 0x8000_0000_0000_0000

  /** Arithmetic right shift: one place at a time, rounding down. */
  function ShiftRight(v: int, p: nat): int
    decreases p
  {
    if p == 0 then v else ShiftRight(v / 2, p - 1)
  }

  /** The low n bits of x & y, as an unsigned number. */
  function AndBits(x: int, y: int, n: nat): nat
    decreases n
  {
    if n == 0 then 0 else (x % 2) * (y % 2) + 2 * AndBits(x / 2, y / 2, n - 1)
  }

  /** x & y as a signed number. */
  function BitAnd(x: int, y: int): int {
    var u := AndBits(x, y, WORD);
    if u >= Pow2(WORD - 1) then u - Pow2(WORD) else u
  }

  /** 1 is a 32-bit int, and so is the mask; beyond 30 places the shift or the subtraction
      overflows and nothing is defined. */
  function Mask(p: int): Option<int> {
    if 0 <= p <= 30 then Some(Pow2(p) - 1) else None
  }

  /** v >> p; undefined for a negative position, or one beyond the width. */
  function Shifted(v: int, p: int): Option<int> {
    if 0 <= p < WORD then Some(ShiftRight(v, p)) else None
  }

  /** (v >> p) & 1. */
  function ExtractBit(v: Int64, p: Int64): Option<bool> {
    match Shifted(v, p)
    case None => None
    case Some(x) => Some(BitAnd(x, 1) != 0)
  }

  /** (v & ((1 << p2) - 1)) >> p1, where p1 <= p2. */
  function ExtractBits(v: Int64, p1: Int64, p2: Int64): Option<int>
    requires p1 <= p2
  {
    match Mask(p2)
    case None => None
    case Some(m) => Shifted(BitAnd(v, m), p1)
  }

  // ---- meaning ----

  /** The n low bits of v. */
  function Low(v: int, n: nat): (r: nat)
    ensures r < Pow2(n)
    decreases n
  {
    if n == 0 then 0 else v % 2 + 2 * Low(v / 2, n - 1)
  }

  lemma {:induction false} ShiftIsDivision(v: int, p: nat)
    ensures ShiftRight(v, p) == v / Pow2(p)
    decreases p
  {
    if p > 0 {
      ShiftIsDivision(v / 2, p - 1);
      DivideTwice(v, Pow2(p - 1));
    }
  }

  lemma DivideTwice(v: int, m: nat)
    requires m >= 1
    ensures v / 2 / m == v / (2 * m)
  {
    var q, r := v / 2 / m, v / 2 % m;
    assert v / 2 == m * q + r;
    Regroup(m, q);
    QuotientUnique(v, 2 * m, q, 2 * r + v % 2);
  }

  lemma QuotientUnique(v: int, d: nat, q: int, r: int)
    requires d > 0 && 0 <= r < d && v == d * q + r
    ensures v / d == q && v % d == r
  {
    var e := v / d;
    assert v == d * e + v % d;
    if e > q {
      Scale(d, q + 1, e);
    } else if e < q {
      Scale(d, e + 1, q);
    }
  }

  lemma Scale(d: nat, a: int, b: int)
    requires a <= b
    ensures d * a <= d * b
  {
  }

  lemma DoubleRemainder(v: int, m: nat)
    requires m >= 1
    ensures v % (2 * m) == v % 2 + 2 * (v / 2 % m)
  {
    var q, r := v / 2 / m, v / 2 % m;
    assert v / 2 == m * q + r;
    Regroup(m, q);
    QuotientUnique(v, 2 * m, q, 2 * r + v % 2);
  }

  lemma Regroup(m: int, q: int)
    ensures 2 * (m * q) == (2 * m) * q
  {
  }

  lemma {:induction false} LowIsRemainder(v: int, n: nat)
    ensures Low(v, n) == v % Pow2(n)
    decreases n
  {
    if n > 0 {
      LowIsRemainder(v / 2, n - 1);
      DoubleRemainder(v, Pow2(n - 1));
    }
  }

  lemma {:induction false} MaskKeepsLow(v: int, b: nat, n: nat)
    requires b <= n
    ensures AndBits(v, Pow2(b) - 1, n) == Low(v, b)
    decreases n
  {
    if n == 0 {
    } else if b == 0 {
      MaskKeepsLow(v / 2, 0, n - 1);
    } else {
      MaskKeepsLow(v / 2, b - 1, n - 1);
      assert (Pow2(b) - 1) % 2 == 1 && (Pow2(b) - 1) / 2 == Pow2(b - 1) - 1;
      assert (v % 2) * 1 == v % 2;
    }
  }

  lemma {:induction false} Pow2Monotone(a: nat, b: nat)
    requires a <= b
    ensures Pow2(a) <= Pow2(b)
  {
    if a < b {
      Pow2Monotone(a, b - 1);
    }
  }

  lemma AndMask(v: int, b: nat)
    requires b < WORD
    ensures BitAnd(v, Pow2(b) - 1) == Low(v, b)
  {
    MaskKeepsLow(v, b, WORD);
    Pow2Monotone(b, WORD - 1);
  }

  lemma {:induction false} ShiftLow(v: int, a: nat, b: nat)
    requires a <= b
    ensures ShiftRight(Low(v, b), a) == Low(ShiftRight(v, a), b - a)
    decreases a
  {
    if a > 0 {
      ShiftLow(v / 2, a - 1, b - 1);
    }
  }

  /** Defined exactly from bit 0 up to bit 30, and then it is the field [a, b) of v: v shifted
      down by a (rounding down), modulo two to the width. */
  lemma ExtractBitsMeaning(v: Int64, a: Int64, b: Int64)
    requires a <= b
    ensures ExtractBits(v, a, b).Some? <==> 0 <= a && b <= 30
    ensures 0 <= a && b <= 30 ==> ExtractBits(v, a, b).value == v / Pow2(a) % Pow2(b - a)
  {
    if 0 <= a && b <= 30 {
      AndMask(v, b);
      ShiftLow(v, a, b);
      ShiftIsDivision(v, a);
      LowIsRemainder(v / Pow2(a), b - a);
    }
  }

  lemma ExtractBitMeaning(v: Int64, p: Int64)
    ensures ExtractBit(v, p).Some? <==> 0 <= p < WORD
    ensures 0 <= p < WORD ==> (ExtractBit(v, p).value <==> v / Pow2(p) % 2 == 1)
  {
    if 0 <= p < WORD {
      ShiftIsDivision(v, p);
      AndMask(v / Pow2(p), 1);
      assert Pow2(1) == 2;
      assert Low(v / Pow2(p), 1) == v / Pow2(p) % 2 + 2 * Low(v / Pow2(p) / 2, 0);
    }
  }

  lemma {:induction false} LowSplit(v: int, m: nat, n: nat)
    ensures Low(v, m + n) == Low(v, m) + Pow2(m) * Low(ShiftRight(v, m), n)
    decreases m
  {
    if m > 0 {
      LowSplit(v / 2, m - 1, n);
      Regroup(Pow2(m - 1), Low(ShiftRight(v, m), n));
    }
  }

  lemma {:induction false} ShiftTwice(v: int, a: nat, b: nat)
    ensures ShiftRight(ShiftRight(v, a), b) == ShiftRight(v, a + b)
    decreases a
  {
    if a > 0 {
      ShiftTwice(v / 2, a - 1, b);
    }
  }

  lemma ExtractBitsIsLow(v: Int64, a: nat, b: nat)
    requires a <= b <= 30
    ensures ExtractBits(v, a, b) == Some(Low(ShiftRight(v, a), b - a))
  {
    AndMask(v, b);
    ShiftLow(v, a, b);
  }

  /** Adjacent fields recombine. */
  lemma FieldsRecombine(v: Int64, a: nat, b: nat, c: nat)
    requires a <= b <= c <= 30
    ensures ExtractBits(v, a, b).value + Pow2(b - a) * ExtractBits(v, b, c).value == ExtractBits(v, a, c).value
  {
    hide ExtractBits, Low, ShiftRight, Pow2;
    ExtractBitsIsLow(v, a, b);
    ExtractBitsIsLow(v, b, c);
    ExtractBitsIsLow(v, a, c);
    ShiftTwice(v, a, b - a);
    LowSplit(ShiftRight(v, a), b - a, c - b);
  }

  /** The bits of [a, b), each with its weight in the field. */
  function WeightedSum(v: Int64, a: nat, b: nat): nat
    requires a <= b <= WORD
    decreases b
  {
    if a == b then 0
    else WeightedSum(v, a, b - 1) + if ExtractBit(v, b - 1) == Some(true) then Pow2(b - 1 - a) else 0
  }

  lemma OneBitField(v: Int64, p: nat)
    requires p < 30
    ensures ExtractBits(v, p, p + 1) == Some(if ExtractBit(v, p) == Some(true) then 1 else 0)
  {
    ExtractBitMeaning(v, p);
    ExtractBitsMeaning(v, p, p + 1);
    assert Pow2(1) == 2;
  }

  /** A field is the weighted sum of its bits. */
  lemma {:induction false} FieldIsWeightedSum(v: Int64, a: nat, b: nat)
    requires a <= b <= 30
    ensures ExtractBits(v, a, b) == Some(WeightedSum(v, a, b) as int)
    decreases b
  {
    hide ExtractBits, ExtractBit, ShiftRight, Pow2;
    ExtractBitsIsLow(v, a, b);
    if a < b {
      FieldIsWeightedSum(v, a, b - 1);
      FieldsRecombine(v, a, b - 1, b);
      OneBitField(v, b - 1);
      ExtractBitsIsLow(v, a, b - 1);
    }
  }
}
