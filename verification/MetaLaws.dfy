/** Laws of the arithmetic that constant folding and resolving share. */
module MetaLaws {
  import opened BitFields
  import opened MetaExpr
  import opened Options

  // ---- ints ----

  /** Sums, differences and products. */
  lemma IntSums(a: int, b: int)
    ensures IntOp('+', a, 0) == Some(a) && IntOp('+', a, b) == IntOp('+', b, a)
    ensures IntOp('+', a, b).Some? && IntOp('-', IntOp('+', a, b).value, b) == Some(a)
    ensures IntOp('+', a, b + 1) == Some(IntOp('+', a, b).value + 1)
    ensures IntOp('*', a, 0) == Some(0)
    ensures IntOp('*', a, b).Some? && IntOp('*', a, b + 1) == IntOp('+', IntOp('*', a, b).value, a)
  {
    assert a * (b + 1) == a * b + a;
  }

  /** Division and remainder: defined but for zero; they recombine, the remainder is smaller
      than the divisor and has the sign of the dividend. */
  lemma IntDivision(a: int, b: int)
    ensures IntOp('/', a, b).Some? <==> b != 0
    ensures IntOp('%', a, b).Some? <==> b != 0
    ensures b != 0 ==>
      var q, r := IntOp('/', a, b).value, IntOp('%', a, b).value;
      && a == b * q + r
      && (if b > 0 then -b < r < b else b < r < -b) && (a >= 0 ==> r >= 0) && (a <= 0 ==> r <= 0)
  {
    if b != 0 {
      TruncatedDivision(a, b);
    }
  }

  lemma TruncatedDivision(a: int, b: int)
    requires b != 0
    ensures a == b * Quotient(a, b) + Remainder(a, b)
    ensures if b > 0 then -b < Remainder(a, b) < b else b < Remainder(a, b) < -b
    ensures (a >= 0 ==> Remainder(a, b) >= 0) && (a <= 0 ==> Remainder(a, b) <= 0)
  {
    TruncatedCases(a, b, Abs(a) / Abs(b), Abs(a) % Abs(b));
  }

  lemma TruncatedCases(a: int, b: int, q: int, r: int)
    requires b != 0 && Abs(a) == Abs(b) * q + r && 0 <= r < Abs(b)
    ensures a - b * (if (a >= 0) == (b >= 0) then q else -q) == if a >= 0 then r else -r
  {
    assert b * (0 - q) == 0 - b * q;
    assert b < 0 ==> Abs(b) == 0 - b && (0 - b) * q == 0 - b * q;
  }

  /** Shifts are defined from 0 to 63 places; shifting right rounds down. */
  lemma IntShifts(a: int, b: int)
    ensures IntOp('<', a, b).Some? <==> 0 <= b < 64
    ensures IntOp('>', a, b).Some? <==> 0 <= b < 64
    ensures 0 <= b < 64 ==>
      var d, u := Pow2(b), IntOp('>', a, b).value;
      IntOp('<', a, b).value == a * d && u * d <= a < u * d + d
  {
    if 0 <= b < 64 {
      var d := Pow2(b);
      assert a == d * (a / d) + a % d;
    }
  }

  // ---- bits ----

  /** The bit of x at position k. */
  function BitOf(x: int, k: nat): (b: nat)
    ensures b <= 1
    decreases k
  {
    if k == 0 then x % 2 else BitOf(x / 2, k - 1)
  }

  /** It is the parity of x shifted down. */
  lemma {:induction false} BitIsParity(x: int, k: nat)
    ensures BitOf(x, k) == x / Pow2(k) % 2
    decreases k
  {
    if k > 0 {
      BitIsParity(x / 2, k - 1);
      DivideTwice(x, Pow2(k - 1));
    }
  }

  lemma {:induction false} LowBit(x: int, n: nat, k: nat)
    requires k < n
    ensures BitOf(Low(x, n), k) == BitOf(x, k)
    decreases n
  {
    if k > 0 {
      LowBit(x / 2, n - 1, k - 1);
    }
  }

  lemma {:induction false} AndBit(x: int, y: int, n: nat, k: nat)
    requires k < n
    ensures BitOf(AndBits(x, y, n), k) == BitOf(x, k) * BitOf(y, k)
    decreases n
  {
    Halves(x % 2, y % 2, AndBits(x / 2, y / 2, n - 1));
    if k > 0 {
      AndBit(x / 2, y / 2, n - 1, k - 1);
    }
  }

  lemma Halves(a: int, b: int, rest: nat)
    requires 0 <= a <= 1 && 0 <= b <= 1
    ensures (a * b + 2 * rest) % 2 == a * b && (a * b + 2 * rest) / 2 == rest
  {
    assert a * b == if a == 1 then b else 0;
  }

  /** Taking a multiple of the word size away does not change the bits of the word. */
  lemma {:induction false} WordBit(x: int, n: nat, k: nat)
    requires k < n
    ensures BitOf(x - Pow2(n), k) == BitOf(x, k)
    decreases k
  {
    assert Pow2(n) == 2 * Pow2(n - 1);
    if k > 0 {
      assert (x - Pow2(n)) / 2 == x / 2 - Pow2(n - 1);
      WordBit(x / 2, n - 1, k - 1);
    }
  }

  lemma BitAndBit(x: int, y: int, k: nat)
    requires k < 64
    ensures BitOf(BitAnd(x, y), k) == BitOf(x, k) * BitOf(y, k)
  {
    hide AndBits, BitOf, Pow2;
    AndBit(x, y, WORD, k);
    WordBit(AndBits(x, y, WORD), WORD, k);
  }

  lemma {:induction false} ComplementBit(x: int, k: nat)
    ensures BitOf(Complement(x), k) == 1 - BitOf(x, k)
    decreases k
  {
    if k > 0 {
      assert Complement(x) / 2 == Complement(x / 2);
      ComplementBit(x / 2, k - 1);
    }
  }

  lemma BitOrBit(x: int, y: int, k: nat)
    requires k < 64
    ensures BitOf(BitOr(x, y), k) == if BitOf(x, k) == 1 || BitOf(y, k) == 1 then 1 else 0
  {
    ComplementBit(x, k);
    ComplementBit(y, k);
    BitAndBit(Complement(x), Complement(y), k);
    ComplementBit(BitAnd(Complement(x), Complement(y)), k);
  }

  /** Taking away bits that are there leaves the others. */
  lemma {:induction false} WithoutBits(x: int, y: int, k: nat)
    requires forall j | 0 <= j <= k :: BitOf(y, j) <= BitOf(x, j)
    ensures BitOf(x - y, k) == BitOf(x, k) - BitOf(y, k)
    decreases k
  {
    assert BitOf(y, 0) <= BitOf(x, 0);
    if k > 0 {
      forall j | 0 <= j <= k - 1
        ensures BitOf(y / 2, j) <= BitOf(x / 2, j)
      {
        assert BitOf(y, j + 1) <= BitOf(x, j + 1);
      }
      assert (x - y) / 2 == x / 2 - y / 2;
      WithoutBits(x / 2, y / 2, k - 1);
    }
  }

  /** The bitwise operators, bit by bit. */
  lemma IntBits(a: int, b: int, k: nat)
    requires k < 64
    ensures var x, y := BitOf(a, k) == 1, BitOf(b, k) == 1;
      && IntOp('&', a, b).Some? && (BitOf(IntOp('&', a, b).value, k) == 1 <==> x && y)
      && IntOp('|', a, b).Some? && (BitOf(IntOp('|', a, b).value, k) == 1 <==> x || y)
      && IntOp('^', a, b).Some? && (BitOf(IntOp('^', a, b).value, k) == 1 <==> x != y)
      && (PrefixMeaning("~", IntV(a)).Some? && PrefixMeaning("~", IntV(a)).value.IntV?)
      && (BitOf(PrefixMeaning("~", IntV(a)).value.i, k) == 1 <==> !x)
  {
    hide BitOf, BitAnd, BitOr;
    forall j | 0 <= j <= k
      ensures BitOf(BitAnd(a, b), j) == BitOf(a, j) * BitOf(b, j)
      ensures BitOf(BitAnd(a, b), j) <= BitOf(BitOr(a, b), j)
    {
      BitAndBit(a, b, j);
      BitOrBit(a, b, j);
      OneOrNone(BitOf(a, j), BitOf(b, j));
    }
    BitOrBit(a, b, k);
    OneOrNone(BitOf(a, k), BitOf(b, k));
    WithoutBits(BitOr(a, b), BitAnd(a, b), k);
    ComplementBit(a, k);
  }

  lemma OneOrNone(a: nat, b: nat)
    requires a <= 1 && b <= 1
    ensures a * b == if a == 1 && b == 1 then 1 else 0
  {
  }

  // ---- reals ----

  /** Sums, differences, products and quotients. */
  lemma RealLaws(a: real, b: real)
    ensures RealOp('+', a, 0.0) == Some(a) && RealOp('+', a, b) == RealOp('+', b, a)
    ensures RealOp('+', a, b).Some? && RealOp('-', RealOp('+', a, b).value, b) == Some(a)
    ensures RealOp('+', a, b + 1.0) == Some(RealOp('+', a, b).value + 1.0)
    ensures RealOp('*', a, 1.0).Some? && RealOp('*', a, 1.0).value == a && RealOp('*', a, b).Some?
    ensures RealOp('*', a, b + 1.0) == RealOp('+', RealOp('*', a, b).value, a)
    ensures RealOp('/', a, b).Some? <==> b != 0.0
    ensures b != 0.0 ==> var q := RealOp('*', RealOp('/', a, b).value, b); q.Some? && q.value == a
  {
    assert a * 1.0 == a && a * (b + 1.0) == a * b + a;
    if b != 0.0 {
      assert a / b * b == a;
    }
  }

  function Multiple(b: real, n: int): real {
    b * (n as real)
  }

  /** The remainder of a real is what is left of it after a whole number of divisors, smaller
      than the divisor and with the sign of the dividend. */
  lemma RealRemainder(a: real, b: real)
    ensures RealOp('%', a, b).Some? <==> b != 0.0
    ensures b != 0.0 ==>
      var r := RealOp('%', a, b).value;
      && (exists n :: r == a - Multiple(b, n))
      && (if b > 0.0 then -b < r < b else b < r < -b)
      && (a >= 0.0 ==> r >= 0.0) && (a <= 0.0 ==> r <= 0.0)
  {
    if b != 0.0 {
      RemainderOf(a, b, a / b);
      var q := a / b;
      var n: int := if q >= 0.0 then q.Floor else -((-q).Floor);
      assert Truncate(q) == n as real;
      assert RealOp('%', a, b).value == a - Multiple(b, n);
    }
  }

  lemma RemainderOf(a: real, b: real, q: real)
    requires b != 0.0 && a == b * q
    ensures var r := a - b * Truncate(q);
      && (if b > 0.0 then -b < r < b else b < r < -b)
      && (a >= 0.0 ==> r >= 0.0) && (a <= 0.0 ==> r <= 0.0)
  {
    var f := q - Truncate(q);
    var r := a - b * Truncate(q);
    assert r == b * f;
    assert -1.0 < f < 1.0 && (q >= 0.0 ==> f >= 0.0) && (q <= 0.0 ==> f <= 0.0);
    Scaled(b, f);
    SignOf(b, q, a);
    SignOf(b, f, r);
  }

  lemma Scaled(b: real, f: real)
    requires b != 0.0 && -1.0 < f < 1.0
    ensures if b > 0.0 then -b < b * f < b else b < b * f < -b
  {
    if b > 0.0 {
      assert b * (1.0 - f) > 0.0 && b * (1.0 + f) > 0.0;
    } else {
      assert b * (1.0 - f) < 0.0 && b * (1.0 + f) < 0.0;
    }
  }

  lemma SignOf(b: real, q: real, p: real)
    requires b != 0.0 && p == b * q
    ensures b > 0.0 ==> (p >= 0.0 <==> q >= 0.0) && (p <= 0.0 <==> q <= 0.0)
    ensures b < 0.0 ==> (p >= 0.0 <==> q <= 0.0) && (p <= 0.0 <==> q >= 0.0)
  {
    if q > 0.0 {
      assert if b > 0.0 then b * q > 0.0 else b * q < 0.0;
    } else if q < 0.0 {
      assert if b > 0.0 then b * q < 0.0 else b * q > 0.0;
    }
  }

  // ---- comparisons ----

  /** Of less, equal and greater exactly one holds, and the others follow; what is ahead by
      something positive is greater. */
  lemma IntOrder(a: int, b: int, d: nat)
    ensures IntCompare("==", a, a) && IntCompare("<", a, a + 1 + d) && IntCompare(">", a + 1 + d, a)
    ensures IntCompare("<", a, b) ==> !IntCompare("==", a, b) && !IntCompare(">", a, b)
    ensures IntCompare("==", a, b) ==> !IntCompare(">", a, b)
    ensures IntCompare("<", a, b) || IntCompare("==", a, b) || IntCompare(">", a, b)
    ensures IntCompare("<=", a, b) <==> IntCompare("<", a, b) || IntCompare("==", a, b)
    ensures IntCompare(">=", a, b) <==> IntCompare(">", a, b) || IntCompare("==", a, b)
    ensures IntCompare("!=", a, b) <==> !IntCompare("==", a, b)
  {
  }

  lemma RealOrder(a: real, b: real, d: real)
    requires d > 0.0
    ensures RealCompare("==", a, a) && RealCompare("<", a, a + d) && RealCompare(">", a + d, a)
    ensures RealCompare("<", a, b) ==> !RealCompare("==", a, b) && !RealCompare(">", a, b)
    ensures RealCompare("==", a, b) ==> !RealCompare(">", a, b)
    ensures RealCompare("<", a, b) || RealCompare("==", a, b) || RealCompare(">", a, b)
    ensures RealCompare("<=", a, b) <==> RealCompare("<", a, b) || RealCompare("==", a, b)
    ensures RealCompare(">=", a, b) <==> RealCompare(">", a, b) || RealCompare("==", a, b)
    ensures RealCompare("!=", a, b) <==> !RealCompare("==", a, b)
  {
  }

  /** The logical operators, by their tables; and the negations. */
  lemma Tables(a: bool, b: bool)
    ensures BoolOp("&&", true, true) && !BoolOp("&&", false, a) && !BoolOp("&&", a, false)
    ensures !BoolOp("||", false, false) && BoolOp("||", true, a) && BoolOp("||", a, true)
    ensures BoolOp("==", a, a) && !BoolOp("==", a, !a) && BoolOp("!=", a, !a) && !BoolOp("!=", a, a)
    ensures PrefixMeaning("~", BoolV(true)) == Some(BoolV(false)) && PrefixMeaning("~", BoolV(false)) == Some(BoolV(true))
    ensures PrefixMeaning("!", IntV(0)) == Some(IntV(1)) && (forall i | i != 0 :: PrefixMeaning("!", IntV(i)) == Some(IntV(0)))
  {
  }

  /** Negation: what it gives is what adds up to zero. */
  lemma Negation(i: int, r: real)
    ensures PrefixMeaning("-", IntV(i)).Some? && PrefixMeaning("-", IntV(i)).value.IntV?
    ensures IntOp('+', i, PrefixMeaning("-", IntV(i)).value.i) == Some(0)
    ensures PrefixMeaning("-", RealV(r)).Some? && PrefixMeaning("-", RealV(r)).value.RealV?
    ensures RealOp('+', r, PrefixMeaning("-", RealV(r)).value.r) == Some(0.0)
  {
  }

  /** The smallest positive number is two to the power of -126. */
  lemma SmallestNumber()
    ensures Smallest() * 85070591730234615865843651857942052864.0 == 1.0
  {
    hide Pow2;
    SmallPowers();
    PowerSum(8, 8);
    PowerSum(16, 16);
    PowerSum(32, 32);
    PowerSum(63, 1);
    PowerSum(63, 63);
  }

  lemma SmallPowers()
    ensures Pow2(1) == 2 && Pow2(8) == 256
  {
    assert Pow2(4) == 16;
  }

  lemma {:induction false} PowerSum(a: nat, b: nat)
    ensures Pow2(a + b) == Pow2(a) * Pow2(b)
    decreases b
  {
    if b > 0 {
      PowerSum(a, b - 1);
      assert Pow2(a) * (2 * Pow2(b - 1)) == 2 * (Pow2(a) * Pow2(b - 1));
    }
  }
}
