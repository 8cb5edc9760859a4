// Single-precision arithmetic as `ByteArray::addTotalSize` uses it
// (util/serializer.cpp:739): `ceil(size * 1.0f / m_node_size)`.
//
// A positive float is kept as a fraction. `Nearest` rounds a positive fraction to
// the closest number with a 24-bit significand, ties to even (IEEE 754, section
// 4.3.1). The exponent range is left out: the quotients of two 64-bit sizes stay
// far away from overflow and from the subnormal numbers.
module Float32 {
  import opened Arith

  const SIGNIFICAND_MAX := 0x100_0000 // 2^24
  const SIGNIFICAND_MIN := 0x80_0000 // 2^23

  datatype Fraction = Fraction(num: nat, den: nat)

  function RoundHalfEven(num: nat, den: nat): (q: nat)
    requires den > 0
  {
    var low, rest := num / den, num % den;
    if 2 * rest < den || (2 * rest == den && low % 2 == 0) then low else low + 1
  }

  // The float nearest to num / den.
  function Nearest(num: nat, den: nat): (f: Fraction)
    requires num > 0 && den > 0
    ensures f.num > 0 && f.den > 0
    decreases if num >= SIGNIFICAND_MAX * den then num - den
              else if num < SIGNIFICAND_MIN * den then SIGNIFICAND_MIN * den - num
              else 0
  {
    if num >= SIGNIFICAND_MAX * den then
      var half := Nearest(num, 2 * den);
      Fraction(2 * half.num, half.den)
    else if num < SIGNIFICAND_MIN * den then
      var twice := Nearest(2 * num, den);
      Fraction(twice.num, 2 * twice.den)
    else
      RoundHalfEvenAtLeast(num, den, SIGNIFICAND_MIN);
      Fraction(RoundHalfEven(num, den), 1)
  }

  lemma Quotient(num: nat, den: nat)
    requires den > 0
    ensures num == (num / den) * den + num % den && num % den < den
  {
  }

  lemma RoundHalfEvenAtLeast(num: nat, den: nat, bound: nat)
    requires den > 0 && bound * den <= num
    ensures bound <= RoundHalfEven(num, den)
  {
    Quotient(num, den);
    MulMonotone(num / den, bound, den);
  }

  lemma RoundHalfEvenAtMost(num: nat, den: nat, bound: nat)
    requires den > 0 && num <= bound * den
    ensures RoundHalfEven(num, den) <= bound
  {
    Quotient(num, den);
    MulMonotone(bound, num / den, den);
  }

  lemma RoundHalfEvenError(num: nat, den: nat)
    requires den > 0
    ensures 2 * (RoundHalfEven(num, den) * den - num) <= den
    ensures 2 * (num - RoundHalfEven(num, den) * den) <= den
  {
    Quotient(num, den);
    assert (num / den + 1) * den == (num / den) * den + den;
  }

  // n / d has a relative error of less than 2^-24 of num / den.
  ghost predicate Close(n: nat, d: nat, num: nat, den: nat) {
    var rounded, exact := n * den, num * d;
    && (rounded - exact) * SIGNIFICAND_MAX < exact
    && (exact - rounded) * SIGNIFICAND_MAX < exact
  }

  // The error is half of den at most, and num is at least 2^23 times den; both bounds are
  // not met at once, because a whole number has no error.
  lemma RoundHalfEvenClose(num: nat, den: nat)
    requires den > 0 && SIGNIFICAND_MIN * den <= num
    ensures Close(RoundHalfEven(num, den), 1, num, den)
  {
    var q := RoundHalfEven(num, den);
    RoundHalfEvenError(num, den);
    if num == SIGNIFICAND_MIN * den {
      RoundHalfEvenAtMost(num, den, SIGNIFICAND_MIN);
      RoundHalfEvenAtLeast(num, den, SIGNIFICAND_MIN);
    }
  }

  lemma {:induction false} NearestError(num: nat, den: nat)
    requires num > 0 && den > 0
    ensures Close(Nearest(num, den).num, Nearest(num, den).den, num, den)
    decreases if num >= SIGNIFICAND_MAX * den then num - den
              else if num < SIGNIFICAND_MIN * den then SIGNIFICAND_MIN * den - num
              else 0
  {
    if num >= SIGNIFICAND_MAX * den {
      NearestError(num, 2 * den);
      Double(Nearest(num, 2 * den).num, den);
    } else if num < SIGNIFICAND_MIN * den {
      NearestError(2 * num, den);
      Double(num, Nearest(2 * num, den).den);
    } else {
      RoundHalfEvenClose(num, den);
    }
  }

  // Rounding never crosses an integer of at most 2^24, from either side.
  lemma {:induction false} NearestAtMost(num: nat, den: nat, bound: nat)
    requires num > 0 && den > 0
    requires bound <= SIGNIFICAND_MAX && num <= bound * den
    ensures Nearest(num, den).num <= bound * Nearest(num, den).den
    decreases if num >= SIGNIFICAND_MAX * den then num - den
              else if num < SIGNIFICAND_MIN * den then SIGNIFICAND_MIN * den - num
              else 0
  {
    if num >= SIGNIFICAND_MAX * den {
      MulMonotone(bound, SIGNIFICAND_MAX, den);
      assert SIGNIFICAND_MIN * (2 * den) == SIGNIFICAND_MAX * den;
      NearestAtMost(num, 2 * den, SIGNIFICAND_MIN);
    } else if num < SIGNIFICAND_MIN * den {
      var doubled := if 2 * bound <= SIGNIFICAND_MAX then 2 * bound else SIGNIFICAND_MAX;
      Double(bound, den);
      NearestAtMost(2 * num, den, doubled);
      var twice := Nearest(2 * num, den);
      MulMonotone(doubled, 2 * bound, twice.den);
      Double(bound, twice.den);
    } else {
      RoundHalfEvenAtMost(num, den, bound);
    }
  }

  lemma {:induction false} NearestAtLeast(num: nat, den: nat, bound: nat)
    requires num > 0 && den > 0
    requires bound <= SIGNIFICAND_MAX && bound * den <= num
    ensures bound * Nearest(num, den).den <= Nearest(num, den).num
    decreases if num >= SIGNIFICAND_MAX * den then num - den
              else if num < SIGNIFICAND_MIN * den then SIGNIFICAND_MIN * den - num
              else 0
  {
    if num >= SIGNIFICAND_MAX * den {
      assert SIGNIFICAND_MIN * (2 * den) == SIGNIFICAND_MAX * den;
      NearestAtLeast(num, 2 * den, SIGNIFICAND_MIN);
      MulMonotone(bound, SIGNIFICAND_MAX, Nearest(num, 2 * den).den);
    } else if num < SIGNIFICAND_MIN * den {
      MulMonotone(SIGNIFICAND_MIN, bound, den);
      Double(bound, den);
      NearestAtLeast(2 * num, den, 2 * bound);
      Double(bound, Nearest(2 * num, den).den);
    } else {
      RoundHalfEvenAtLeast(num, den, bound);
    }
  }

  // `ceil(size * 1.0f / nodeSize)`: both operands become floats, then the quotient does.
  function CeilOfFloatQuotient(size: nat, nodeSize: nat): (c: nat)
    requires size > 0 && nodeSize > 0
    ensures c > 0
  {
    var s, n := Nearest(size, 1), Nearest(nodeSize, 1);
    var q := Nearest(s.num * n.den, s.den * n.num);
    CeilDiv(q.num, q.den)
  }

  lemma SmallIntegerIsExact(n: nat)
    requires 0 < n <= SIGNIFICAND_MAX
    ensures Nearest(n, 1).num == n * Nearest(n, 1).den
  {
    NearestAtMost(n, 1, n);
    NearestAtLeast(n, 1, n);
  }

  // If a quotient strictly exceeds an integer by at least 1/den and its numerator is
  // 2^24 at most (both up to a common factor), then its float exceeds the integer too.
  lemma FloatStaysAbove(num: nat, den: nat, below: nat, factor: nat)
    requires num > 0 && den > 0 && factor > 0
    requires below * den + factor <= num <= SIGNIFICAND_MAX * factor
    ensures below * Nearest(num, den).den < Nearest(num, den).num
  {
    NearestError(num, den);
    var n, d := Nearest(num, den).num, Nearest(num, den).den;
    StaysAbove(n, d, num, den, below, factor);
  }

  lemma StaysAbove(n: nat, d: nat, num: nat, den: nat, below: nat, factor: nat)
    requires d > 0 && den > 0 && factor > 0 && Close(n, d, num, den)
    requires below * den + factor <= num <= SIGNIFICAND_MAX * factor
    ensures below * d < n
  {
    // Scaled by den, the float is at least num * d * (1 - 2^-24),
    // and the integer is at most (num - factor) * d.
    MulMonotone(below * den, num - factor, d);
    Swap(below, den, d);
    Subtract(num, factor, d);
    MulMonotone(num, SIGNIFICAND_MAX * factor, d);
    Swap(SIGNIFICAND_MAX, factor, d);
    assert (below * d) * den < n * den;
    MulMonotone(n, below * d, den);
  }

  lemma Swap(a: int, b: int, c: int)
    ensures (a * b) * c == (a * c) * b == a * (b * c)
  {
  }

  lemma Subtract(a: int, b: int, c: int)
    ensures (a - b) * c == a * c - b * c
  {
  }

  lemma CeilOfScaled(size: nat, nodeSize: nat, factor: nat)
    requires 0 < size <= SIGNIFICAND_MAX && nodeSize > 0 && factor > 0
    requires size * factor > 0 && nodeSize * factor > 0
    ensures var q := Nearest(size * factor, nodeSize * factor);
            CeilDiv(q.num, q.den) == CeilDiv(size, nodeSize)
  {
    var num, den, c := size * factor, nodeSize * factor, CeilDiv(size, nodeSize);
    CeilDivBounds(size, nodeSize);
    ScaleBounds(size, nodeSize, c, factor);
    NearestAtMost(num, den, c);
    FloatStaysAbove(num, den, c - 1, factor);
    var q := Nearest(num, den);
    Subtract(c, 1, q.den);
    CeilDivUnique(q.num, q.den, c);
  }

  lemma CeilOfFraction(num: nat, den: nat)
    requires 0 < num <= den
    ensures var q := Nearest(num, den); CeilDiv(q.num, q.den) == 1
  {
    NearestAtMost(num, den, 1);
    var q := Nearest(num, den);
    CeilDivUnique(q.num, q.den, 1);
  }

  // The quotient of two exactly represented sizes, over their denominators.
  lemma ExactOperands(size: nat, nodeSize: nat, sd: nat, nd: nat)
    requires sd > 0 && nd > 0
    ensures (size * sd) * nd == size * (sd * nd)
    ensures sd * (nodeSize * nd) == nodeSize * (sd * nd)
    ensures sd * nd > 0
  {
    Swap(size, sd, nd);
    Swap(nodeSize, nd, sd);
    MulMonotone(0, sd, nd);
  }

  lemma LargeNode(size: nat, sd: nat, nn: nat, nd: nat)
    requires 0 < size <= SIGNIFICAND_MAX && sd > 0 && nd > 0
    requires SIGNIFICAND_MAX * nd <= nn
    ensures 0 < (size * sd) * nd <= sd * nn
  {
    ExactOperands(size, 1, sd, nd);
    MulMonotone(SIGNIFICAND_MAX * nd, nn, sd);
    Swap(SIGNIFICAND_MAX, nd, sd);
    MulMonotone(size, SIGNIFICAND_MAX, sd * nd);
    MulMonotone(0, size, sd * nd);
  }

  // The float ceiling is the exact ceiling for every size up to 2^24.
  lemma CeilOfFloatQuotientExact(size: nat, nodeSize: nat)
    requires 0 < size <= SIGNIFICAND_MAX && nodeSize > 0
    ensures CeilOfFloatQuotient(size, nodeSize) == CeilDiv(size, nodeSize)
  {
    var s, n := Nearest(size, 1), Nearest(nodeSize, 1);
    SmallIntegerIsExact(size);
    if nodeSize < SIGNIFICAND_MAX {
      SmallIntegerIsExact(nodeSize);
      ExactOperands(size, nodeSize, s.den, n.den);
      MulMonotone(0, size, s.den * n.den);
      MulMonotone(0, nodeSize, s.den * n.den);
      CeilOfScaled(size, nodeSize, s.den * n.den);
    } else {
      NearestAtLeast(nodeSize, 1, SIGNIFICAND_MAX);
      LargeNode(size, s.den, n.num, n.den);
      CeilOfFraction(s.num * n.den, s.den * n.num);
      CeilDivUnique(size, nodeSize, 1);
    }
  }

  lemma ScaleBounds(size: nat, nodeSize: nat, c: nat, factor: nat)
    requires nodeSize > 0 && factor > 0 && 0 < size <= SIGNIFICAND_MAX
    requires size <= c * nodeSize < size + nodeSize
    ensures 0 < c <= SIGNIFICAND_MAX
    ensures size * factor <= c * (nodeSize * factor)
    ensures (c - 1) * (nodeSize * factor) + factor <= size * factor <= SIGNIFICAND_MAX * factor
  {
    assert c > 0;
    assert c * nodeSize == (c - 1) * nodeSize + nodeSize;
    MulMonotone(size, c * nodeSize, factor);
    assert (c * nodeSize) * factor == c * (nodeSize * factor);
    MulMonotone((c - 1) * nodeSize, size, factor);
    assert ((c - 1) * nodeSize) * factor == (c - 1) * (nodeSize * factor);
    MulMonotone(size, SIGNIFICAND_MAX, factor);
    MulMonotone(1, nodeSize, c - 1);
  }

  // The bound is tight: one byte past 2^24 the default 4096-byte node is under-counted.
  lemma CeilOfFloatQuotientTooSmall()
    ensures CeilOfFloatQuotient(SIGNIFICAND_MAX + 1, 4096) == 4096
    ensures CeilDiv(SIGNIFICAND_MAX + 1, 4096) == 4097
  {
    var size := SIGNIFICAND_MAX + 1;
    assert RoundHalfEven(size, 2) == SIGNIFICAND_MIN;
    assert Nearest(size, 2) == Fraction(SIGNIFICAND_MIN, 1);
    var s, n := Nearest(size, 1), Nearest(4096, 1);
    assert s == Fraction(SIGNIFICAND_MAX, 1);
    SmallIntegerIsExact(4096);
    var num, den := s.num * n.den, s.den * n.num;
    assert num == 4096 * den;
    NearestAtMost(num, den, 4096);
    NearestAtLeast(num, den, 4096);
    var q := Nearest(num, den);
    CeilDivUnique(q.num, q.den, 4096);
    CeilDivUnique(size, 4096, 4097);
  }

  // ----- For which bounds on the size it is exact -----

  // 2^24 is the last size below which nothing can go wrong, whatever the node size is.
  lemma ExactBound(bound: nat)
    ensures (forall size: nat, nodeSize: nat :: 0 < size < bound && nodeSize > 0 ==>
               CeilOfFloatQuotient(size, nodeSize) == CeilDiv(size, nodeSize))
            <==> bound <= SIGNIFICAND_MAX + 1
  {
    if bound <= SIGNIFICAND_MAX + 1 {
      forall size: nat, nodeSize: nat | 0 < size < bound && nodeSize > 0
        ensures CeilOfFloatQuotient(size, nodeSize) == CeilDiv(size, nodeSize)
      {
        CeilOfFloatQuotientExact(size, nodeSize);
      }
    } else {
      CeilOfFloatQuotientTooSmall();
    }
  }

  // ----- Nodes whose size is a power of two -----

  // The same number.
  predicate Same(a: Fraction, b: Fraction) {
    a.num * b.den == b.num * a.den
  }

  function Twice(f: Fraction): Fraction {
    Fraction(2 * f.num, f.den)
  }

  function Half(f: Fraction): Fraction {
    Fraction(f.num, 2 * f.den)
  }

  lemma SameTrans(a: Fraction, b: Fraction, c: Fraction)
    requires b.den > 0 && Same(a, b) && Same(b, c)
    ensures Same(a, c)
  {
    Swap(a.num, b.den, c.den);
    Swap(b.num, a.den, c.den);
    Swap(c.num, b.den, a.den);
    Cancel(a.num * c.den, c.num * a.den, b.den);
  }

  lemma Cancel(a: int, b: int, k: nat)
    requires k > 0 && a * k == b * k
    ensures a == b
  {
    MulMonotone(a, b, k);
    MulMonotone(b, a, k);
  }

  lemma RoundCommon(num: nat, den: nat, c: nat)
    requires den > 0 && c > 0 && c * den > 0
    ensures RoundHalfEven(c * num, c * den) == RoundHalfEven(num, den)
  {
    var q, r := num / den, num % den;
    Quotient(num, den);
    MulMonotone(r, den, c);
    Swap(q, den, c);
    assert c * num == q * (c * den) + c * r by {
      assert c * num == (q * den) * c + r * c;
    }
    QuotientUnique(c * num, c * den, q, c * r);
    Scaled(2 * r, den, c);
    Double(c, r);
  }

  lemma QuotientUnique(num: nat, den: nat, q: nat, r: nat)
    requires den > 0 && num == q * den + r && r < den
    ensures num / den == q && num % den == r
  {
    Quotient(num, den);
    MulMonotone(q, num / den, den);
    MulMonotone(num / den, q, den);
  }

  // Comparing does not depend on a common factor.
  lemma Scaled(a: int, b: int, c: nat)
    requires c > 0
    ensures (a < b <==> a * c < b * c) && (a == b <==> a * c == b * c)
  {
    MulMonotone(a, b, c);
    MulMonotone(b, a, c);
  }

  lemma {:induction false} NearestCommon(num: nat, den: nat, c: nat)
    requires num > 0 && den > 0 && c > 0 && c * num > 0 && c * den > 0
    ensures Nearest(c * num, c * den) == Nearest(num, den)
    decreases if num >= SIGNIFICAND_MAX * den then num - den
              else if num < SIGNIFICAND_MIN * den then SIGNIFICAND_MIN * den - num
              else 0
  {
    Scaled(num, SIGNIFICAND_MAX * den, c);
    Scaled(num, SIGNIFICAND_MIN * den, c);
    Swap(SIGNIFICAND_MAX, den, c);
    Swap(SIGNIFICAND_MIN, den, c);
    Double(c, den);
    Double(c, num);
    if num >= SIGNIFICAND_MAX * den {
      NearestCommon(num, 2 * den, c);
    } else if num < SIGNIFICAND_MIN * den {
      NearestCommon(2 * num, den, c);
    } else {
      RoundCommon(num, den, c);
    }
  }

  // Halving is exact.
  lemma NearestHalf(num: nat, den: nat)
    requires num > 0 && den > 0
    ensures Same(Nearest(num, 2 * den), Half(Nearest(num, den)))
  {
    if num < SIGNIFICAND_MAX * den {
      NearestCommon(num, den, 2);
    } else {
      var h := Nearest(num, 2 * den);
      Double(h.num, h.den);
    }
  }

  lemma NearestTwice(num: nat, den: nat)
    requires num > 0 && den > 0
    ensures Same(Nearest(2 * num, den), Twice(Nearest(num, den)))
  {
    NearestHalf(2 * num, den);
    NearestCommon(num, den, 2);
    var a, b := Nearest(num, den), Nearest(2 * num, den);
    Double(a.num, b.den);
  }

  // Half and double of the same number are the same.
  lemma SameHalf(a: Fraction, b: Fraction)
    requires Same(a, b)
    ensures Same(Half(a), Half(b)) && Same(Twice(a), Twice(b))
  {
    Double(a.num, b.den);
    Double(b.num, a.den);
  }

  lemma WholeIsExact(num: nat, den: nat, n: nat)
    requires 0 < n <= SIGNIFICAND_MAX && den > 0 && num == n * den && num > 0
    ensures Same(Nearest(num, den), Fraction(n, 1))
  {
    NearestAtMost(num, den, n);
    NearestAtLeast(num, den, n);
  }

  // Rounding a float changes nothing.
  lemma {:induction false} NearestAgain(num: nat, den: nat)
    requires num > 0 && den > 0
    ensures var f := Nearest(num, den); Same(Nearest(f.num, f.den), f)
    decreases if num >= SIGNIFICAND_MAX * den then num - den
              else if num < SIGNIFICAND_MIN * den then SIGNIFICAND_MIN * den - num
              else 0
  {
    if num >= SIGNIFICAND_MAX * den {
      NearestAgain(num, 2 * den);
      var h := Nearest(num, 2 * den);
      NearestTwice(h.num, h.den);
      SameHalf(Nearest(h.num, h.den), h);
      SameTrans(Nearest(2 * h.num, h.den), Twice(Nearest(h.num, h.den)), Twice(h));
    } else if num < SIGNIFICAND_MIN * den {
      NearestAgain(2 * num, den);
      var h := Nearest(2 * num, den);
      NearestHalf(h.num, h.den);
      SameHalf(Nearest(h.num, h.den), h);
      SameTrans(Nearest(h.num, 2 * h.den), Half(Nearest(h.num, h.den)), Half(h));
    } else {
      var q := RoundHalfEven(num, den);
      RoundHalfEvenAtMost(num, den, SIGNIFICAND_MAX);
      RoundHalfEvenAtLeast(num, den, SIGNIFICAND_MIN);
      WholeIsExact(q, 1, q);
    }
  }

  function Pow2(k: nat): (p: nat)
    ensures p > 0
  {
    if k == 0 then 1 else 2 * Pow2(k - 1)
  }

  lemma {:induction false} PowerIsExact(k: nat)
    ensures Same(Nearest(Pow2(k), 1), Fraction(Pow2(k), 1))
  {
    if k == 0 {
      WholeIsExact(1, 1, 1);
    } else {
      PowerIsExact(k - 1);
      var p := Pow2(k - 1);
      NearestTwice(p, 1);
      SameHalf(Nearest(p, 1), Fraction(p, 1));
      SameTrans(Nearest(2 * p, 1), Twice(Nearest(p, 1)), Fraction(2 * p, 1));
    }
  }

  // Dividing a float by a power of two is exact.
  lemma {:induction false} QuotientIsExact(num: nat, den: nat, k: nat)
    requires num > 0 && den > 0 && Same(Nearest(num, den), Fraction(num, den)) && den * Pow2(k) > 0
    ensures Same(Nearest(num, den * Pow2(k)), Fraction(num, den * Pow2(k)))
  {
    if k > 0 {
      var d := den * Pow2(k - 1);
      MulMonotone(0, Pow2(k - 1), den);
      Double(den, Pow2(k - 1));
      QuotientIsExact(num, den, k - 1);
      NearestHalf(num, d);
      SameHalf(Nearest(num, d), Fraction(num, d));
      SameTrans(Nearest(num, 2 * d), Half(Nearest(num, d)), Fraction(num, 2 * d));
    } else {
      assert den * Pow2(0) == den;
    }
  }

  lemma AtMostSame(a: Fraction, b: Fraction, k: nat)
    requires a.den > 0 && b.den > 0 && Same(a, b)
    ensures a.num <= k * a.den <==> b.num <= k * b.den
  {
    Scaled(a.num, k * a.den, b.den);
    Swap(k, a.den, b.den);
    Scaled(b.num, k * b.den, a.den);
    Swap(k, b.den, a.den);
  }

  lemma CeilOfSame(a: Fraction, b: Fraction)
    requires a.den > 0 && b.den > 0 && Same(a, b)
    ensures CeilDiv(a.num, a.den) == CeilDiv(b.num, b.den)
  {
    var c, d := CeilDiv(a.num, a.den), CeilDiv(b.num, b.den);
    AtMostSame(a, b, c);
    AtMostSame(a, b, d);
    CeilAtMost(a.num, a.den, c);
    CeilAtMost(a.num, a.den, d);
    CeilAtMost(b.num, b.den, c);
    CeilAtMost(b.num, b.den, d);
  }

  // With nodes of 2^k bytes only the conversion of the size rounds: the number of nodes is
  // the exact ceiling of the float nearest to the size, over the node size.
  lemma CeilByPower(size: nat, k: nat)
    requires size > 0
    ensures var s := Nearest(size, 1);
            s.den * Pow2(k) > 0 && CeilOfFloatQuotient(size, Pow2(k)) == CeilDiv(s.num, s.den * Pow2(k))
  {
    var s, n, p := Nearest(size, 1), Nearest(Pow2(k), 1), Pow2(k);
    PowerIsExact(k);
    assert n.num == p * n.den;
    NearestAgain(size, 1);
    MulMonotone(0, p, s.den);
    QuotientIsExact(s.num, s.den, k);
    MulMonotone(0, s.num, n.den);
    MulMonotone(0, s.den * p, n.den);
    Swap(s.den, p, n.den);
    NearestCommon(s.num, s.den * p, n.den);
    CeilOfSame(Nearest(s.num, s.den * p), Fraction(s.num, s.den * p));
  }

  // So there are too few nodes, or too many, if and only if the float nearest to the size is
  // beyond the bounds that the exact number of nodes has.
  lemma CeilByPowerExactly(size: nat, k: nat)
    requires size > 0
    ensures var s, c, n := Nearest(size, 1), CeilDiv(size, Pow2(k)), CeilOfFloatQuotient(size, Pow2(k));
            && (n < c <==> s.num <= (c - 1) * Pow2(k) * s.den)
            && (n > c <==> s.num > c * Pow2(k) * s.den)
  {
    var s, c, d := Nearest(size, 1), CeilDiv(size, Pow2(k)), Nearest(size, 1).den * Pow2(k);
    CeilByPower(size, k);
    CeilDivBounds(size, Pow2(k));
    CeilAtMost(s.num, d, c);
    CeilAtMost(s.num, d, c - 1);
    Regroup(c - 1, Pow2(k), s.den);
    Regroup(c, Pow2(k), s.den);
  }

  lemma CeilAtMost(num: nat, den: nat, c: nat)
    requires den > 0
    ensures CeilDiv(num, den) <= c <==> num <= c * den
  {
    TimesIsProduct(c, den);
    if num <= c * den {
      CeilDivLeast(num, den, c);
    }
    CeilDivCovers(num, den);
    TimesMonotone(CeilDiv(num, den), c, den);
  }

  lemma Regroup(c: int, p: nat, d: nat)
    ensures c * p * d == c * (d * p)
  {
    Swap(c, p, d);
  }
}
