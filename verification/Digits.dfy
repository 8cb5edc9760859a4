// Powers, and the digits of a number in any base.
module Digits {

  function Pow(b: nat, e: nat): (r: nat)
    ensures b > 0 ==> r > 0
  {
    if e == 0 then 1 else b * Pow(b, e - 1)
  }

  lemma MulAssociates(a: nat, b: nat, c: nat)
    ensures a * (b * c) == a * b * c
  {
  }

  lemma {:induction false} PowSum(b: nat, j: nat, k: nat)
    ensures Pow(b, j + k) == Pow(b, j) * Pow(b, k)
  {
    if j > 0 {
      PowSum(b, j - 1, k);
      MulAssociates(b, Pow(b, j - 1), Pow(b, k));
    }
  }

  lemma DivDiv(n: nat, a: nat, b: nat)
    requires a > 0 && b > 0
    ensures a * b > 0 && n / a / b == n / (a * b)
  {
    var q := n / a / b;
    assert n / a == q * b + n / a % b;
    assert n == n / a * a + n % a;
    assert n / a % b <= b - 1;
    DivDivParts(n, a, b, q, n / a % b, n % a);
  }

  lemma DivDivParts(n: nat, a: nat, b: nat, q: nat, r: nat, t: nat)
    requires r < b && t < a && n == (q * b + r) * a + t
    ensures a * b > 0 && n / (a * b) == q
  {
    MulPositive(a, b);
    Distributes(q * b, r, a);
    MulAssociates(q, b, a);
    Distributes(r, 1, a);
    Distributes(b - r - 1, r + 1, a);
    QuotientIs(n, a * b, q, r * a + t);
  }

  lemma MulPositive(a: nat, b: nat)
    ensures a * b == b * a && a * b >= 0
    ensures a > 0 && b > 0 ==> a * b > 0
  {
  }

  lemma Distributes(a: nat, b: nat, c: nat)
    ensures (a + b) * c == a * c + b * c && a * c >= 0 && 1 * c == c
  {
  }

  lemma QuotientIs(n: nat, d: nat, q: nat, r: nat)
    requires d > 0 && n == q * d + r && r < d
    ensures n / d == q
  {
    var k := q - n / d;
    assert k * d == n % d - r by {
      assert k * d == q * d - n / d * d;
    }
    if k != 0 {
      LargeMultiple(k, d);
      assert false;
    }
  }

  lemma LargeMultiple(k: int, d: nat)
    requires k != 0
    ensures k * d >= d || k * d <= 0 - d
  {
    assert if k > 0 then (k - 1) * d >= 0 else (-k - 1) * d >= 0;
  }

  // Digit i + 1 of n is digit i of n without its last one.
  lemma NextDigit(n: nat, b: nat, i: nat)
    requires b > 0
    ensures n / b / Pow(b, i) == n / Pow(b, i + 1)
  {
    DivDiv(n, b, Pow(b, i));
  }

  lemma QuotientBelow(n: nat, b: nat, c: nat)
    requires b > 0
    ensures n / b < c <==> n < b * c
  {
    var q, r := n / b, n % b;
    assert n == b * q + r;
    if q < c {
      Distributes(c - q - 1, q + 1, b);
      Distributes(q, 1, b);
      MulPositive(b, c);
      MulPositive(b, q);
    } else {
      Distributes(q - c, c, b);
      MulPositive(b, c);
      MulPositive(b, q);
    }
  }

  lemma {:induction false} PowGrows(b: nat, j: nat, k: nat)
    requires b > 0 && j <= k
    ensures Pow(b, j) <= Pow(b, k)
  {
    if j < k {
      PowGrows(b, j, k - 1);
      Distributes(b - 1, 1, Pow(b, k - 1));
    }
  }

  lemma PowAtLeast(b: nat, k: nat)
    requires b > 0 && k > 0
    ensures Pow(b, k) >= b
  {
    assert Pow(b, 1) == b * Pow(b, 0);
    PowGrows(b, 1, k);
  }

  lemma SplitLast(n: nat, b: nat)
    requires b >= 2 && n >= b
    ensures 0 < n / b < n && n % b < b && b * (n / b) + n % b == n
  {
    var q, r := n / b, n % b;
    assert n == b * q + r;
    Distributes(b - 2, 2, q);
  }

  lemma SmallDigit(n: nat, b: nat)
    requires n < b
    ensures n % b == n && n / Pow(b, 0) % b == n
  {
    assert Pow(b, 0) == 1;
  }
}
