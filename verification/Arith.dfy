// Products, quotients and remainders of sizes.
//
// `Times`, `Div`, `Mod` and `CeilDiv` are the ordinary operations, as the first
// lemmas show. They are written by recursion so that the buffer proofs, which mention
// them everywhere, are not drawn into nonlinear arithmetic.
module Arith {

  function Times(k: nat, n: nat): nat {
    if k == 0 then 0 else Times(k - 1, n) + n
  }

  function Div(n: nat, d: nat): nat
    requires d > 0
  {
    if n < d then 0 else Div(n - d, d) + 1
  }

  function Mod(n: nat, d: nat): nat
    requires d > 0
  {
    if n < d then n else Mod(n - d, d)
  }

  // The least integer that is not below num / den.
  function CeilDiv(num: nat, den: nat): nat
    requires den > 0
  {
    if num == 0 then 0 else if num <= den then 1 else CeilDiv(num - den, den) + 1
  }

  lemma {:induction false} TimesIsProduct(k: nat, n: nat)
    ensures Times(k, n) == k * n
  {
    if k > 0 {
      TimesIsProduct(k - 1, n);
      assert k * n == (k - 1) * n + n;
    }
  }

  lemma {:induction false} DivMod(n: nat, d: nat)
    requires d > 0
    ensures n == Times(Div(n, d), d) + Mod(n, d)
    ensures Mod(n, d) < d
  {
    if n >= d {
      DivMod(n - d, d);
    }
  }

  // Cutting early is cutting late.
  lemma {:induction false} ModSum(a: nat, b: nat, d: nat)
    requires d > 0
    ensures Mod(Mod(a, d) + b, d) == Mod(a + b, d)
  {
    if a >= d {
      ModSum(a - d, b, d);
    }
  }

  lemma DivIsQuotient(n: nat, d: nat)
    requires d > 0
    ensures Div(n, d) == n / d && Mod(n, d) == n % d
  {
    DivMod(n, d);
    TimesIsProduct(Div(n, d), d);
    MulMonotone(Div(n, d), n / d, d);
    MulMonotone(n / d, Div(n, d), d);
    assert n == (n / d) * d + n % d;
  }

  lemma {:induction false} TimesMonotone(j: nat, k: nat, n: nat)
    ensures j <= k ==> Times(j, n) <= Times(k, n)
    ensures j < k ==> Times(j, n) + n <= Times(k, n)
  {
    if j < k {
      TimesMonotone(j, k - 1, n);
    }
  }

  lemma {:induction false} TimesSum(j: nat, k: nat, n: nat)
    ensures Times(j + k, n) == Times(j, n) + Times(k, n)
  {
    if k > 0 {
      TimesSum(j, k - 1, n);
    }
  }

  lemma DivModUnique(n: nat, d: nat, q: nat, r: nat)
    requires d > 0 && r < d && n == Times(q, d) + r
    ensures Div(n, d) == q && Mod(n, d) == r
  {
    DivMod(n, d);
    TimesMonotone(q, Div(n, d), d);
    TimesMonotone(Div(n, d), q, d);
  }

  lemma {:induction false} CeilDivCovers(num: nat, den: nat)
    requires den > 0
    ensures num <= Times(CeilDiv(num, den), den) < num + den
  {
    if num > den {
      CeilDivCovers(num - den, den);
    } else if num > 0 {
      assert Times(1, den) == den;
    }
  }

  lemma CeilDivLeast(num: nat, den: nat, c: nat)
    requires den > 0 && num <= Times(c, den)
    ensures CeilDiv(num, den) <= c
    ensures Times(c, den) < num + den ==> CeilDiv(num, den) == c
  {
    CeilDivCovers(num, den);
    TimesMonotone(c, CeilDiv(num, den), den);
    TimesMonotone(CeilDiv(num, den), c, den);
  }

  lemma CeilDivBounds(num: nat, den: nat)
    requires den > 0
    ensures num <= CeilDiv(num, den) * den < num + den
  {
    CeilDivCovers(num, den);
    TimesIsProduct(CeilDiv(num, den), den);
  }

  lemma CeilDivUnique(num: nat, den: nat, c: nat)
    requires den > 0
    requires num <= c * den < num + den
    ensures CeilDiv(num, den) == c
  {
    TimesIsProduct(c, den);
    CeilDivLeast(num, den, c);
  }

  lemma MulDifference(a: int, b: int, k: int)
    ensures (b - a) * k == b * k - a * k
  {
  }

  lemma MulAtLeast(d: nat, k: nat)
    ensures d * k >= 0
    ensures d > 0 ==> d * k >= k
  {
  }

  lemma MulMonotone(a: int, b: int, k: nat)
    ensures a <= b ==> a * k <= b * k
    ensures a < b ==> a * k + k <= b * k
  {
    MulDifference(a, b, k);
    if a <= b {
      MulAtLeast(b - a, k);
    }
  }

  lemma Double(a: int, b: int)
    ensures a * (2 * b) == 2 * (a * b) == (2 * a) * b
  {
  }
}
