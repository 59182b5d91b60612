/** Facts about products, quotients and remainders that the solver needs told. */
module Arith {

  /** One more than the largest 32-bit and 64-bit number. */
  const U32: nat := 0x1_0000_0000
  const U64: nat := 0x1_0000_0000_0000_0000

  /** Quotient and remainder of naturals, which are naturals again. */
  function Quot(a: nat, n: nat): nat
    requires n > 0
  {
    a / n
  }

  function Rem(a: nat, n: nat): nat
    requires n > 0
  {
    a % n
  }

  function Times(a: nat, b: nat): nat {
    a * b
  }

  function Min(a: nat, b: nat): nat {
    if a < b then a else b
  }

  lemma MulMono(a: nat, b: nat, c: nat, d: nat)
    requires a <= b && c <= d
    ensures a * c <= b * d
  {
    assert a * c <= b * c <= b * d by {
      assert (b - a) * c >= 0 && b * (d - c) >= 0;
    }
  }

  /** Division with remainder. */
  lemma DivMod(r: nat, n: nat, q: nat)
    requires n > 0
    ensures r / n * n + r % n == r && r % n < n
    ensures r < q * n ==> r / n < q
  {
    if r < q * n && r / n >= q {
      MulMono(q, r / n, n, n);
    }
  }

  lemma Digits(a: nat, b: nat, c: nat, d: nat, n: nat)
    requires b < n && d < n
    ensures a * n + b < c * n + d <==> a < c || (a == c && b < d)
  {
    if a < c { assert (a + 1) * n <= c * n; }
    if c < a { assert (c + 1) * n <= a * n; }
  }

  lemma DigitsBound(a: nat, b: nat, n: nat, k: nat)
    requires b < n && a < k
    ensures a * n + b < k * n
  {
    assert (a + 1) * n <= k * n;
  }

  lemma DivUnique(q: nat, r: nat, n: nat)
    requires r < n
    ensures (q * n + r) / n == q && (q * n + r) % n == r
  {
    var x := q * n + r;
    DivMod(x, n, 0);
    Digits(q, r, x / n, x % n, n);
    Digits(x / n, x % n, q, r, n);
  }

  lemma ModAddMul(q: nat, r: nat, n: nat)
    requires n > 0
    ensures (q * n + r) % n == r % n && (q * n + r) / n == q + r / n
  {
    DivMod(r, n, 0);
    assert q * n + r == (q + r / n) * n + r % n;
    DivUnique(q + r / n, r % n, n);
  }

  lemma DivTwice(x: nat, m: nat, n: nat)
    requires m > 0 && n > 0
    ensures m * n > 0 && x / (m * n) == x / m / n
  {
    MulMono(1, m, 1, n);
    DivMod(x, m, 0);
    DivMod(x / m, n, 0);
    TwoDigits(x, x / m / n, x / m % n, x % m, m, n, m * n);
  }

  lemma TwoDigits(x: nat, q: nat, r: nat, t: nat, m: nat, n: nat, mn: nat)
    requires t < m && r < n && mn == m * n && x == (q * n + r) * m + t
    ensures x / mn == q
  {
    DigitsBound(r, t, m, n);
    assert (q * n + r) * m == q * (n * m) + r * m;
    DivUnique(q, r * m + t, mn);
  }

  function Pow2(n: nat): (r: nat)
    ensures r > 0
  {
    if n == 0 then 1 else 2 * Pow2(n - 1)
  }

  lemma TwiceProduct(a: nat, b: nat)
    ensures a * (2 * b) == 2 * (a * b)
  {}

  lemma {:induction false} Pow2Split(i: nat, j: nat)
    ensures Pow2(i + j) == Pow2(i) * Pow2(j)
    decreases j
  {
    if j > 0 {
      Pow2Split(i, j - 1);
      TwiceProduct(Pow2(i), Pow2(j - 1));
    }
  }

  /** A remainder modulo a multiple of `n` has the same remainder modulo `n`. */
  lemma ModMod(a: nat, n: nat, m: nat)
    requires n > 0 && m > 0
    ensures n * m > 0 && (a % (n * m)) % n == a % n
  {
    MulMono(1, n, 1, m);
    var q, r := a / (n * m), a % (n * m);
    DivMod(a, n * m, 0);
    assert a == (q * m) * n + r;
    ModAddMul(q * m, r, n);
  }

  lemma {:induction false} SubsetSize<T>(a: set<T>, b: set<T>)
    requires a <= b
    ensures |a| <= |b|
    decreases |a|
  {
    if a != {} {
      var x :| x in a;
      SubsetSize(a - {x}, b - {x});
    }
  }
}
