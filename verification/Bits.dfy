/** Bitwise operations on natural numbers. */
module Bits {
  function Pow2(n: nat): (r: nat)
    ensures r > 0
  {
    if n == 0 then 1 else 2 * Pow2(n - 1)
  }

  /** Bitwise or of n-bit numbers. */
  function Or(a: nat, b: nat, n: nat): (r: nat)
    requires a < Pow2(n) && b < Pow2(n)
    ensures r < Pow2(n)
  {
    if n == 0 then 0 else 2 * Or(a / 2, b / 2, n - 1) + if a % 2 == 1 || b % 2 == 1 then 1 else 0
  }

  /** Bitwise and. */
  function And(a: nat, b: nat): (r: nat)
    ensures r <= b
  {
    if a == 0 || b == 0 then 0 else 2 * And(a / 2, b / 2) + if a % 2 == 1 && b % 2 == 1 then 1 else 0
  }

  /** Or is plus while the bits do not overlap. */
  lemma {:induction false} OrOfApart(a: nat, c: nat, k: nat, n: nat)
    requires k <= n && a < Pow2(k) && c * Pow2(k) < Pow2(n)
    ensures a < Pow2(n) && Or(a, c * Pow2(k), n) == a + c * Pow2(k)
    decreases n
  {
    PowersOfTwoGrow(k, n);
    if n > 0 {
      if k == 0 {
        OrWithZero(c, n);
        assert c * Pow2(0) == c;
      } else {
        var high := c * Pow2(k - 1);
        assert c * Pow2(k) == 2 * high;
        OrOfApart(a / 2, c, k - 1, n - 1);
      }
    }
  }

  lemma {:induction false} OrWithZero(a: nat, n: nat)
    requires a < Pow2(n)
    ensures Or(0, a, n) == a && Or(a, 0, n) == a
    decreases n
  {
    if n > 0 {
      OrWithZero(a / 2, n - 1);
    }
  }

  lemma {:induction false} PowersOfTwoGrow(k: nat, n: nat)
    requires k <= n
    ensures Pow2(k) <= Pow2(n)
  {
    if k < n {
      PowersOfTwoGrow(k, n - 1);
    }
  }

  predicate PowerOfTwo(n: nat) {
    n == 1 || (n > 1 && n % 2 == 0 && PowerOfTwo(n / 2))
  }

  /** Masking with one less than a power of two is taking the remainder. */
  lemma {:induction false} MaskIsRemainder(a: nat, n: nat)
    requires PowerOfTwo(n)
    ensures And(a, n - 1) == a % n
    decreases n
  {
    if n > 1 {
      var half := n / 2;
      MaskIsRemainder(a / 2, half);
      RemainderByHalves(a, half);
      assert (n - 1) / 2 == half - 1 && (n - 1) % 2 == 1;
      assert a == 0 ==> a % n == 0;
    }
  }

  lemma RemainderByHalves(a: nat, half: nat)
    requires half > 0
    ensures a % (2 * half) == 2 * (a / 2 % half) + a % 2
  {
    var q, r, b := a / 2 / half, a / 2 % half, a % 2;
    assert a == 2 * (q * half + r) + b;
    var n := 2 * half;
    assert a == q * n + (2 * r + b) && 2 * r + b < n;
    RemainderIs(a, q, n, 2 * r + b);
  }

  lemma RemainderIs(a: nat, q: nat, n: nat, r: nat)
    requires n > 0 && a == q * n + r && r < n
    ensures a % n == r
  {
    var k := a / n - q;
    assert k * n == r - a % n;
    assert k >= 1 ==> (k - 1) * n >= 0;
    assert k <= -1 ==> (k + 1) * n <= 0;
  }

  // ---- quotients ----

  lemma DivideTwice(v: nat, a: nat, b: nat)
    requires a > 0 && b > 0
    ensures a * b > 0 && v / a / b == v / (a * b)
  {
    var k, s := v / a, v % a;
    var q, r := k / b, k % b;
    assert v == k * a + s;
    assert k == q * b + r;
    Combined(q, r, s, a, b);
    Quotient(v, a * b, q, r * a + s);
  }

  lemma Combined(q: nat, r: nat, s: nat, a: nat, b: nat)
    requires r < b && s < a
    ensures a * b > 0 && (q * b + r) * a + s == q * (a * b) + (r * a + s) && r * a + s < a * b
  {
    var rest := b - 1 - r;
    assert a * b == rest * a + r * a + a;
    assert rest * a >= 0 && r * a >= 0;
    assert q * b * a == q * (a * b);
  }

  lemma Quotient(v: nat, b: nat, q: nat, r: nat)
    requires b > 0 && v == q * b + r && r < b
    ensures v / b == q
  {
    var more, r' := v / b, v % b;
    if more > q {
      Apart(q, r, more, r', b);
    } else if q > more {
      Apart(more, r', q, r, b);
    }
  }

  lemma {:induction false} Apart(q: nat, r: nat, more: nat, r': nat, b: nat)
    requires r < b && q < more
    ensures q * b + r < more * b + r'
    decreases more - q
  {
    assert (more - 1) * b + b == more * b;
    if q < more - 1 {
      Apart(q, r, more - 1, r', b);
    }
  }
}
