/**
 * Unbounded integer arithmetic used by the Chaum-Pedersen engine: powers,
 * the truncating remainder of the big-integer library, and the modular facts
 * the completeness proof rests on.
 */
module Arith {

  function Abs(a: int): (r: int)
    ensures r >= 0 && (r == a || r == -a)
  {
    if a < 0 then -a else a
  }

  /** b raised to the non-negative power e. */
  function Pow(b: int, e: nat): int
    decreases e
  {
    if e == 0 then 1 else b * Pow(b, e - 1)
  }

  /**
   * The remainder of the big-integer `%` operator: it truncates the quotient
   * toward zero, so the remainder takes the sign of the dividend `a`.
   * Division by zero panics in the library, hence the precondition.
   */
  function TruncRem(a: int, b: int): (r: int)
    requires b != 0
    ensures 0 <= a ==> 0 <= r < Abs(b)
    ensures a < 0 ==> -Abs(b) < r <= 0
    ensures r % Abs(b) == a % Abs(b)
  {
    var m := Abs(b);
    if a >= 0 then a % m
    else
      var z := (-a) % m;
      NegatedRemainder(a, m);
      -z
  }

  lemma NegatedRemainder(a: int, m: int)
    requires m > 0
    ensures (-((-a) % m)) % m == a % m
  {
    var t, z := (-a) / m, (-a) % m;
    assert m * t + a == -z;
    ModAddMultiple(a, t, m);
  }

  /**
   * The library's modular exponentiation for a positive modulus: b^e reduced
   * with floored remainder, which for m > 0 is Dafny's `%`, so the result
   * lies in [0, m) even for a negative base.
   */
  function ModPow(b: int, e: nat, m: int): (r: int)
    requires m > 0
    ensures 0 <= r < m
  {
    Pow(b, e) % m
  }

  lemma {:induction false} PowPositive(b: int, e: nat)
    requires b > 0
    ensures Pow(b, e) > 0
  {
    if e > 0 {
      PowPositive(b, e - 1);
      MulPositive(b, Pow(b, e - 1));
    }
  }

  lemma MulPositive(a: int, b: int)
    requires a > 0 && b > 0
    ensures a * b > 0
  {
  }

  lemma {:induction false} PowOne(e: nat)
    ensures Pow(1, e) == 1
  {
    if e > 0 {
      PowOne(e - 1);
    }
  }

  lemma {:induction false} PowAdd(b: int, m: nat, n: nat)
    ensures Pow(b, m + n) == Pow(b, m) * Pow(b, n)
  {
    if m > 0 {
      PowAdd(b, m - 1, n);
      calc {
        Pow(b, m + n);
        b * Pow(b, (m - 1) + n);
        b * (Pow(b, m - 1) * Pow(b, n));
        (b * Pow(b, m - 1)) * Pow(b, n);
        Pow(b, m) * Pow(b, n);
      }
    }
  }

  lemma {:induction false} PowMul(b: int, m: nat, n: nat)
    ensures Pow(b, m * n) == Pow(Pow(b, m), n)
  {
    if n > 0 {
      PowMul(b, m, n - 1);
      assert m * n == m * (n - 1) + m;
      calc {
        Pow(b, m * n);
        Pow(b, m * (n - 1) + m);
        { PowAdd(b, m * (n - 1), m); }
        Pow(b, m * (n - 1)) * Pow(b, m);
        Pow(Pow(b, m), n - 1) * Pow(b, m);
        Pow(Pow(b, m), n);
      }
    }
  }

  /** Euclidean division is unique: any decomposition n == m*k + r with 0 <= r < m is it. */
  lemma ModUnique(n: int, m: int, k: int, r: int)
    requires m > 0 && 0 <= r < m
    requires n == m * k + r
    ensures n % m == r && n / m == k
  {
    var k', r' := n / m, n % m;
    assert m * k' + r' == m * k + r;
    assert m * (k - k') == r' - r;
    if k > k' {
      MulAtLeast(m, k - k');
      assert false;
    } else if k < k' {
      MulAtLeast(m, k' - k);
      assert false;
    }
  }

  lemma MulAtLeast(m: int, a: int)
    requires m > 0 && a >= 1
    ensures m * a >= m
  {
  }

  lemma ModAddMultiple(x: int, k: int, m: int)
    requires m > 0
    ensures (m * k + x) % m == x % m
  {
    var t, z := x / m, x % m;
    assert m * k + x == m * (k + t) + z;
    ModUnique(m * k + x, m, k + t, z);
  }

  lemma ModMul(a: int, b: int, m: int)
    requires m > 0
    ensures (a * b) % m == ((a % m) * (b % m)) % m
  {
    var qa, ra := a / m, a % m;
    var qb, rb := b / m, b % m;
    calc {
      a * b;
      (m * qa + ra) * b;
      m * qa * b + ra * b;
      m * qa * b + ra * (m * qb + rb);
      m * (qa * b + ra * qb) + ra * rb;
    }
    ModAddMultiple(ra * rb, qa * b + ra * qb, m);
  }

  lemma {:induction false} PowMod(b: int, e: nat, m: int)
    requires m > 0
    ensures Pow(b % m, e) % m == Pow(b, e) % m
  {
    if e > 0 {
      PowMod(b, e - 1, m);
      ModUnique(b % m, m, 0, b % m);
      calc {
        Pow(b % m, e) % m;
        ((b % m) * Pow(b % m, e - 1)) % m;
        { ModMul(b % m, Pow(b % m, e - 1), m); }
        (((b % m) % m) * (Pow(b % m, e - 1) % m)) % m;
        ((b % m) * (Pow(b, e - 1) % m)) % m;
        { ModMul(b, Pow(b, e - 1), m); }
        (b * Pow(b, e - 1)) % m;
        Pow(b, e) % m;
      }
    }
  }

  /**
   * If b^q is congruent to 1 modulo m, an exponent matters only modulo q:
   * b^e and b^(e mod q) are congruent modulo m.
   */
  lemma PowPeriodic(b: int, e: nat, q: int, m: int)
    requires m > 0 && q > 0
    requires Pow(b, q) % m == 1 % m
    ensures Pow(b, e) % m == Pow(b, e % q) % m
  {
    var t: nat, r: nat := e / q, e % q;
    assert e == q * t + r;
    PowAdd(b, q * t, r);
    PowMul(b, q, t);
    PowMod(Pow(b, q), t, m);
    PowMod(1, t, m);
    PowOne(t);
    assert Pow(b, q * t) % m == 1 % m;
    calc {
      Pow(b, e) % m;
      (Pow(b, q * t) * Pow(b, r)) % m;
      { ModMul(Pow(b, q * t), Pow(b, r), m); }
      ((Pow(b, q * t) % m) * (Pow(b, r) % m)) % m;
      ((1 % m) * (Pow(b, r) % m)) % m;
      { ModMul(1, Pow(b, r), m); }
      Pow(b, r) % m;
    }
  }
}
