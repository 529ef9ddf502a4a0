/**
 * The Chaum-Pedersen interactive proof that two public values y1 = g^x and
 * y2 = h^x (mod p) share one discrete log x (Chaum and Pedersen, "Wallet
 * Databases with Observers", CRYPTO '92).
 *
 * A round: the prover commits with (r1, r2) = (g^k, h^k) for a fresh k, the
 * verifier sends a challenge c, the prover answers s = k - c*x (mod q), and
 * the verifier checks g^s * y1^c == r1 and h^s * y2^c == r2 (mod p).
 */
module ChaumPedersen {
  import opened Arith

  /** The working group: modulus p, subgroup order q, generators g and h,
      and the bit length of random scalars. */
  datatype Parameters = Parameters(bitSize: nat, p: int, q: int, g: int, h: int)

  /** The commitment pair of one round (r1, r2). */
  datatype ChaumPedersenExponents = ChaumPedersenExponents(r1: int, r2: int)

  datatype Error = VerificationFailed

  /** Outcome of a verification: success, or a reported (non-fatal) failure. */
  datatype Outcome = Ok | Err(error: Error)

  /** The group every party uses: p = 2q + 1 is a safe prime and g = 2^2,
      h = 3^2 are quadratic residues, so both lie in the subgroup of order q. */
  const DEFAULT_PARAMS: Parameters := Parameters(
    256,
    42765216643065397982265462252423826320512529931694366715111734768493812630447,
    21382608321532698991132731126211913160256264965847183357555867384246906315223,
    4,
    9)

  /** What the engine's arithmetic needs: a non-zero modulus for modular
      exponentiation and a non-zero divisor for the remainder by q. */
  predicate WellFormed(params: Parameters)
  {
    params.p > 0 && params.q > 0
  }

  /** The group assumption: g and h both have order dividing q modulo p.
      It is taken as a hypothesis, never computed. */
  ghost predicate SubgroupOrder(params: Parameters)
  {
    && WellFormed(params)
    && Pow(params.g, params.q) % params.p == 1 % params.p
    && Pow(params.h, params.q) % params.p == 1 % params.p
  }

  lemma DefaultParamsShape()
    ensures WellFormed(DEFAULT_PARAMS)
    ensures DEFAULT_PARAMS.p == 2 * DEFAULT_PARAMS.q + 1
    ensures 1 < DEFAULT_PARAMS.g < DEFAULT_PARAMS.p && 1 < DEFAULT_PARAMS.h < DEFAULT_PARAMS.p
  {
  }

  /**
   * A random scalar of `bitSize` bits. The entropy source is a parameter:
   * the result is below 2^bitSize, and every such value can be drawn.
   */
  method GenerateRandom(params: Parameters, entropy: nat) returns (r: int)
    ensures 0 <= r < Pow(2, params.bitSize)
    ensures entropy < Pow(2, params.bitSize) ==> r == entropy
  {
    PowPositive(2, params.bitSize);
    r := entropy % Pow(2, params.bitSize);
  }

  /** The prover's commitment (g^k mod p, h^k mod p); the library panics on a
      negative exponent, hence k >= 0. */
  function Commit(params: Parameters, k: int): (e: ChaumPedersenExponents)
    requires WellFormed(params) && k >= 0
    ensures 0 <= e.r1 < params.p && 0 <= e.r2 < params.p
  {
    ChaumPedersenExponents(ModPow(params.g, k, params.p), ModPow(params.h, k, params.p))
  }

  /**
   * The prover's response s = (k - c*x) mod q. The truncating remainder may
   * be negative; one addition of q brings it into [0, q), so the result is
   * the canonical representative of k - c*x modulo q.
   */
  function SolveChallenge(params: Parameters, x: int, k: int, c: int): (s: int)
    requires WellFormed(params)
    ensures 0 <= s < params.q
    ensures s == (k - c * x) % params.q
  {
    var q := params.q;
    var s := TruncRem(k - c * x, q);
    if s < 0 then
      ModAddMultiple(s, 1, q);
      ModUnique(s + q, q, 0, s + q);
      s + q
    else
      ModUnique(s, q, 0, s);
      s
  }

  /** The verifier's recomputation of one commitment: (b^s mod p) * (y^c mod p),
      reduced with the truncating remainder. */
  function Recomputed(params: Parameters, b: int, y: int, s: int, c: int): int
    requires WellFormed(params) && s >= 0 && c >= 0
  {
    TruncRem(ModPow(b, s, params.p) * ModPow(y, c, params.p), params.p)
  }

  /**
   * The verifier's check. A mismatch in either component is reported as an
   * error value; only commitments already reduced into [0, p) can pass.
   */
  function Verify(params: Parameters, y1: int, y2: int, r1: int, r2: int, s: int, c: int): (res: Outcome)
    requires WellFormed(params) && s >= 0 && c >= 0
    ensures res == Ok ==> 0 <= r1 < params.p && 0 <= r2 < params.p
  {
    var trueR1 := Recomputed(params, params.g, y1, s, c);
    var trueR2 := Recomputed(params, params.h, y2, s, c);
    if r1 != trueR1 || r2 != trueR2 then Err(VerificationFailed) else Ok
  }

  /** The recomputed value is (b^s * y^c) mod p. */
  lemma RecomputedIsReduced(params: Parameters, b: int, y: int, s: int, c: int)
    requires WellFormed(params) && s >= 0 && c >= 0
    ensures Recomputed(params, b, y, s, c) == (Pow(b, s) * Pow(y, c)) % params.p
  {
    var p := params.p;
    var u, v := ModPow(b, s, p), ModPow(y, c, p);
    assert u * v >= 0;
    ModMul(Pow(b, s), Pow(y, c), p);
  }

  /** Verification succeeds exactly when both commitments equal the
      recomputed values, and fails otherwise. */
  lemma VerifyAcceptsExactly(params: Parameters, y1: int, y2: int, r1: int, r2: int, s: int, c: int)
    requires WellFormed(params) && s >= 0 && c >= 0
    ensures Verify(params, y1, y2, r1, r2, s, c) == Ok <==>
            && r1 == (Pow(params.g, s) * Pow(y1, c)) % params.p
            && r2 == (Pow(params.h, s) * Pow(y2, c)) % params.p
    ensures Verify(params, y1, y2, r1, r2, s, c) != Ok ==>
            Verify(params, y1, y2, r1, r2, s, c) == Err(VerificationFailed)
  {
    RecomputedIsReduced(params, params.g, y1, s, c);
    RecomputedIsReduced(params, params.h, y2, s, c);
  }

  /** Under the group assumption a commitment depends on k only modulo q. */
  lemma CommitDependsOnExponentModQ(params: Parameters, k: int)
    requires SubgroupOrder(params) && k >= 0
    ensures Commit(params, k) == Commit(params, k % params.q)
  {
    PowPeriodic(params.g, k, params.q, params.p);
    PowPeriodic(params.h, k, params.q, params.p);
  }

  /**
   * One component of an honest round: with y = b^x mod p and s the response
   * to challenge c, the recomputation b^s * y^c (mod p) gives back b^k mod p.
   */
  lemma HonestRecomputation(params: Parameters, b: int, x: int, k: int, c: int)
    requires WellFormed(params) && x >= 0 && k >= 0 && c >= 0
    requires Pow(b, params.q) % params.p == 1 % params.p
    ensures Recomputed(params, b, ModPow(b, x, params.p), SolveChallenge(params, x, k, c), c)
            == ModPow(b, k, params.p)
  {
    var p, q := params.p, params.q;
    var s := SolveChallenge(params, x, k, c);
    var y := ModPow(b, x, p);
    RecomputedIsReduced(params, b, y, s, c);
    // y^c is congruent to b^(x*c)
    PowMod(Pow(b, x), c, p);
    PowMul(b, x, c);
    assert Pow(y, c) % p == Pow(b, x * c) % p;
    // s + x*c is congruent to k modulo q
    var t := (k - c * x) / q;
    assert s + x * c == q * (-t) + k;
    ModAddMultiple(k, -t, q);
    assert (s + x * c) % q == k % q;
    calc {
      (Pow(b, s) * Pow(y, c)) % p;
      { ModMul(Pow(b, s), Pow(y, c), p); }
      ((Pow(b, s) % p) * (Pow(y, c) % p)) % p;
      ((Pow(b, s) % p) * (Pow(b, x * c) % p)) % p;
      { ModMul(Pow(b, s), Pow(b, x * c), p); }
      (Pow(b, s) * Pow(b, x * c)) % p;
      { PowAdd(b, s, x * c); }
      Pow(b, s + x * c) % p;
      { PowPeriodic(b, s + x * c, q, p); }
      Pow(b, (s + x * c) % q) % p;
      Pow(b, k % q) % p;
      { PowPeriodic(b, k, q, p); }
      Pow(b, k) % p;
    }
  }

  /**
   * Completeness: a prover who knows x, registers y1 = g^x and y2 = h^x,
   * commits with k and answers the challenge c honestly is always accepted.
   */
  lemma Completeness(params: Parameters, x: int, k: int, c: int)
    requires SubgroupOrder(params)
    requires x >= 0 && k >= 0 && c >= 0
    ensures
      var y1, y2 := ModPow(params.g, x, params.p), ModPow(params.h, x, params.p);
      var e := Commit(params, k);
      Verify(params, y1, y2, e.r1, e.r2, SolveChallenge(params, x, k, c), c) == Ok
  {
    HonestRecomputation(params, params.g, x, k, c);
    HonestRecomputation(params, params.h, x, k, c);
  }
}
