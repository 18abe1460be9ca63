/** Schnorr signatures as the reference computes them, and why every signature verifies. The two
    hashes of the scheme are opaque functions with 32-byte results. */
module Schnorr {
  import opened LittleEndian
  import opened ModArith
  import opened SquareRoot
  import opened PointAddition
  import opened Curve

  datatype SignResult = Signed(sig: seq<Byte>) | BadKey | BadNonce
  datatype VerifyResult = Verdict(ok: bool) | BadLength

  /** The nonce drawn from secret key and message, and the challenge drawn from the nonce point's x,
      the public key and the message. */
  datatype Hashes = Hashes(
    nonce: (int, seq<Byte>) -> nat,
    challenge: (int, Point, seq<Byte>) -> nat)

  ghost predicate Bounded(h: Hashes) {
    && (forall d, msg :: h.nonce(d, msg) < Pow256(32))
    && (forall x, q, msg :: h.challenge(x, q, msg) < Pow256(32))
  }

  /** The two halves of a signature. */
  ghost function Halves(c: Params, h: Hashes, msg: seq<Byte>, d: nat): (int, int)
    requires Legal(c)
  {
    var k0 := h.nonce(d, msg);
    var r := Times(c, k0, c.g);
    if r.Infinity? then (0, 0)
    else
      var k := if r.y % 2 != 0 then c.n - k0 else k0;
      var e := h.challenge(r.x, Times(c, d, c.g), msg);
      (r.x, (k + e * d) % c.n)
  }

  method SchnorrSign(c: Params, h: Hashes, msg: seq<Byte>, seckey: int) returns (res: SignResult)
    requires Legal(c) && Bounded(h)
    ensures res.BadKey? <==> !(1 <= seckey <= c.n - 1)
    ensures res.BadNonce? <==> 1 <= seckey <= c.n - 1 && h.nonce(seckey, msg) == 0
    ensures res.Signed? ==> seckey >= 0 && var (x, s) := Halves(c, h, msg, seckey);
      0 <= x < c.p && 0 <= s < c.n && res.sig == ToBytes(x, 95) + ToBytes(s, 95)
  {
    hide IsPrime, AdditionLaws, Two, Times, ToBytes, Pow256, OnCurve;
    if !(1 <= seckey <= c.n - 1) {
      return BadKey;
    }
    var k0 := h.nonce(seckey, msg);
    if k0 == 0 {
      return BadNonce;
    }
    NonceInRange(c, h, msg, seckey);
    ScalarFits(c, k0);
    ScalarFits(c, seckey);
    var r := PointMul(c, c.g, k0);
    MultipleInRange(c, k0);
    var k := if r.y % 2 != 0 then c.n - k0 else k0;
    var pub := PointMul(c, c.g, seckey);
    var e := h.challenge(r.x, pub, msg);
    ModIdempotent(k + e * seckey, c.n);
    return Signed(ToBytes(r.x, 95) + ToBytes((k + e * seckey) % c.n, 95));
  }

  lemma NonceInRange(c: Params, h: Hashes, msg: seq<Byte>, d: int)
    requires Legal(c) && Bounded(h)
    ensures h.nonce(d, msg) < c.n
  {
    hide AdditionLaws, Two, IsPrime, Pow256, Times, OnCurve;
  }

  lemma ScalarFits(c: Params, k: int)
    requires Legal(c) && 0 <= k <= c.n
    ensures k % Two(c.bits) == k
  {
    hide AdditionLaws, Two, IsPrime, Pow256, Times, OnCurve;
    ModUnique(k, 0, k, Two(c.bits));
  }

  lemma MultipleInRange(c: Params, k: nat)
    requires Legal(c) && 0 < k < c.n
    ensures var q := Times(c, k, c.g); q.At? && 0 <= q.x < c.p && 0 < q.y < c.p
  {
    hide AdditionLaws, Two, IsPrime, Pow256, Times, PointAdd, Rhs;
    OppositeMultiple(c, k);
    TimesOnCurve(c, k, c.g);
  }

  /** What verification checks, for the point `q` that the public key decodes to. */
  ghost predicate Accepts(c: Params, h: Hashes, msg: seq<Byte>, q: Point, r: int, s: int)
    requires Legal(c)
  {
    && q.At?
    && 0 <= r < c.p && 0 <= s < c.n
    && var e := h.challenge(r, q, msg);
       var t := PointAdd(c, BitSum(c, c.g, s, c.bits), BitSum(c, q, c.n - e, c.bits));
       t.At? && t.y % 2 == 0 && t.x == r
  }

  method SchnorrVerify(c: Params, h: Hashes, msg: seq<Byte>, pubkey: seq<Byte>, sig: seq<Byte>)
    returns (res: VerifyResult)
    requires Legal(c) && Bounded(h)
    ensures res.BadLength? <==> |pubkey| != 96 || |sig| != 190
    ensures res.Verdict? ==> forall q :: Decompresses(c, pubkey, q) ==>
      (res.ok <==> Accepts(c, h, msg, q, FromBytes(sig[..95]), FromBytes(sig[95..])))
    ensures res.Verdict? ==> forall d: nat :: 0 < d < c.n && Decompresses(c, pubkey, Times(c, d, c.g)) ==>
      (res.ok <==> Signable(c, h, msg, d, FromBytes(sig[..95]), FromBytes(sig[95..])))
  {
    hide AdditionLaws, Two, IsPrime, Pow256, Times, PointAdd, Rhs, Decompresses, FromBytes, BitSum, Signable;
    if |pubkey| != 96 || |sig| != 190 {
      return BadLength;
    }
    var q := PointFromBytes(c, pubkey);
    forall q' | Decompresses(c, pubkey, q') ensures q' == q {
      DecompressesOnce(c, pubkey, q, q');
    }
    forall d: nat, r, s | 0 < d < c.n
      ensures Accepts(c, h, msg, Times(c, d, c.g), r, s) <==> Signable(c, h, msg, d, r, s)
    {
      AcceptsExactly(c, h, msg, d, r, s);
    }
    if q.Infinity? {
      return Verdict(false);
    }
    var r := FromBytes(sig[..95]);
    var s := FromBytes(sig[95..]);
    if r >= c.p || s >= c.n {
      return Verdict(false);
    }
    var e := h.challenge(r, q, msg);
    var sg := PointMul(c, c.g, s);
    var eq := PointMul(c, q, c.n - e);
    var t := PointAdd(c, sg, eq);
    return Verdict(!(t.Infinity? || t.y % 2 != 0 || t.x != r));
  }

  // ----- completeness -----

  /** The scalar of the verification equation is the signing nonce modulo the order. */
  lemma ScalarIsNonce(n: int, k: nat, e: nat, d: nat) returns (m: int)
    requires 0 < n && e <= n
    ensures var s := (k + e * d) % n; s >= 0 && (n - e) * d >= 0 && s + (n - e) * d == k + m * n
  {
    var v := k + e * d;
    var q := v / n;
    m := d - q;
    ModIdempotent(v, n);
    assert v == q * n + v % n;
    assert (n - e) * d == n * d - e * d;
    assert (d - q) * n == n * d - q * n;
    assert (n - e) * d >= 0;
  }

  /** Equal modulo the order: equal multiples of the generator. */
  lemma SameMultiple(c: Params, k: nat, v: nat, m: int)
    requires Legal(c) && v == k + m * c.n
    ensures Times(c, v, c.g) == Times(c, k, c.g)
  {
    hide AdditionLaws, Two, IsPrime, Pow256, Times, OnCurve;
    if m >= 0 {
      TimesWraps(c, k, m);
    } else {
      TimesWraps(c, v, -m);
      assert v + (-m) * c.n == k;
    }
  }

  /** The signing nonce, corrected for parity, reproduces the nonce point with an even y. */
  lemma CorrectedNonce(c: Params, k0: nat)
    requires Legal(c) && 0 < k0 < c.n
    ensures var r := Times(c, k0, c.g);
      && r.At? && 0 <= r.x < c.p
      && var k := if r.y % 2 != 0 then c.n - k0 else k0;
         k >= 0 && Times(c, k, c.g).At? && Times(c, k, c.g).x == r.x && Times(c, k, c.g).y % 2 == 0
  {
    hide AdditionLaws, Two, Pow256, Times, OnCurve, IsPrime;
    OppositeMultiple(c, k0);
    MultipleInRange(c, k0);
    OddPrime(c.p);
  }

  /** The verification equation holds for a genuine signature. */
  lemma EquationHolds(c: Params, k: nat, e: nat, d: nat)
    requires Legal(c) && e <= c.n && 0 < d < c.n
    ensures var s := (k + e * d) % c.n;
      && 0 <= s < c.n
      && PointAdd(c, Times(c, s % Two(c.bits), c.g),
                  Times(c, (c.n - e) % Two(c.bits), Times(c, d, c.g))) == Times(c, k, c.g)
  {
    hide AdditionLaws, Two, IsPrime, Pow256, Times, OnCurve, PointAdd;
    var s := (k + e * d) % c.n;
    ModIdempotent(k + e * d, c.n);
    var m := ScalarIsNonce(c.n, k, e, d);
    ScalarFits(c, s);
    ScalarFits(c, c.n - e);
    TimesTimes(c, c.n - e, d, c.g);
    TimesAdd(c, s, (c.n - e) * d, c.g);
    SameMultiple(c, k, s + (c.n - e) * d, m);
  }

  /** Completeness: every signature made with a key in 1 .. n-1 and a nonzero nonce is accepted for
      the public key, and the public key survives its compression. */
  lemma SignatureVerifies(c: Params, h: Hashes, msg: seq<Byte>, d: nat)
    requires Legal(c) && Bounded(h) && 0 < d < c.n && h.nonce(d, msg) != 0
    ensures var q := Times(c, d, c.g); var (x, s) := Halves(c, h, msg, d);
      && q.At? && 0 <= q.x < c.p && q.y != 0 && OnCurve(c, q)
      && Accepts(c, h, msg, q, x, s)
  {
    hide AdditionLaws, Two, IsPrime, Pow256, Times, OnCurve, PointAdd, BitSum;
    NonceInRange(c, h, msg, d);
    var k0 := h.nonce(d, msg);
    CorrectedNonce(c, k0);
    MultipleInRange(c, d);
    TimesOnCurve(c, d, c.g);
    var r := Times(c, k0, c.g);
    var k := if r.y % 2 != 0 then c.n - k0 else k0;
    var e := h.challenge(r.x, Times(c, d, c.g), msg);
    ChallengeInRange(c, h, r.x, Times(c, d, c.g), msg);
    EquationInBits(c, k, e, d);
  }

  /** The same equation as verification computes it. */
  lemma EquationInBits(c: Params, k: nat, e: nat, d: nat)
    requires Legal(c) && e <= c.n && 0 < d < c.n
    ensures var s := (k + e * d) % c.n;
      && 0 <= s < c.n
      && PointAdd(c, BitSum(c, c.g, s, c.bits), BitSum(c, Times(c, d, c.g), c.n - e, c.bits)) == Times(c, k, c.g)
  {
    hide AdditionLaws, Two, IsPrime, Pow256, Times, OnCurve, PointAdd, BitSum;
    EquationHolds(c, k, e, d);
    BitSumIsTimes(c, c.g, (k + e * d) % c.n, c.bits);
    TimesOnCurve(c, d, c.g);
    BitSumIsTimes(c, Times(c, d, c.g), c.n - e, c.bits);
  }

  // ----- soundness -----

  /** k is the nonce of a signature with halves r and s by the key d, for the challenge e. */
  ghost predicate NonceOf(c: Params, e: nat, d: nat, r: int, s: int, k: nat)
    requires c.p >= 2 && c.n >= 2
  {
    && 0 < k < c.n && s == (k + e * d) % c.n
    && Times(c, k, c.g).At? && Times(c, k, c.g).x == r && Times(c, k, c.g).y % 2 == 0
  }

  /** Some nonce with an even nonce point makes the signature. */
  ghost predicate Signable(c: Params, h: Hashes, msg: seq<Byte>, d: nat, r: int, s: int)
    requires Legal(c)
  {
    exists k: nat :: NonceOf(c, h.challenge(r, Times(c, d, c.g), msg), d, r, s, k)
  }

  lemma ChallengeCancels(n: int, e: nat, d: nat)
    requires 0 < n && e <= n
    ensures (n - e) * d >= 0 && (n - e) * d + e * d == d * n
  {
    Distribute(n, e, d);
    assert (n - e) * d >= 0;
  }

  /** The nonce of an accepted pair is s - e d modulo the order. */
  lemma NonceFromScalar(n: int, e: nat, d: nat, s: int) returns (k: nat)
    requires 0 < n && e <= n && 0 <= s < n
    ensures k < n && s == (k + e * d) % n
  {
    ChallengeCancels(n, e, d);
    var v, w := s + (n - e) * d, e * d;
    ModIdempotent(v, n);
    k := v % n;
    ModAdd(k, v, w, w, n);
    ModShift(s, d, n);
    ModUnique(s, 0, s, n);
  }

  /** Verification accepts exactly the pairs that signing with the secret key can make from some
      nonce: both directions. */
  lemma AcceptsExactly(c: Params, h: Hashes, msg: seq<Byte>, d: nat, r: int, s: int)
    requires Legal(c) && Bounded(h) && 0 < d < c.n
    ensures Accepts(c, h, msg, Times(c, d, c.g), r, s) <==> Signable(c, h, msg, d, r, s)
  {
    hide AdditionLaws, Two, IsPrime, Pow256, Times, OnCurve, PointAdd, BitSum, Bounded;
    var q := Times(c, d, c.g);
    var e := h.challenge(r, q, msg);
    ChallengeInRange(c, h, r, q, msg);
    MultipleInRange(c, d);
    if Accepts(c, h, msg, q, r, s) {
      var k := NonceFromScalar(c.n, e, d, s);
      EquationInBits(c, k, e, d);
      assert Times(c, k, c.g).At?;
      TimesZero(c);
      assert NonceOf(c, e, d, r, s, k);
    }
    if Signable(c, h, msg, d, r, s) {
      var k: nat :| NonceOf(c, e, d, r, s, k);
      EquationInBits(c, k, e, d);
      MultipleInRange(c, k);
    }
  }

  lemma TimesZero(c: Params)
    requires c.p >= 2
    ensures Times(c, 0, c.g) == Infinity
  {}

  /** For one message, key and first half at most one second half is accepted. */
  lemma AcceptedOnce(c: Params, h: Hashes, msg: seq<Byte>, d: nat, r: int, s: int, s': int)
    requires Legal(c) && Bounded(h) && 0 < d < c.n
    requires Accepts(c, h, msg, Times(c, d, c.g), r, s) && Accepts(c, h, msg, Times(c, d, c.g), r, s')
    ensures s == s'
  {
    hide AdditionLaws, Two, IsPrime, Pow256, Times, OnCurve, PointAdd, BitSum, Bounded, Accepts;
    AcceptsExactly(c, h, msg, d, r, s);
    AcceptsExactly(c, h, msg, d, r, s');
    var e := h.challenge(r, Times(c, d, c.g), msg);
    var k: nat :| NonceOf(c, e, d, r, s, k);
    var k': nat :| NonceOf(c, e, d, r, s', k');
    MultipleByParity(c, k, k');
  }

  lemma ChallengeInRange(c: Params, h: Hashes, x: int, q: Point, msg: seq<Byte>)
    requires Legal(c) && Bounded(h)
    ensures h.challenge(x, q, msg) <= c.n
  {
    hide AdditionLaws, Two, IsPrime, Pow256, Times, OnCurve;
  }

  /** Sign, publish the compressed key, verify: accepted for every message and every key in
      1 .. n-1 whose nonce is not zero. */
  method SignThenVerify(c: Params, h: Hashes, msg: seq<Byte>, d: nat) returns (res: VerifyResult)
    requires Legal(c) && Bounded(h) && 0 < d < c.n && h.nonce(d, msg) != 0
    ensures res == Verdict(true)
  {
    hide AdditionLaws, Two, IsPrime, Pow256, Times, OnCurve, PointAdd, Accepts, Decompresses, Halves, BytesFromPoint;
    SignatureVerifies(c, h, msg, d);
    var signed := SchnorrSign(c, h, msg, d);
    ScalarFits(c, d);
    var q := PointMul(c, c.g, d);
    var pubkey := BytesFromPoint(q);
    KeyDecompresses(c, q);
    ghost var (x, s) := Halves(c, h, msg, d);
    SplitSignature(c, x, s, signed.sig);
    res := SchnorrVerify(c, h, msg, pubkey, signed.sig);
  }

  lemma KeyDecompresses(c: Params, q: Point)
    requires Legal(c) && q.At? && OnCurve(c, q) && q.y != 0
    ensures Decompresses(c, BytesFromPoint(q), q) && |BytesFromPoint(q)| == 96
  {
    hide AdditionLaws, Two, IsPrime, Pow256, Times, Rhs, EncodedX, BytesFromPoint;
    CompressedFields(q);
    PointFound(c, BytesFromPoint(q), q);
  }

  lemma SplitSignature(c: Params, x: int, s: int, sig: seq<Byte>)
    requires Legal(c) && 0 <= x < c.p && 0 <= s < c.n && sig == ToBytes(x, 95) + ToBytes(s, 95)
    ensures |sig| == 190 && FromBytes(sig[..95]) == x && FromBytes(sig[95..]) == s
  {
    hide AdditionLaws, Two, IsPrime, Pow256, Times, OnCurve, ToBytes, FromBytes;
    assert sig[..95] == ToBytes(x, 95) && sig[95..] == ToBytes(s, 95);
    FromToBytes(x, 95);
    FromToBytes(s, 95);
  }
}
