/** Fermat's little theorem, by the binomial theorem: (a + 1)^p = a^p + 1 modulo a prime p. */
module Fermat {
  import opened Powers
  import opened ModArith

  function Binomial(n: nat, k: nat): nat {
    if k == 0 then 1
    else if n == 0 then 0
    else Binomial(n - 1, k - 1) + Binomial(n - 1, k)
  }

  lemma {:induction false} BinomialBeyond(n: nat, k: nat)
    requires k > n
    ensures Binomial(n, k) == 0
  {
    if n > 0 {
      BinomialBeyond(n - 1, k - 1);
      BinomialBeyond(n - 1, k);
    }
  }

  lemma {:induction false} BinomialFull(n: nat)
    ensures Binomial(n, n) == 1
  {
    if n > 0 {
      BinomialFull(n - 1);
      BinomialBeyond(n - 1, n);
    }
  }

  lemma {:induction false} Absorption(n: nat, k: nat)
    requires n >= 1 && k >= 1
    ensures k * Binomial(n, k) == n * Binomial(n - 1, k - 1)
  {
    var b := Binomial(n - 1, k - 1);
    if n == 1 {
      if k >= 2 {
        BinomialBeyond(0, k - 1);
        BinomialBeyond(1, k);
      }
    } else if k == 1 {
      Absorption(n - 1, 1);
    } else {
      Absorption(n - 1, k - 1);
      Absorption(n - 1, k);
      AbsorptionStep(n, k, b, Binomial(n - 1, k), Binomial(n - 2, k - 2), Binomial(n - 2, k - 1));
    }
  }

  lemma AbsorptionStep(n: int, k: int, b: int, c: int, d: int, e: int)
    requires (k - 1) * b == (n - 1) * d && k * c == (n - 1) * e && b == d + e
    ensures k * (b + c) == n * b
  {
    assert k * (b + c) == (k - 1) * b + b + k * c;
    assert (n - 1) * d + (n - 1) * e == (n - 1) * (d + e);
    assert (n - 1) * b + b == n * b;
  }

  /** A prime divides its inner binomial coefficients. */
  lemma PrimeDividesBinomial(p: int, k: int)
    requires IsPrime(p) && 0 < k < p
    ensures Binomial(p, k) % p == 0
  {
    hide Binomial, IsPrime;
    Absorption(p, k);
    SmallFactor(p, k, Binomial(p, k), Binomial(p - 1, k - 1));
  }

  lemma SmallFactor(p: int, k: int, c: int, d: int)
    requires IsPrime(p) && 0 < k < p && k * c == p * d
    ensures c % p == 0
  {
    hide IsPrime;
    ModZero(d, p);
    assert d * p == p * d;
    ModUnique(k, 0, k, p);
    Euclid(p, k, c);
  }

  /** The first `k` terms of the binomial expansion of (a + 1)^n. */
  function Row(n: nat, a: int, k: nat): int {
    if k == 0 then 0 else Row(n, a, k - 1) + Binomial(n, k - 1) * Pow(a, k - 1)
  }

  lemma {:induction false} RowStep(n: nat, a: int, k: nat)
    requires n >= 1
    ensures Row(n, a, k + 1) == Row(n - 1, a, k + 1) + a * Row(n - 1, a, k)
  {
    if k == 0 {
      assert Row(n, a, 1) == Row(n, a, 0) + Binomial(n, 0) * Pow(a, 0);
      assert Row(n - 1, a, 1) == Row(n - 1, a, 0) + Binomial(n - 1, 0) * Pow(a, 0);
    } else {
      RowStep(n, a, k - 1);
      var x, y, w := Binomial(n - 1, k - 1), Binomial(n - 1, k), Pow(a, k - 1);
      RowTerm(a, x, y, w, Row(n - 1, a, k - 1));
    }
  }

  lemma RowTerm(a: int, x: int, y: int, w: int, r: int)
    ensures (x + y) * (a * w) == y * (a * w) + a * (x * w)
    ensures a * (r + x * w) == a * r + a * (x * w)
  {
    Assoc(x, a, w);
    Assoc(a, x, w);
  }

  lemma {:induction false} BinomialTheorem(n: nat, a: int)
    ensures Row(n, a, n + 1) == Pow(a + 1, n)
  {
    if n == 0 {
      assert Row(0, a, 1) == Row(0, a, 0) + Binomial(0, 0) * Pow(a, 0);
    } else {
      BinomialTheorem(n - 1, a);
      RowStep(n, a, n);
      BinomialBeyond(n - 1, n);
      var r := Row(n - 1, a, n);
      assert (a + 1) * r == r + a * r;
    }
  }

  lemma {:induction false} InnerTermsVanish(p: int, a: int, k: nat)
    requires IsPrime(p) && 1 <= k <= p
    ensures Row(p, a, k) % p == 1
  {
    if k == 1 {
      assert Row(p, a, 1) == Row(p, a, 0) + Binomial(p, 0) * Pow(a, 0);
      ModUnique(1, 0, 1, p);
    } else {
      InnerTermsVanish(p, a, k - 1);
      PrimeDividesBinomial(p, k - 1);
      var b, w := Binomial(p, k - 1), Pow(a, k - 1);
      ModUnique(0, 0, 0, p);
      ModMul(b, 0, w, w, p);
      ModUnique(1, 0, 1, p);
      ModAdd(Row(p, a, k - 1), 1, b * w, 0, p);
    }
  }

  lemma {:induction false} FermatNatural(p: int, a: nat)
    requires IsPrime(p)
    ensures Pow(a, p) % p == a % p
  {
    if a == 0 {
      assert Pow(0, p) == 0;
    } else {
      hide Binomial, IsPrime;
      var b := a - 1;
      FermatNatural(p, b);
      BinomialTheorem(p, b);
      InnerTermsVanish(p, b, p);
      BinomialFull(p);
      ModUnique(1, 0, 1, p);
      ModAdd(Row(p, b, p), 1, Pow(b, p), b, p);
    }
  }

  /** a^(p-1) = 1 modulo p for every a not divisible by p. */
  lemma FermatLittle(p: int, a: int)
    requires IsPrime(p) && a % p != 0
    ensures Pow(a, p - 1) % p == 1
  {
    var r := a % p;
    ModIdempotent(a, p);
    PowMod(a, r, p - 1, p);
    FermatNatural(p, r);
    var w := Pow(r, p - 1);
    assert Pow(r, p) == r * w;
    ModSub(r * w, r, r, r, p);
    ModUnique(0, 0, 0, p);
    assert r * w - r == r * (w - 1);
    Euclid(p, r, w - 1);
    ModUnique(1, 0, 1, p);
    ModAdd(w - 1, 0, 1, 1, p);
  }
}
