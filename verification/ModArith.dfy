/** Arithmetic modulo a prime: congruences, powers, inverses and Euclid's lemma. */
module ModArith {
  import opened Powers

  // ----- congruences -----

  lemma ModUnique(x: int, q: int, r: int, p: int)
    requires p > 0 && x == q * p + r && 0 <= r < p
    ensures x % p == r && x / p == q
  {
    var q', r' := x / p, x % p;
    Distribute(q, q', p);
    MulBound(q - q', p);
  }

  lemma MulBound(k: int, p: int)
    requires p > 0
    ensures k >= 1 ==> k * p >= p
    ensures k <= -1 ==> k * p <= -p
    ensures k >= 2 ==> k * p >= 2 * p
  {}

  lemma ModShift(x: int, k: int, p: int)
    requires p > 0
    ensures (x + k * p) % p == x % p
  {
    assert x + k * p == (x / p + k) * p + x % p;
    ModUnique(x + k * p, x / p + k, x % p, p);
  }

  /** Equal remainders: the difference is a multiple. */
  lemma ModDifference(a: int, b: int, p: int) returns (k: int)
    requires p > 0 && a % p == b % p
    ensures a == b + k * p
  {
    k := a / p - b / p;
    assert a == (a / p) * p + a % p && b == (b / p) * p + b % p;
    Distribute(a / p, b / p, p);
  }

  lemma Distribute(a: int, b: int, p: int)
    ensures (a - b) * p == a * p - b * p
  {}

  lemma ModIdempotent(a: int, p: int)
    requires p > 0
    ensures (a % p) % p == a % p && 0 <= a % p < p
  {
    ModUnique(a % p, 0, a % p, p);
  }

  lemma ModMul(a: int, a': int, b: int, b': int, p: int)
    requires p > 0 && a % p == a' % p && b % p == b' % p
    ensures (a * b) % p == (a' * b') % p
  {
    var k := ModDifference(a, a', p);
    var l := ModDifference(b, b', p);
    Expand(a', k, b', l, p);
    ModShift(a' * b', a' * l + b' * k + k * l * p, p);
  }

  lemma Expand(a: int, k: int, b: int, l: int, p: int)
    ensures (a + k * p) * (b + l * p) == a * b + (a * l + b * k + k * l * p) * p
  {
    assert (a + k * p) * (b + l * p) == a * b + a * (l * p) + (k * p) * b + (k * p) * (l * p);
    assert a * (l * p) == a * l * p;
    assert (k * p) * b == b * k * p;
    assert (k * p) * (l * p) == k * l * p * p;
  }

  lemma ModAdd(a: int, a': int, b: int, b': int, p: int)
    requires p > 0 && a % p == a' % p && b % p == b' % p
    ensures (a + b) % p == (a' + b') % p
  {
    var k := ModDifference(a, a', p);
    var l := ModDifference(b, b', p);
    assert a + b == a' + b' + (k + l) * p by { Distribute(k, -l, p); }
    ModShift(a' + b', k + l, p);
  }

  lemma ModSub(a: int, a': int, b: int, b': int, p: int)
    requires p > 0 && a % p == a' % p && b % p == b' % p
    ensures (a - b) % p == (a' - b') % p
  {
    var k := ModDifference(a, a', p);
    var l := ModDifference(b, b', p);
    Distribute(k, l, p);
    assert a - b == (a' - b') + (k - l) * p;
    ModShift(a' - b', k - l, p);
  }

  lemma ModZero(k: int, p: int)
    requires p > 0
    ensures (k * p) % p == 0
  {
    ModShift(0, k, p);
    ModUnique(0, 0, 0, p);
  }

  // ----- powers -----

  lemma {:induction false} PowAdd(b: int, e: nat, f: nat)
    ensures Pow(b, e + f) == Pow(b, e) * Pow(b, f)
  {
    if e > 0 {
      PowAdd(b, e - 1, f);
      Assoc(b, Pow(b, e - 1), Pow(b, f));
    }
  }

  lemma Assoc(a: int, b: int, c: int)
    ensures a * b * c == a * (b * c)
  {}

  lemma {:induction false} PowMul(b: int, e: nat, f: nat)
    ensures e * f >= 0
    ensures Pow(Pow(b, e), f) == Pow(b, e * f)
  {
    if f > 0 {
      PowMul(b, e, f - 1);
      assert e * f == e + e * (f - 1);
      PowAdd(b, e, e * (f - 1));
    }
  }

  lemma Regroup(a: int, b: int, x: int, y: int)
    ensures a * b * (x * y) == a * x * (b * y)
  {
    Assoc(a, b, x * y);
    Assoc(a, x, b * y);
    Assoc(b, x, y);
    Assoc(x, b, y);
  }

  lemma {:induction false} PowProduct(a: int, b: int, e: nat)
    ensures Pow(a * b, e) == Pow(a, e) * Pow(b, e)
  {
    if e > 0 {
      PowProduct(a, b, e - 1);
      Regroup(a, b, Pow(a, e - 1), Pow(b, e - 1));
    }
  }

  lemma {:induction false} PowMod(a: int, b: int, e: nat, p: int)
    requires p > 0 && a % p == b % p
    ensures Pow(a, e) % p == Pow(b, e) % p
  {
    if e > 0 {
      PowMod(a, b, e - 1, p);
      ModMul(a, b, Pow(a, e - 1), Pow(b, e - 1), p);
    }
  }

  // ----- primes -----

  ghost predicate IsPrime(p: int)
    ensures IsPrime(p) ==> p >= 2
  {
    p >= 2 && forall d :: 1 < d < p ==> p % d != 0
  }

  /** Every nonzero residue modulo a prime has an inverse. */
  lemma {:induction false} Inverse(p: int, a: int) returns (u: int)
    requires IsPrime(p) && 0 < a < p
    ensures (u * a) % p == 1
    decreases a
  {
    if a == 1 {
      u := 1;
      ModUnique(1, 0, 1, p);
    } else {
      var q, r := p / a, p % a;
      assert p == q * a + r;
      var v := Inverse(p, r);
      u := -q * v;
      // u * a = -v * q * a = -v * (p - r) = v * r - v * p
      assert u * a == v * r + (-v) * p by {
        assert -q * v * a == -v * (q * a);
        assert -v * (p - r) == v * r + (-v) * p;
      }
      ModShift(v * r, -v, p);
    }
  }

  /** A prime that divides a product divides a factor. */
  lemma Euclid(p: int, a: int, b: int)
    requires IsPrime(p) && (a * b) % p == 0
    ensures a % p == 0 || b % p == 0
  {
    if a % p != 0 {
      ModIdempotent(a, p);
      var u := Inverse(p, a % p);
      ModMul(u, u, a % p, a, p);
      // b = (u * a) * b = u * (a * b) = u * 0
      assert (u * a) % p == 1;
      ModUnique(1, 0, 1, p);
      ModMul(u * a, 1, b, b, p);
      assert (u * a) * b == u * (a * b);
      ModUnique(0, 0, 0, p);
      ModMul(u, u, a * b, 0, p);
    }
  }

  /** Equal squares modulo a prime: equal or opposite. */
  lemma EqualSquares(p: int, x: int, y: int)
    requires IsPrime(p) && 0 <= x < p && 0 <= y < p && (x * x) % p == (y * y) % p
    ensures y == x || y == p - x || (x == 0 && y == 0)
  {
    ModSub(x * x, y * y, y * y, y * y, p);
    assert (x - y) * (x + y) == x * x - y * y;
    ModUnique(0, 0, 0, p);
    Euclid(p, x - y, x + y);
    if (x - y) % p == 0 {
      SmallMultiple(x - y, p);
    } else {
      SmallMultiple(x + y, p);
    }
  }

  lemma SmallMultiple(d: int, p: int)
    requires p > 0 && d % p == 0 && -p < d < 2 * p
    ensures d == 0 || d == p
  {
    assert d == (d / p) * p;
    MulBound(d / p, p);
  }

  /** Only 1 and -1 square to 1. */
  lemma RootsOfOne(p: int, y: int)
    requires IsPrime(p) && (y * y) % p == 1
    ensures y % p == 1 || y % p == p - 1
  {
    ModIdempotent(y, p);
    ModMul(y % p, y, y % p, y, p);
    ModUnique(1, 0, 1, p);
    EqualSquares(p, 1, y % p);
  }
}
