/** Square roots modulo a prime: the Tonelli-Shanks algorithm of the reference signature scheme. */
module SquareRoot {
  import opened Powers
  import opened ModArith
  import opened Fermat
  import opened NonResidue

  /** Modular exponentiation, with the result in 0 .. p-1. */
  function PowM(b: int, e: nat, p: int): (r: int)
    requires p > 0
    ensures 0 <= r < p
  {
    ModIdempotent(Pow(b, e), p);
    Pow(b, e) % p
  }

  function LegendreSymbol(a: int, p: int): int
    requires p >= 2
  {
    var ls := PowM(a, (p - 1) / 2, p);
    if ls == p - 1 then -1 else ls
  }

  function Two(k: nat): (r: nat)
    ensures r >= 1
  {
    PowPositive(2, k);
    Pow(2, k)
  }

  lemma {:induction false} TwoAdd(k: nat, l: nat)
    ensures Two(k) * Two(l) == Two(k + l)
  {
    if k > 0 {
      TwoAdd(k - 1, l);
      Assoc(2, Two(k - 1), Two(l));
    }
  }

  // ----- one round of the search -----

  lemma MinusOneSquared(p: int)
    requires p >= 2
    ensures ((p - 1) * (p - 1)) % p == 1
  {
    assert (p - 1) * (p - 1) == (p - 2) * p + 1;
    ModUnique((p - 1) * (p - 1), p - 2, 1, p);
  }

  lemma PowSquare(b: int, k: nat)
    requires k >= 1
    ensures Pow(b, Two(k)) == Pow(b * b, Two(k - 1))
    ensures Pow(b, Two(k)) == Pow(b, Two(k - 1)) * Pow(b, Two(k - 1))
  {
    var h := Two(k - 1);
    PowAdd(b, h, h);
    PowProduct(b, b, h);
  }

  /** b = c^(2^(m-i-1)), raised to 2^i, is c^(2^(m-1)). */
  lemma PowChain(p: int, c: int, m: nat, i: nat)
    requires p > 0 && 1 <= i < m
    ensures Pow(PowM(c, Two(m - i - 1), p), Two(i)) % p == Pow(c, Two(m - 1)) % p
  {
    var e := Two(m - i - 1);
    ModIdempotent(Pow(c, e), p);
    PowMod(PowM(c, e, p), Pow(c, e), Two(i), p);
    PowMul(c, e, Two(i));
    TwoAdd(m - i - 1, i);
  }

  /** What the search keeps: x^2 = a t, t^(2^(m-1)) = 1 and c^(2^(m-1)) = -1. */
  ghost predicate Searching(p: int, a: int, x: int, t: int, c: int, m: nat)
    requires p > 0
  {
    && m >= 1
    && 0 <= x < p && 0 <= t < p
    && (x * x) % p == (a * t) % p
    && Pow(t, Two(m - 1)) % p == 1
    && Pow(c, Two(m - 1)) % p == p - 1
  }

  /** `i` is the least positive exponent with t^(2^i) = 1. */
  ghost predicate Least(p: int, t: int, i: nat)
    requires p > 0
  {
    && i >= 1
    && PowM(t, Two(i), p) == 1
    && forall k: nat :: 1 <= k < i ==> PowM(t, Two(k), p) != 1
  }

  /** Half way to 1, the power of t is -1. */
  lemma HalfwayIsMinusOne(p: int, t: int, i: nat)
    requires IsPrime(p) && 0 <= t < p && t != 1 && Least(p, t, i)
    ensures Pow(t, Two(i - 1)) % p == p - 1
  {
    hide IsPrime;
    PowSquare(t, i);
    RootsOfOne(p, Pow(t, Two(i - 1)));
    if i == 1 {
      assert Pow(t, 1) == t * Pow(t, 0) == t;
      ModUnique(t, 0, t, p);
    } else {
      assert PowM(t, Two(i - 1), p) != 1;
    }
  }

  lemma SearchStep(p: int, a: int, x: int, t: int, c: int, m: nat, i: nat)
    requires IsPrime(p) && Searching(p, a, x, t, c, m) && t != 1 && Least(p, t, i) && 1 <= i < m
    ensures var b := PowM(c, Two(m - i - 1), p);
      Searching(p, a, (x * b) % p, (t * b * b) % p, (b * b) % p, i)
  {
    hide IsPrime, Least, Two, Pow;
    var b := PowM(c, Two(m - i - 1), p);
    PowChain(p, c, m, i);
    HalfwayIsMinusOne(p, t, i);
    ModIdempotent(x * b, p);
    ModIdempotent(t * b * b, p);
    StepPowers(p, t, b, i);
    StepSquare(p, a, x, t, b);
  }

  lemma StepPowers(p: int, t: int, b: int, i: nat)
    requires p >= 2 && i >= 1
    requires Pow(b, Two(i)) % p == p - 1 && Pow(t, Two(i - 1)) % p == p - 1
    ensures Pow((b * b) % p, Two(i - 1)) % p == p - 1
    ensures Pow((t * b * b) % p, Two(i - 1)) % p == 1
  {
    hide Two, Pow;
    var h := Two(i - 1);
    PowSquare(b, i);
    ModIdempotent(b * b, p);
    PowMod((b * b) % p, b * b, h, p);
    Assoc(t, b, b);
    ModIdempotent(t * b * b, p);
    PowMod((t * b * b) % p, t * (b * b), h, p);
    PowProduct(t, b * b, h);
    ModUnique(p - 1, 0, p - 1, p);
    ModMul(Pow(t, h), p - 1, Pow(b * b, h), p - 1, p);
    MinusOneSquared(p);
  }

  lemma StepSquare(p: int, a: int, x: int, t: int, b: int)
    requires p > 0 && (x * x) % p == (a * t) % p
    ensures ((x * b) % p * ((x * b) % p)) % p == (a * ((t * b * b) % p)) % p
  {
    ModIdempotent(x * b, p);
    ModIdempotent(t * b * b, p);
    ModMul((x * b) % p, x * b, (x * b) % p, x * b, p);
    Regroup(x, b, x, b);
    ModMul(x * x, a * t, b * b, b * b, p);
    Assoc(a, t, b * b);
    Assoc(t, b, b);
    ModMul(a, a, (t * b * b) % p, t * b * b, p);
  }

  // ----- the start of the search -----

  lemma SearchStart(p: int, a: int, z: int, q: nat, s: nat)
    requires IsPrime(p) && s >= 1 && q % 2 == 1 && p - 1 == q * Two(s)
    requires Pow(a, (p - 1) / 2) % p == 1 && Pow(z, (p - 1) / 2) % p == p - 1
    ensures Searching(p, a, PowM(a, (q + 1) / 2, p), PowM(a, q, p), PowM(z, q, p), s)
  {
    hide IsPrime;
    HalfExponent(p, q, s);
    TopPower(p, a, q, s);
    TopPower(p, z, q, s);
    var k := (q + 1) / 2;
    var x, t := PowM(a, k, p), PowM(a, q, p);
    ModIdempotent(Pow(a, k), p);
    ModIdempotent(Pow(a, q), p);
    ModMul(x, Pow(a, k), x, Pow(a, k), p);
    PowAdd(a, k, k);
    assert Pow(a, q + 1) == a * Pow(a, q);
    ModMul(a, a, t, Pow(a, q), p);
  }

  lemma HalfExponent(p: int, q: nat, s: nat)
    requires s >= 1 && p - 1 == q * Two(s)
    ensures q * Two(s - 1) == (p - 1) / 2
  {
    assert q * Two(s) == 2 * (q * Two(s - 1)) by { assert Two(s) == 2 * Two(s - 1); }
  }

  lemma TopPower(p: int, a: int, q: nat, s: nat)
    requires p > 0 && s >= 1 && q * Two(s - 1) >= 0
    ensures Pow(PowM(a, q, p), Two(s - 1)) % p == Pow(a, q * Two(s - 1)) % p
  {
    ModIdempotent(Pow(a, q), p);
    PowMod(PowM(a, q, p), Pow(a, q), Two(s - 1), p);
    PowMul(a, q, Two(s - 1));
  }

  // ----- what the result means -----

  /** `r` lists exactly the square roots of `a` among 0 .. p-1. */
  ghost predicate AllRoots(p: int, a: int, r: seq<int>)
    requires p > 0
  {
    && (forall i :: 0 <= i < |r| ==> 0 <= r[i] < p)
    && (forall y :: 0 <= y < p ==> (y in r <==> (y * y) % p == a % p))
  }

  lemma BothRoots(p: int, a: int, x: int)
    requires IsPrime(p) && 0 <= x < p && a % p != 0 && (x * x) % p == a % p
    ensures AllRoots(p, a, [x, p - x])
  {
    hide IsPrime;
    if x == 0 { ModUnique(0, 0, 0, p); }
    Opposite(p, x);
    forall y | 0 <= y < p ensures y in [x, p - x] <==> (y * y) % p == a % p {
      if (y * y) % p == a % p { EqualSquares(p, x, y); }
    }
  }

  lemma Opposite(p: int, x: int)
    requires p > 0
    ensures ((p - x) * (p - x)) % p == (x * x) % p
  {
    assert (p - x) * (p - x) == x * x + (p - 2 * x) * p;
    ModShift(x * x, p - 2 * x, p);
  }

  lemma ZeroRoot(p: int, a: int)
    requires IsPrime(p) && a % p == 0
    ensures AllRoots(p, a, [0])
  {
    ModUnique(0, 0, 0, p);
    forall y | 0 <= y < p ensures y in [0] <==> (y * y) % p == a % p {
      if (y * y) % p == 0 {
        Euclid(p, y, y);
        ModUnique(y, 0, y, p);
      }
    }
  }

  /** A square has Legendre symbol 1, so a residue with another symbol has no root. */
  lemma SquareHasSymbolOne(p: int, a: int, y: int)
    requires IsPrime(p) && p % 2 == 1 && a % p != 0 && (y * y) % p == a % p
    ensures Pow(a, (p - 1) / 2) % p == 1
  {
    hide IsPrime;
    var h := (p - 1) / 2;
    if y % p == 0 {
      ModUnique(0, 0, 0, p);
      ModMul(y, 0, y, 0, p);
    }
    FermatLittle(p, y);
    PowMod(a, y * y, h, p);
    PowProduct(y, y, h);
    PowAdd(y, h, h);
  }

  lemma NoRoots(p: int, a: int)
    requires IsPrime(p) && p % 2 == 1 && a % p != 0 && Pow(a, (p - 1) / 2) % p != 1
    ensures AllRoots(p, a, [])
  {
    hide IsPrime;
    forall y | 0 <= y < p ensures (y * y) % p != a % p {
      if (y * y) % p == a % p { SquareHasSymbolOne(p, a, y); }
    }
  }

  /** Primes that are 3 modulo 4: the root is a power. */
  lemma PowerRoot(p: int, a: int)
    requires IsPrime(p) && p % 4 == 3 && Pow(a, (p - 1) / 2) % p == 1
    ensures var x := PowM(a, (p + 1) / 4, p); (x * x) % p == a % p
  {
    hide IsPrime, Pow;
    var k, h := (p + 1) / 4, (p - 1) / 2;
    QuarterAndHalf(p, k, h);
    var x := PowM(a, k, p);
    ModIdempotent(Pow(a, k), p);
    ModMul(x, Pow(a, k), x, Pow(a, k), p);
    PowAdd(a, k, k);
    NextPower(a, h);
    ModUnique(1, 0, 1, p);
    ModMul(a, a, Pow(a, h), 1, p);
    assert a * 1 == a;
  }

  lemma QuarterAndHalf(p: int, k: int, h: int)
    requires p % 4 == 3 && k == (p + 1) / 4 && h == (p - 1) / 2
    ensures k + k == h + 1
  {}

  lemma NextPower(a: int, e: nat)
    ensures Pow(a, e + 1) == a * Pow(a, e)
  {}

  lemma RootAtEnd(p: int, a: int, x: int, c: int, m: nat)
    requires p > 0 && Searching(p, a, x, 1, c, m)
    ensures (x * x) % p == a % p
  {}

  // ----- the algorithm -----

  /** p - 1 = q 2^s with q odd. */
  method SplitOutTwos(p: int) returns (q: nat, s: nat)
    requires p >= 3 && p % 2 == 1
    ensures q % 2 == 1 && s >= 1 && p - 1 == q * Two(s)
  {
    q, s := p - 1, 0;
    while q % 2 == 0
      invariant q >= 1 && p - 1 == q * Two(s)
      invariant s == 0 ==> q == p - 1
      decreases q
    {
      Assoc(q / 2, 2, Two(s));
      s := s + 1;
      q := q / 2;
    }
  }

  /** The least positive z whose symbol is -1; there is one for every odd prime. */
  method FindNonResidue(p: int) returns (z: nat)
    requires IsPrime(p) && p % 2 == 1
    ensures LegendreSymbol(z, p) == -1 && Pow(z, (p - 1) / 2) % p == p - 1
    ensures forall y :: 1 <= y < z ==> LegendreSymbol(y, p) != -1
  {
    hide IsPrime;
    NonResidueExists(p);
    ghost var w :| IsNonResidue(p, w);
    z := 1;
    while LegendreSymbol(z, p) != -1
      invariant 1 <= z <= w
      invariant forall y :: 1 <= y < z ==> LegendreSymbol(y, p) != -1
      decreases w - z
    {
      z := z + 1;
    }
    SymbolMinusOne(z, p);
  }

  lemma SymbolMinusOne(z: int, p: int)
    requires p >= 2 && LegendreSymbol(z, p) == -1
    ensures Pow(z, (p - 1) / 2) % p == p - 1
  {}

  /** Least i with t^(2^i) = 1, tried in the order 1, 2, ... below m. */
  method FindExponent(p: int, t: int, m: nat) returns (i: nat)
    requires p >= 2 && 0 <= t < p && t != 1 && m >= 1 && Pow(t, Two(m - 1)) % p == 1
    ensures Least(p, t, i) && 1 <= i < m
  {
    assert m >= 2 by { ModUnique(t, 0, t, p); assert Pow(t, 1) == t * Pow(t, 0) == t; }
    var e;
    i, e := 0, 2;
    var j := 1;
    while j < m
      invariant 1 <= j < m && i == j - 1 && e == Two(j)
      invariant forall k: nat :: 1 <= k < j ==> PowM(t, Two(k), p) != 1
    {
      i := j;
      if PowM(t, e, p) == 1 {
        return;
      }
      e := e * 2;
      j := j + 1;
    }
    assert false;
  }

  /** Tonelli-Shanks: for every prime and every a it terminates and returns exactly the square roots
      of a: two of them for a nonzero a of Legendre symbol 1, none for any other nonzero a (Euler's
      criterion). */
  method PrimeModSqrt(a0: int, p: int) returns (r: seq<int>)
    requires IsPrime(p)
    ensures AllRoots(p, a0, r)
    ensures |r| == if a0 % p == 0 || p == 2 then 1 else if LegendreSymbol(a0, p) == 1 then 2 else 0
  {
    hide IsPrime, Searching, Least, Two, AllRoots, Pow;
    ModIdempotent(a0, p);
    PowMod(a0, a0 % p, (p - 1) / 2, p);
    var a := a0 % p;
    SameRoots(p, a0, a);
    if a == 0 {
      ZeroRoot(p, a);
      return [0];
    }
    if p == 2 {
      RootModTwo(a);
      return [a];
    }
    OddPrime(p);
    if LegendreSymbol(a, p) != 1 {
      NoRoots(p, a);
      return [];
    }
    if p % 4 == 3 {
      var x := PowM(a, (p + 1) / 4, p);
      PowerRoot(p, a);
      BothRoots(p, a, x);
      return [x, p - x];
    }
    var q, s := SplitOutTwos(p);
    var z := FindNonResidue(p);
    var c := PowM(z, q, p);
    var x := PowM(a, (q + 1) / 2, p);
    var t := PowM(a, q, p);
    var m := s;
    SearchStart(p, a, z, q, s);
    while t != 1
      invariant Searching(p, a, x, t, c, m)
      decreases m
    {
      SearchFacts(p, a, x, t, c, m);
      var i := FindExponent(p, t, m);
      SearchStep(p, a, x, t, c, m, i);
      var b := PowM(c, Two(m - i - 1), p);
      x := (x * b) % p;
      t := (t * b * b) % p;
      c := (b * b) % p;
      m := i;
    }
    SearchFacts(p, a, x, t, c, m);
    RootAtEnd(p, a, x, c, m);
    BothRoots(p, a, x);
    return [x, p - x];
  }

  lemma SearchFacts(p: int, a: int, x: int, t: int, c: int, m: nat)
    requires p > 0 && Searching(p, a, x, t, c, m)
    ensures m >= 1 && 0 <= x < p && 0 <= t < p && Pow(t, Two(m - 1)) % p == 1
  {}

  lemma SameRoots(p: int, a0: int, a: int)
    requires p > 0 && a % p == a0 % p
    ensures forall r :: AllRoots(p, a, r) <==> AllRoots(p, a0, r)
  {}

  lemma RootModTwo(a: int)
    requires a == 1
    ensures AllRoots(2, a, [a])
  {
    forall y | 0 <= y < 2 ensures y in [a] <==> (y * y) % 2 == a % 2 {
      if y == 0 { assert y * y == 0; } else { assert y * y == 1; }
    }
  }

  lemma OddPrime(p: int)
    requires IsPrime(p) && p != 2
    ensures p % 2 == 1 && p >= 3
  {
    assert p % 2 != 0;
  }
}
