/** Multiples of the points of the reference signature scheme's curve, double-and-add, and point
    compression. Associativity of the addition is a premise. */
module Curve {
  import opened LittleEndian
  import opened Powers
  import opened ModArith
  import opened SquareRoot
  import opened PointAddition

  /** The premises on the addition: a prime modulus, no point that is its own opposite (the cubic
      has no root), and associativity. Points are compared by their coordinates here. The reference
      holds a decoded key as a list and a sum as a tuple, which never compare equal, so it would miss
      a doubling where the decoded key itself meets an equal sum; that is not modelled. */
  ghost predicate AdditionLaws(c: Params)
    ensures AdditionLaws(c) ==> IsPrime(c.p) && c.p >= 3
  {
    && IsPrime(c.p) && c.p >= 3
    && (forall x :: 0 <= x < c.p ==> Rhs(c, x) != 0)
    && (forall q, r, s :: OnCurve(c, q) && OnCurve(c, r) && OnCurve(c, s) ==>
          PointAdd(c, PointAdd(c, q, r), s) == PointAdd(c, q, PointAdd(c, r, s)))
  }

  /** k-fold addition. */
  function Times(c: Params, k: nat, q: Point): Point
    requires c.p >= 2
  {
    if k == 0 then Infinity else PointAdd(c, Times(c, k - 1, q), q)
  }

  ghost predicate HasOrder(c: Params)
    requires c.p >= 2
  {
    && c.n >= 2
    && Times(c, c.n, c.g) == Infinity
    && forall k: nat :: 0 < k < c.n ==> Times(c, k, c.g) != Infinity
  }

  /** Premises on the curve, the generator and the sizes of the encodings. */
  ghost predicate Legal(c: Params)
    ensures Legal(c) ==> IsPrime(c.p) && c.p >= 3 && c.n >= 2
  {
    && AdditionLaws(c) && c.p <= Pow256(95)
    && OnCurve(c, c.g)
    && HasOrder(c)
    && Pow256(32) <= c.n < Two(c.bits) && c.n <= Pow256(95)
  }

  lemma AddAssoc(c: Params, q: Point, r: Point, s: Point)
    requires AdditionLaws(c) && OnCurve(c, q) && OnCurve(c, r) && OnCurve(c, s)
    ensures PointAdd(c, PointAdd(c, q, r), s) == PointAdd(c, q, PointAdd(c, r, s))
  {
    hide PointAdd, OnCurve;
  }

  /** The sum of any two points of the curve is on the curve. */
  lemma AddClosed(c: Params, q: Point, r: Point)
    requires AdditionLaws(c) && OnCurve(c, q) && OnCurve(c, r)
    ensures OnCurve(c, PointAdd(c, q, r))
  {
    hide IsPrime, Rhs, Slope;
    if HaveLine(q, r) {
      hide PointAdd, OnCurve, AdditionLaws;
      SumOnCurve(c, q, r);
    } else if q.At? && q == r {
      NoRoot(c, q);
      assert false;
    }
  }

  lemma NoRoot(c: Params, q: Point)
    requires AdditionLaws(c) && q.At? && OnCurve(c, q)
    ensures q.y != 0
  {
    hide IsPrime, Rhs, PointAdd;
    if q.y == 0 {
      assert q.y * q.y == 0;
      ModUnique(0, 0, 0, c.p);
    }
  }

  // ----- multiples -----

  lemma {:induction false} TimesOnCurve(c: Params, k: nat, q: Point)
    requires AdditionLaws(c) && OnCurve(c, q)
    ensures OnCurve(c, Times(c, k, q))
  {
    hide PointAdd, OnCurve, AdditionLaws;
    if k == 0 {
      InfinityOnCurve(c);
    } else {
      TimesOnCurve(c, k - 1, q);
      AddClosed(c, Times(c, k - 1, q), q);
    }
  }

  lemma InfinityOnCurve(c: Params)
    requires c.p >= 2
    ensures OnCurve(c, Infinity)
  {}

  lemma AddInfinity(c: Params, q: Point)
    requires c.p >= 2
    ensures PointAdd(c, q, Infinity) == q && PointAdd(c, Infinity, q) == q
  {}

  lemma {:induction false} TimesAdd(c: Params, i: nat, j: nat, q: Point)
    requires AdditionLaws(c) && OnCurve(c, q)
    ensures PointAdd(c, Times(c, i, q), Times(c, j, q)) == Times(c, i + j, q)
  {
    hide PointAdd, OnCurve, AdditionLaws;
    if j == 0 {
      AddInfinity(c, Times(c, i, q));
    } else {
      TimesAdd(c, i, j - 1, q);
      TimesOnCurve(c, i, q);
      TimesOnCurve(c, j - 1, q);
      AddAssoc(c, Times(c, i, q), Times(c, j - 1, q), q);
    }
  }

  lemma {:induction false} TimesTimes(c: Params, i: nat, j: nat, q: Point)
    requires AdditionLaws(c) && OnCurve(c, q)
    ensures i * j >= 0
    ensures Times(c, i, Times(c, j, q)) == Times(c, i * j, q)
  {
    hide PointAdd, OnCurve, AdditionLaws;
    if i > 0 {
      TimesTimes(c, i - 1, j, q);
      TimesAdd(c, (i - 1) * j, j, q);
      assert (i - 1) * j + j == i * j;
    }
  }

  /** Multiples of the generator depend on the scalar modulo the order only. */
  lemma {:induction false} TimesWraps(c: Params, k: nat, m: nat)
    requires AdditionLaws(c) && OnCurve(c, c.g) && HasOrder(c)
    ensures m * c.n >= 0
    ensures Times(c, k + m * c.n, c.g) == Times(c, k, c.g)
  {
    hide PointAdd, OnCurve, AdditionLaws;
    TimesTimes(c, m, c.n, c.g);
    TimesInfinity(c, m);
    TimesAdd(c, k, m * c.n, c.g);
    AddInfinity(c, Times(c, k, c.g));
  }

  lemma {:induction false} TimesInfinity(c: Params, m: nat)
    requires c.p >= 2
    ensures Times(c, m, Infinity) == Infinity
  {
    if m > 0 { TimesInfinity(c, m - 1); }
  }

  /** The opposite multiple has the same x and the opposite, nonzero y: nothing but the code of the
      addition, the curve equation and the order of the generator decide this. */
  lemma OppositeMultiple(c: Params, k: nat)
    requires Legal(c) && 0 < k < c.n
    ensures var q := Times(c, k, c.g);
      q.At? && 0 < q.y < c.p && Times(c, c.n - k, c.g) == At(q.x, c.p - q.y)
  {
    hide IsPrime, Two, Pow256, Rhs, AdditionLaws, Times, PointAdd;
    var q, r := Times(c, k, c.g), Times(c, c.n - k, c.g);
    TimesAdd(c, k, c.n - k, c.g);
    TimesOnCurve(c, k, c.g);
    TimesOnCurve(c, c.n - k, c.g);
    assert q.At? && r.At?;
    OppositeExactly(c, q, r);
  }

  /** Different multiples below the order are different points. */
  lemma MultiplesDiffer(c: Params, k: nat, l: nat)
    requires Legal(c) && k < l < c.n
    ensures Times(c, k, c.g) != Times(c, l, c.g)
  {
    hide IsPrime, Two, Pow256, OnCurve, AdditionLaws, Times, PointAdd;
    TimesAdd(c, k, c.n - k, c.g);
    TimesAdd(c, l, c.n - k, c.g);
    TimesWraps(c, l - k, 1);
    assert l + (c.n - k) == l - k + 1 * c.n;
  }

  /** A multiple below the order is known by its x and the parity of its y. */
  lemma MultipleByParity(c: Params, k: nat, l: nat)
    requires Legal(c) && 0 < k < c.n && 0 < l < c.n
    requires var q, r := Times(c, k, c.g), Times(c, l, c.g); q.At? && r.At? && q.x == r.x && q.y % 2 == r.y % 2
    ensures k == l
  {
    hide IsPrime, Two, Pow256, Rhs, AdditionLaws, Times, PointAdd;
    var q, r := Times(c, k, c.g), Times(c, l, c.g);
    TimesOnCurve(c, k, c.g);
    TimesOnCurve(c, l, c.g);
    OddPrime(c.p);
    EqualSquares(c.p, q.y, r.y);
    SameParity(c.p, q.y, r.y);
    if k < l { MultiplesDiffer(c, k, l); }
    if l < k { MultiplesDiffer(c, l, k); }
  }

  // ----- double-and-add -----

  lemma BitStep(n: int, i: nat)
    ensures n % Two(i + 1) == n % Two(i) + (n / Two(i)) % 2 * Two(i)
  {
    var t := Two(i);
    var q, r := n / t, n % t;
    var h, b := q / 2, q % 2;
    assert n == q * t + r;
    assert q == 2 * h + b;
    BitRegroup(h, b, t);
    assert 0 <= b * t + r < 2 * t by { if b == 0 { assert b * t == 0; } else { assert b * t == t; } }
    ModUnique(n, h, b * t + r, 2 * t);
  }

  lemma BitRegroup(h: int, b: int, t: int)
    ensures (2 * h + b) * t == h * (2 * t) + b * t
  {
    assert (2 * h + b) * t == 2 * h * t + b * t;
    assert 2 * h * t == h * (2 * t);
  }

  /** q doubled i times. */
  function Doubled(c: Params, q: Point, i: nat): Point
    requires c.p >= 2
  {
    if i == 0 then q else PointAdd(c, Doubled(c, q, i - 1), Doubled(c, q, i - 1))
  }

  /** The sum of the doublings that the low i bits of n select, whatever the point. */
  function BitSum(c: Params, q: Point, n: int, i: nat): Point
    requires c.p >= 2
  {
    if i == 0 then Infinity
    else
      var low := BitSum(c, q, n, i - 1);
      if (n / Two(i - 1)) % 2 == 1 then PointAdd(c, low, Doubled(c, q, i - 1)) else low
  }

  /** On the curve, that is the multiple by those bits, for every integer. */
  lemma {:induction false} BitSumIsTimes(c: Params, q: Point, n: int, i: nat)
    requires AdditionLaws(c) && OnCurve(c, q)
    ensures n % Two(i) >= 0
    ensures BitSum(c, q, n, i) == Times(c, n % Two(i), q) && Doubled(c, q, i) == Times(c, Two(i), q)
  {
    hide PointAdd, OnCurve, AdditionLaws, Times, Two;
    if i == 0 {
      NoBits(c, q, n);
    } else {
      BitSumIsTimes(c, q, n, i - 1);
      BitSplit(n, i);
      TimesAdd(c, n % Two(i - 1), Two(i - 1), q);
      TimesAdd(c, Two(i - 1), Two(i - 1), q);
    }
  }

  lemma NoBits(c: Params, q: Point, n: int)
    requires c.p >= 2
    ensures n % Two(0) == 0 && Times(c, 0, q) == Infinity && Times(c, Two(0), q) == q
  {
    hide PointAdd;
    assert Times(c, 1, q) == PointAdd(c, Times(c, 0, q), q);
    AddInfinity(c, q);
    ModUnique(n, n, 0, 1);
  }

  lemma BitSplit(n: int, i: nat)
    requires i > 0
    ensures n % Two(i - 1) >= 0 && Two(i) == Two(i - 1) + Two(i - 1)
    ensures n % Two(i) == n % Two(i - 1) + if (n / Two(i - 1)) % 2 == 1 then Two(i - 1) else 0
  {
    BitStep(n, i - 1);
    ModIdempotent(n / Two(i - 1), 2);
    ModIdempotent(n, Two(i - 1));
    assert 1 * Two(i - 1) == Two(i - 1) && 0 * Two(i - 1) == 0;
  }

  /** Double-and-add adds up the doublings selected by the scalar's bits; on the curve that is the
      multiple by its low-order bits. */
  method PointMul(c: Params, q0: Point, n: int) returns (r: Point)
    requires c.p >= 2
    ensures r == BitSum(c, q0, n, c.bits)
    ensures n % Two(c.bits) >= 0
    ensures AdditionLaws(c) && OnCurve(c, q0) ==> r == Times(c, n % Two(c.bits), q0)
  {
    hide PointAdd, OnCurve, AdditionLaws, Times;
    r := Infinity;
    var q := q0;
    for i := 0 to c.bits
      invariant r == BitSum(c, q0, n, i) && q == Doubled(c, q0, i)
    {
      if (n / Two(i)) % 2 == 1 {
        r := PointAdd(c, r, q);
      }
      q := PointAdd(c, q, q);
    }
    if AdditionLaws(c) && OnCurve(c, q0) { BitSumIsTimes(c, q0, n, c.bits); }
    ModIdempotent(n, Two(c.bits));
  }

  // ----- compression -----

  function BytesFromPoint(q: Point): (b: seq<Byte>)
    requires q.At? && q.x >= 0
    ensures |b| == 96
  {
    [if q.y % 2 == 1 then 3 else 2] + ToBytes(q.x, 95)
  }

  /** The x coordinate encoded in `b`. */
  function EncodedX(b: seq<Byte>): nat {
    if |b| == 0 then 0 else FromBytes(b[1..if |b| < 96 then |b| else 96])
  }

  /** What decompression returns: a point with the encoded x, on the curve, of the encoded parity;
      nothing if the first byte is wrong or the right-hand side is not a nonzero square. */
  ghost predicate Decompresses(c: Params, b: seq<Byte>, q: Point)
    requires c.p >= 2
  {
    if |b| >= 1 && (b[0] == 2 || b[0] == 3) && (exists y :: 0 < y < c.p && (y * y) % c.p == Rhs(c, EncodedX(b))) then
      q.At? && q.x == EncodedX(b) && 0 < q.y < c.p && (q.y * q.y) % c.p == Rhs(c, q.x) && q.y % 2 == b[0] - 2
    else q == Infinity
  }

  method PointFromBytes(c: Params, b: seq<Byte>) returns (q: Point)
    requires IsPrime(c.p) && c.p >= 3
    ensures Decompresses(c, b, q)
  {
    hide IsPrime, Rhs, FromBytes, LegendreSymbol, AllRoots, Decompresses;
    if |b| == 0 || (b[0] != 2 && b[0] != 3) {
      WrongTag(c, b);
      return Infinity;
    }
    var odd := b[0] - 2;
    var x := FromBytes(b[1..if |b| < 96 then |b| else 96]);
    var ySq := Rhs(c, x);
    OddPrime(c.p);
    RhsRange(c, x);
    if LegendreSymbol(ySq, c.p) != 1 {
      NotASquare(c.p, ySq);
      NoPoint(c, b);
      return Infinity;
    }
    ZeroSymbol(c.p);
    var roots := PrimeModSqrt(ySq, c.p);
    var y0 := roots[0];
    RootInRange(c.p, ySq, roots);
    RootOfParity(c.p, ySq, y0, odd);
    var y := if y0 % 2 != odd then c.p - y0 else y0;
    PointFound(c, b, At(x, y));
    return At(x, y);
  }

  /** Of the two opposite roots modulo an odd number, one is odd and one is even. */
  lemma RootOfParity(p: int, a: int, y0: int, odd: int)
    requires p % 2 == 1 && 0 < y0 < p && (y0 * y0) % p == a && 0 <= odd <= 1
    ensures var y := if y0 % 2 != odd then p - y0 else y0;
      0 < y < p && (y * y) % p == a && y % 2 == odd
  {
    Opposite(p, y0);
    OppositeParity(p, y0);
  }

  lemma OppositeParity(p: int, y: int)
    requires p % 2 == 1
    ensures (p - y) % 2 == 1 - y % 2
  {}

  lemma WrongTag(c: Params, b: seq<Byte>)
    requires c.p >= 2 && (|b| == 0 || (b[0] != 2 && b[0] != 3))
    ensures Decompresses(c, b, Infinity)
  {}

  lemma NoPoint(c: Params, b: seq<Byte>)
    requires c.p >= 2 && forall y :: 0 < y < c.p ==> (y * y) % c.p != Rhs(c, EncodedX(b))
    ensures Decompresses(c, b, Infinity)
  {
    hide Rhs, EncodedX;
  }

  lemma PointFound(c: Params, b: seq<Byte>, q: Point)
    requires c.p >= 2 && |b| >= 1 && (b[0] == 2 || b[0] == 3)
    requires q.At? && q.x == EncodedX(b) && 0 < q.y < c.p && (q.y * q.y) % c.p == Rhs(c, q.x) && q.y % 2 == b[0] - 2
    ensures Decompresses(c, b, q)
  {
    hide Rhs, EncodedX;
  }

  lemma RootInRange(p: int, a: int, roots: seq<int>)
    requires p >= 2 && AllRoots(p, a, roots) && 0 < a < p && roots != []
    ensures 0 < roots[0] < p && (roots[0] * roots[0]) % p == a
  {
    ModUnique(a, 0, a, p);
    assert roots[0] in roots;
    if roots[0] == 0 { ModUnique(0, 0, 0, p); }
  }

  lemma RhsRange(c: Params, x: int)
    requires c.p >= 2
    ensures 0 <= Rhs(c, x) < c.p && Rhs(c, x) % c.p == Rhs(c, x)
  {
    var r := PowM(x, 3, c.p) + c.a * x + c.b;
    ModIdempotent(r, c.p);
  }

  /** A residue whose symbol is not 1 is no nonzero square. */
  lemma NotASquare(p: int, a: int)
    requires IsPrime(p) && p % 2 == 1 && 0 <= a < p && LegendreSymbol(a, p) != 1
    ensures forall y :: 0 < y < p ==> (y * y) % p != a
  {
    hide IsPrime;
    ModUnique(a, 0, a, p);
    forall y | 0 < y < p ensures (y * y) % p != a {
      if (y * y) % p == a {
        if a == 0 {
          Euclid(p, y, y);
          ModUnique(y, 0, y, p);
        } else {
          SquareHasSymbolOne(p, a, y);
        }
      }
    }
  }

  lemma ZeroSymbol(p: int)
    requires p >= 3
    ensures LegendreSymbol(0, p) == 0
  {
    assert Pow(0, (p - 1) / 2) == 0;
    ModUnique(0, 0, 0, p);
  }

  /** Compression loses nothing exactly when y is not zero. */
  lemma CompressionRoundTrip(c: Params, q: Point, r: Point)
    requires IsPrime(c.p) && 3 <= c.p <= Pow256(95) && q.At? && OnCurve(c, q)
    requires Decompresses(c, BytesFromPoint(q), r)
    ensures r == q <==> q.y != 0
  {
    hide IsPrime, Pow256, Rhs, EncodedX, BytesFromPoint, Decompresses;
    CompressedFields(q);
    OddPrime(c.p);
    Decompressed(c, BytesFromPoint(q), q, r);
    if q.y != 0 {
      EqualSquares(c.p, q.y, r.y);
      SameParity(c.p, q.y, r.y);
    }
  }

  lemma Decompressed(c: Params, b: seq<Byte>, q: Point, r: Point)
    requires c.p >= 2 && Decompresses(c, b, r) && q.At? && OnCurve(c, q)
    requires |b| >= 1 && (b[0] == 2 || b[0] == 3) && q.x == EncodedX(b)
    ensures r.Infinity? || r.y > 0
    ensures q.y != 0 ==> r.At? && r.x == q.x && 0 < r.y < c.p && r.y % 2 == b[0] - 2
    ensures q.y != 0 ==> (r.y * r.y) % c.p == (q.y * q.y) % c.p
  {
    hide Rhs, EncodedX;
  }

  /** Decompression is a function: at most one point qualifies. */
  lemma DecompressesOnce(c: Params, b: seq<Byte>, q: Point, r: Point)
    requires IsPrime(c.p) && c.p >= 3 && Decompresses(c, b, q) && Decompresses(c, b, r)
    ensures q == r
  {
    hide IsPrime, Rhs, EncodedX;
    OddPrime(c.p);
    if q.At? && r.At? {
      EqualSquares(c.p, q.y, r.y);
      SameParity(c.p, q.y, r.y);
    }
  }

  lemma SameParity(p: int, y: int, z: int)
    requires p % 2 == 1 && (z == y || z == p - y) && z % 2 == y % 2
    ensures z == y
  {}

  lemma CompressedFields(q: Point)
    requires q.At? && 0 <= q.x < Pow256(95)
    ensures var b := BytesFromPoint(q); (b[0] == 2 || b[0] == 3) && b[0] - 2 == q.y % 2 && EncodedX(b) == q.x
  {
    hide Pow256, FromBytes, ToBytes;
    var b := BytesFromPoint(q);
    assert b[1..96] == ToBytes(q.x, 95);
    FromToBytes(q.x, 95);
  }
}
