/**
 * Addition of points as the reference computes it, and the chord-and-tangent law: the two
 * summands and the mirror image of the sum are the three points where a line meets the curve.
 */
module PointAddition {
  import opened Powers
  import opened ModArith
  import opened Fermat
  import opened SquareRoot

  /** A point of the curve; `Infinity` is what the reference writes as None. */
  datatype Point = Infinity | At(x: int, y: int)

  /** y^2 = x^3 + a x + b modulo p, with a generator g of order n; scalars are cut to `bits` bits. */
  datatype Params = Params(p: int, a: int, b: int, n: int, g: Point, bits: nat)

  /** The slope of the line: the chord's, or at one point the tangent's. */
  function Slope(c: Params, q: Point, r: Point): int
    requires c.p >= 2 && q.At? && r.At?
  {
    if q == r then ((3 * q.x * q.x + c.a) * PowM(2 * q.y, c.p - 2, c.p)) % c.p
    else ((r.y - q.y) * PowM(r.x - q.x, c.p - 2, c.p)) % c.p
  }

  function PointAdd(c: Params, p1: Point, p2: Point): Point
    requires c.p >= 2
  {
    if p1.Infinity? then p2
    else if p2.Infinity? then p1
    else if p1.x == p2.x && p1.y != p2.y then Infinity
    else
      var lam := Slope(c, p1, p2);
      var x3 := (lam * lam - p1.x - p2.x) % c.p;
      At(x3, (lam * (p1.x - x3) - p1.y) % c.p)
  }

  /** x^3 + a x + b modulo p. */
  function Rhs(c: Params, x: int): int
    requires c.p >= 2
  {
    (PowM(x, 3, c.p) + c.a * x + c.b) % c.p
  }

  predicate OnCurve(c: Params, q: Point)
    requires c.p >= 2
  {
    q.Infinity? || (0 <= q.x < c.p && 0 <= q.y < c.p && (q.y * q.y) % c.p == Rhs(c, q.x))
  }

  // ----- the law -----

  function Cubic(c: Params, x: int): int {
    x * x * x + c.a * x + c.b
  }

  /** Under the square of the line lam X + nu, the cubic is (X - q.x)(X - r.x)(X - s.x) modulo p. */
  ghost predicate CutsAt(c: Params, lam: int, nu: int, q: Point, r: Point, s: Point)
    requires c.p >= 2 && q.At? && r.At? && s.At?
  {
    forall x ::
      (Cubic(c, x) - (lam * x + nu) * (lam * x + nu)) % c.p == ((x - q.x) * (x - r.x) * (x - s.x)) % c.p
  }

  ghost predicate OnLine(c: Params, lam: int, nu: int, x: int, y: int)
    requires c.p >= 2
  {
    (lam * x + nu) % c.p == y % c.p
  }

  /** The line meets the curve in q, in r and in the mirror image of s, and nowhere else; a point
      met twice is met by the tangent there. */
  ghost predicate Chord(c: Params, q: Point, r: Point, s: Point, lam: int, nu: int)
    requires c.p >= 2 && q.At? && r.At? && s.At?
  {
    && OnLine(c, lam, nu, q.x, q.y) && OnLine(c, lam, nu, r.x, r.y) && OnLine(c, lam, nu, s.x, -s.y)
    && CutsAt(c, lam, nu, q, r, s)
  }

  // ----- the slope -----

  /** Multiplying by the (p - 2)-th power divides. */
  lemma Quotient(p: int, num: int, den: int)
    requires IsPrime(p) && den % p != 0
    ensures ((num * PowM(den, p - 2, p)) % p * den) % p == num % p
  {
    hide IsPrime;
    var w, v := Pow(den, p - 2), PowM(den, p - 2, p);
    FermatLittle(p, den);
    assert Pow(den, p - 1) == den * w;
    ModIdempotent(w, p);
    ModMul(v, w, den, den, p);
    ModUnique(1, 0, 1, p);
    assert (v * den) % p == 1 % p by { assert w * den == den * w; }
    ModMul(num, num, v * den, 1, p);
    Assoc(num, v, den);
    ModIdempotent(num * v, p);
    ModMul((num * v) % p, num * v, den, den, p);
  }

  lemma TangentSlope(c: Params, q: Point)
    requires IsPrime(c.p) && c.p >= 3 && q.At? && 0 < q.y < c.p
    ensures (Slope(c, q, q) * (2 * q.y)) % c.p == (3 * q.x * q.x + c.a) % c.p
  {
    hide IsPrime, PowM;
    OddPrime(c.p);
    if (2 * q.y) % c.p == 0 { SmallMultiple(2 * q.y, c.p); }
    Quotient(c.p, 3 * q.x * q.x + c.a, 2 * q.y);
  }

  lemma ChordSlope(c: Params, q: Point, r: Point)
    requires IsPrime(c.p) && q.At? && r.At? && 0 <= q.x < c.p && 0 <= r.x < c.p && q.x != r.x
    ensures (r.x - q.x) % c.p != 0
    ensures (Slope(c, q, r) * (r.x - q.x)) % c.p == (r.y - q.y) % c.p
  {
    hide IsPrime, PowM;
    if (r.x - q.x) % c.p == 0 { SmallMultiple(r.x - q.x, c.p); }
    Quotient(c.p, r.y - q.y, r.x - q.x);
  }

  // ----- the cubic under the line -----

  /** What is left of the cubic under a line through (x, y), off the three factors, is linear. */
  function Remainder(a: int, x: int, y: int, d: int, lam: int): int {
    3 * x * x + a - 2 * lam * y + d * (3 * x + d - lam * lam)
  }

  lemma CubeOfSum(x: int, u: int)
    ensures (x + u) * (x + u) * (x + u) == x * x * x + 3 * (x * x * u) + 3 * (x * (u * u)) + u * (u * u)
  {
    assert (x + u) * (x + u) == x * x + 2 * (x * u) + u * u;
    assert (x * x + 2 * (x * u) + u * u) * x == x * x * x + 2 * (x * x * u) + x * (u * u);
    assert (x * x + 2 * (x * u) + u * u) * u == x * x * u + 2 * (x * (u * u)) + u * (u * u);
  }

  lemma SquareOfLine(y: int, lam: int, u: int)
    ensures (y + lam * u) * (y + lam * u) == y * y + 2 * lam * y * u + lam * lam * (u * u)
  {
    var v := lam * u;
    assert (y + v) * (y + v) == y * y + 2 * (y * v) + v * v;
    assert y * v == lam * y * u;
    assert v * v == lam * lam * (u * u);
  }

  lemma ThreeFactors(u: int, d: int, m: int)
    ensures u * (u - d) * (u + m) == u * (u * u) + (m - d) * (u * u) - d * m * u
  {
    assert u * (u - d) == u * u - d * u;
    assert (u * u - d * u) * (u + m) == u * u * u + u * u * m - d * u * u - d * u * m;
  }

  /** An identity of polynomials, for every slope. */
  lemma LineCuts(a: int, b: int, x: int, y: int, d: int, lam: int, u: int)
    ensures var z := x + u; var l := y + lam * u;
      z * z * z + a * z + b - l * l
        == u * (u - d) * (u + (3 * x + d - lam * lam)) + (x * x * x + a * x + b - y * y)
           + u * Remainder(a, x, y, d, lam)
  {
    var m := 3 * x + d - lam * lam;
    CubeOfSum(x, u);
    SquareOfLine(y, lam, u);
    ThreeFactors(u, d, m);
    var w := u * u;
    assert (m - d) * w == 3 * (x * w) - lam * lam * w;
    assert a * (x + u) == a * x + a * u;
    assert u * Remainder(a, x, y, d, lam) == 3 * (x * x * u) + a * u - 2 * lam * y * u + d * m * u;
  }

  // ----- on the curve -----

  lemma CubicIsRhs(c: Params, x: int)
    requires c.p >= 2
    ensures Cubic(c, x) % c.p == Rhs(c, x)
  {
    assert Pow(x, 3) == x * x * x by {
      assert Pow(x, 3) == x * Pow(x, 2) && Pow(x, 2) == x * Pow(x, 1) && Pow(x, 1) == x * Pow(x, 0);
      Assoc(x, x, x);
    }
    ModIdempotent(x * x * x, c.p);
    ModAdd(PowM(x, 3, c.p), x * x * x, c.a * x + c.b, c.a * x + c.b, c.p);
  }

  lemma CurveEquation(c: Params, q: Point)
    requires c.p >= 2 && q.At? && OnCurve(c, q)
    ensures (Cubic(c, q.x) - q.y * q.y) % c.p == 0
  {
    hide Rhs, Cubic;
    CubicIsRhs(c, q.x);
    ModIdempotent(q.y * q.y, c.p);
    ModSub(Cubic(c, q.x), q.y * q.y, q.y * q.y, q.y * q.y, c.p);
    ModUnique(0, 0, 0, c.p);
  }

  /** The summands have a line: they are not opposite, and not one point that is its own opposite. */
  predicate HaveLine(q: Point, r: Point) {
    q.At? && r.At? && (q.x != r.x || (q == r && q.y != 0))
  }

  lemma RemainderVanishes(c: Params, q: Point, r: Point)
    requires IsPrime(c.p) && c.p >= 3 && HaveLine(q, r) && OnCurve(c, q) && OnCurve(c, r)
    ensures Remainder(c.a, q.x, q.y, r.x - q.x, Slope(c, q, r)) % c.p == 0
  {
    hide IsPrime, Slope, Rhs, Cubic, PowM;
    var lam := Slope(c, q, r);
    if q == r {
      TangentSlope(c, q);
      TangentRemainder(c.p, c.a, q.x, q.y, lam);
    } else {
      ChordSlope(c, q, r);
      CurveEquation(c, q);
      CurveEquation(c, r);
      ChordRemainder(c, q, r, lam);
    }
  }

  lemma TangentRemainder(p: int, a: int, x: int, y: int, lam: int)
    requires p >= 2 && (lam * (2 * y)) % p == (3 * x * x + a) % p
    ensures Remainder(a, x, y, 0, lam) % p == 0
  {
    var v := lam * (2 * y);
    ModSub(3 * x * x + a, v, v, v, p);
    ModUnique(0, 0, 0, p);
    assert 2 * lam * y == v;
  }

  /** The line meets the curve at r too, so the remainder vanishes there. */
  lemma ChordRemainder(c: Params, q: Point, r: Point, lam: int)
    requires IsPrime(c.p) && q.At? && r.At? && (r.x - q.x) % c.p != 0
    requires (lam * (r.x - q.x)) % c.p == (r.y - q.y) % c.p
    requires (Cubic(c, q.x) - q.y * q.y) % c.p == 0 && (Cubic(c, r.x) - r.y * r.y) % c.p == 0
    ensures Remainder(c.a, q.x, q.y, r.x - q.x, lam) % c.p == 0
  {
    hide IsPrime, Remainder;
    var d := r.x - q.x;
    var l, rest := q.y + lam * d, Remainder(c.a, q.x, q.y, d, lam);
    LineCuts(c.a, c.b, q.x, q.y, d, lam, d);
    NoFactor(d, 3 * q.x + d - lam * lam);
    assert Cubic(c, r.x) - l * l == (Cubic(c, q.x) - q.y * q.y) + d * rest;
    LastTerm(c.p, Cubic(c, r.x), r.y, l, Cubic(c, q.x) - q.y * q.y, d * rest) by {
      ModAdd(q.y, q.y, lam * d, r.y - q.y, c.p);
    }
    Euclid(c.p, d, rest);
  }

  lemma NoFactor(d: int, m: int)
    ensures d * (d - d) * (d + m) == 0
  {
    assert d * 0 == 0;
  }

  lemma LastTerm(p: int, f: int, y: int, l: int, g: int, t: int)
    requires p >= 2 && f - l * l == g + t && g % p == 0 && (f - y * y) % p == 0 && l % p == y % p
    ensures t % p == 0
  {
    ModMul(l, y, l, y, p);
    ModSub(f, f, l * l, y * y, p);
    ModUnique(0, 0, 0, p);
    ModSub(f - l * l, 0, g, 0, p);
  }

  // ----- chord and tangent -----

  lemma CutsThere(c: Params, q: Point, r: Point, s: Point, lam: int, x: int)
    requires c.p >= 2 && q.At? && r.At? && s.At?
    requires (Cubic(c, q.x) - q.y * q.y) % c.p == 0 && Remainder(c.a, q.x, q.y, r.x - q.x, lam) % c.p == 0
    requires s.x % c.p == (lam * lam - q.x - r.x) % c.p
    ensures var l := q.y + lam * (x - q.x);
      (Cubic(c, x) - l * l) % c.p == ((x - q.x) * (x - r.x) * (x - s.x)) % c.p
  {
    hide Remainder;
    var u, d := x - q.x, r.x - q.x;
    var s0, rest := lam * lam - q.x - r.x, Remainder(c.a, q.x, q.y, d, lam);
    LineCuts(c.a, c.b, q.x, q.y, d, lam, u);
    var l := q.y + lam * u;
    assert u - d == x - r.x && u + (3 * q.x + d - lam * lam) == x - s0;
    var f := u * (x - r.x);
    assert Cubic(c, x) - l * l == f * (x - s0) + (Cubic(c, q.x) - q.y * q.y) + u * rest;
    ModSub(x, x, s0, s.x, c.p);
    DropZeros(c.p, f, x - s0, x - s.x, Cubic(c, q.x) - q.y * q.y, u, rest);
  }

  lemma DropZeros(p: int, f: int, v: int, w: int, g: int, u: int, rest: int)
    requires p >= 2 && v % p == w % p && g % p == 0 && rest % p == 0
    ensures (f * v + g + u * rest) % p == (f * w) % p
  {
    ModUnique(0, 0, 0, p);
    ModMul(u, u, rest, 0, p);
    ModMul(f, f, v, w, p);
    ModAdd(f * v, f * w, g, 0, p);
    ModAdd(f * v + g, f * w, u * rest, 0, p);
  }

  lemma LineAt(lam: int, x: int, x1: int, y1: int)
    ensures lam * x + (y1 - lam * x1) == y1 + lam * (x - x1)
  {
    Distribute(x, x1, lam);
  }

  /** The chord-and-tangent law: a line through the summands, or the tangent at one point taken
      twice, meets the curve once more, in the mirror image of the sum. */
  lemma ChordAndTangent(c: Params, q: Point, r: Point)
    requires IsPrime(c.p) && c.p >= 3 && HaveLine(q, r) && OnCurve(c, q) && OnCurve(c, r)
    ensures var s := PointAdd(c, q, r); var lam := Slope(c, q, r);
      s.At? && Chord(c, q, r, s, lam, q.y - lam * q.x)
  {
    hide IsPrime, Slope, Rhs, Cubic, PowM, Remainder;
    var s, lam := PointAdd(c, q, r), Slope(c, q, r);
    var nu := q.y - lam * q.x;
    CurveEquation(c, q);
    RemainderVanishes(c, q, r);
    ModIdempotent(lam * lam - q.x - r.x, c.p);
    forall x
      ensures (Cubic(c, x) - (lam * x + nu) * (lam * x + nu)) % c.p == ((x - q.x) * (x - r.x) * (x - s.x)) % c.p
    {
      CutsThere(c, q, r, s, lam, x);
      LineAt(lam, x, q.x, q.y);
    }
    LineAt(lam, q.x, q.x, q.y);
    assert lam * 0 == 0;
    LineThroughSecond(c, q, r);
    LineThroughMirror(c.p, lam, q.x, q.y, s.x, s.y);
  }

  lemma LineThroughSecond(c: Params, q: Point, r: Point)
    requires IsPrime(c.p) && HaveLine(q, r) && OnCurve(c, q) && OnCurve(c, r)
    ensures var lam := Slope(c, q, r); OnLine(c, lam, q.y - lam * q.x, r.x, r.y)
  {
    hide IsPrime, Slope, Rhs, PowM;
    var lam := Slope(c, q, r);
    LineAt(lam, r.x, q.x, q.y);
    if q == r {
      assert lam * 0 == 0;
    } else {
      ChordSlope(c, q, r);
      ModAdd(q.y, q.y, lam * (r.x - q.x), r.y - q.y, c.p);
    }
  }

  lemma LineThroughMirror(p: int, lam: int, x1: int, y1: int, x: int, y: int)
    requires p >= 2 && y == (lam * (x1 - x) - y1) % p
    ensures (lam * x + (y1 - lam * x1)) % p == (-y) % p
  {
    var v := lam * (x1 - x) - y1;
    ModIdempotent(v, p);
    ModSub(0, 0, v, y, p);
    assert lam * x + (y1 - lam * x1) == -v by { Distribute(x1, x, lam); }
  }

  /** The sum of two points of the curve is on the curve. */
  lemma SumOnCurve(c: Params, q: Point, r: Point)
    requires IsPrime(c.p) && c.p >= 3 && HaveLine(q, r) && OnCurve(c, q) && OnCurve(c, r)
    ensures OnCurve(c, PointAdd(c, q, r))
  {
    hide IsPrime, Slope, Rhs, Cubic, PowM;
    var s, lam := PointAdd(c, q, r), Slope(c, q, r);
    var nu := q.y - lam * q.x;
    ChordAndTangent(c, q, r);
    var l := lam * s.x + nu;
    assert (Cubic(c, s.x) - l * l) % c.p == ((s.x - q.x) * (s.x - r.x) * (s.x - s.x)) % c.p;
    MeetsCurve(c.p, Cubic(c, s.x), l, s.y, (s.x - q.x) * (s.x - r.x) * (s.x - s.x));
    CubicIsRhs(c, s.x);
    ModIdempotent(lam * lam - q.x - r.x, c.p);
    ModIdempotent(lam * (q.x - s.x) - q.y, c.p);
  }

  lemma MeetsCurve(p: int, f: int, l: int, y: int, z: int)
    requires p >= 2 && (f - l * l) % p == z % p && z == 0 && l % p == (-y) % p
    ensures (y * y) % p == f % p
  {
    ModMul(l, -y, l, -y, p);
    assert -y * -y == y * y;
    ModUnique(0, 0, 0, p);
    ModAdd(f - l * l, 0, l * l, y * y, p);
  }

  // ----- a point that is its own opposite -----

  /** A point with y = 0 is its own opposite, yet doubling it does not give Infinity. */
  lemma DoublingOwnOpposite(c: Params, q: Point)
    requires c.p >= 3 && q.At? && q.y == 0
    ensures PointAdd(c, q, q) == At((-2 * q.x) % c.p, 0) && Slope(c, q, q) == 0
  {
    hide PowM, Slope;
    FlatSlope(c, q);
    ModUnique(0, 0, 0, c.p);
  }

  lemma FlatSlope(c: Params, q: Point)
    requires c.p >= 3 && q.At? && q.y == 0
    ensures Slope(c, q, q) == 0
  {
    hide PowM;
    NoInverse(c.p);
    assert (3 * q.x * q.x + c.a) * 0 == 0;
    ModUnique(0, 0, 0, c.p);
  }

  lemma NoInverse(p: int)
    requires p >= 3
    ensures PowM(0, p - 2, p) == 0
  {
    assert Pow(0, p - 2) == 0 * Pow(0, p - 3);
    ModUnique(0, 0, 0, p);
  }

  /** The point that the code takes for such a double lies on a tangent only where the curve is singular. */
  lemma FlatTangent(c: Params, q: Point)
    requires IsPrime(c.p) && c.p >= 3 && q.At? && q.y == 0 && OnCurve(c, q)
    ensures (3 * q.x * q.x + c.a) % c.p == 0 ==> Chord(c, q, q, PointAdd(c, q, q), 0, 0)
    ensures forall lam, nu :: Chord(c, q, q, PointAdd(c, q, q), lam, nu) ==> (3 * q.x * q.x + c.a) % c.p == 0
  {
    hide IsPrime, Cubic, Rhs, PowM, PointAdd, Slope, Chord;
    DoublingOwnOpposite(c, q);
    CurveEquation(c, q);
    assert q.y * q.y == 0;
    var s := PointAdd(c, q, q);
    ModIdempotent(-2 * q.x, c.p);
    if (3 * q.x * q.x + c.a) % c.p == 0 { SingularTangent(c, q, s); }
    forall lam, nu | Chord(c, q, q, s, lam, nu) ensures (3 * q.x * q.x + c.a) % c.p == 0 {
      TangentIsFlat(c, q, s, lam, nu);
    }
  }

  lemma SingularTangent(c: Params, q: Point, s: Point)
    requires c.p >= 2 && q.At? && q.y == 0 && Cubic(c, q.x) % c.p == 0 && (3 * q.x * q.x + c.a) % c.p == 0
    requires s.At? && s.y == 0 && s.x % c.p == (-2 * q.x) % c.p
    ensures Chord(c, q, q, s, 0, 0)
  {
    hide Cubic;
    forall x ensures (Cubic(c, x) - (0 * x + 0) * (0 * x + 0)) % c.p == ((x - q.x) * (x - q.x) * (x - s.x)) % c.p {
      CutsThere(c, q, q, s, 0, x);
    }
  }

  /** One step to the right and one to the left of a double point the line is equally far off. */
  lemma TangentIsFlat(c: Params, q: Point, s: Point, lam: int, nu: int)
    requires IsPrime(c.p) && c.p >= 3 && q.At? && q.y == 0 && Cubic(c, q.x) % c.p == 0
    requires s.At? && s.x % c.p == (-2 * q.x) % c.p
    requires Chord(c, q, q, s, lam, nu)
    ensures (3 * q.x * q.x + c.a) % c.p == 0
  {
    hide IsPrime, Cubic;
    var slope := 3 * q.x * q.x + c.a;
    StepOff(c, q, s, lam, nu, 1);
    StepOff(c, q, s, lam, nu, -1);
    ModSub(1 * slope - lam * lam, 0, -1 * slope - lam * lam, 0, c.p) by { ModUnique(0, 0, 0, c.p); }
    ModUnique(0, 0, 0, c.p);
    assert 1 * slope - lam * lam - (-1 * slope - lam * lam) == 2 * slope;
    ModUnique(2, 0, 2, c.p);
    Euclid(c.p, 2, slope);
  }

  lemma StepOff(c: Params, q: Point, s: Point, lam: int, nu: int, u: int)
    requires c.p >= 3 && q.At? && q.y == 0 && Cubic(c, q.x) % c.p == 0 && (u == 1 || u == -1)
    requires s.At? && s.x % c.p == (-2 * q.x) % c.p
    requires Chord(c, q, q, s, lam, nu)
    ensures (u * (3 * q.x * q.x + c.a) - lam * lam) % c.p == 0
  {
    hide Cubic;
    var x := q.x + u;
    var l := lam * x + nu;
    var z := (x - q.x) * (x - q.x) * (x - s.x);
    assert (Cubic(c, x) - l * l) % c.p == z % c.p;
    OffLine(c.p, lam, nu, q.x, u);
    UnitSquare(u, x - s.x);
    ModSub(x, x, s.x, -2 * q.x, c.p);
    CubicStep(c, q.x, u);
    Balance(c.p, Cubic(c, q.x), u * (3 * q.x * q.x + c.a), 3 * q.x + u, l * l, lam * lam, z);
  }

  lemma UnitSquare(u: int, v: int)
    requires u == 1 || u == -1
    ensures u * u == 1 && u * u * v == v
  {}

  lemma Balance(p: int, f: int, t: int, w: int, l: int, m: int, z: int)
    requires p >= 2 && f % p == 0 && l % p == m % p && z % p == w % p && (f + t + w - l) % p == z % p
    ensures (t - m) % p == 0
  {
    ModUnique(0, 0, 0, p);
    ModSub(f + t + w - l, w, w, w, p);
    ModSub(f + t - l, 0, f, 0, p);
    ModAdd(t - l, 0, l, m, p);
    ModSub(t, m, m, m, p);
  }

  lemma CubicStep(c: Params, x: int, u: int)
    requires u * u == 1
    ensures Cubic(c, x + u) == Cubic(c, x) + u * (3 * x * x + c.a) + 3 * x + u
  {
    CubeOfSum(x, u);
    assert c.a * (x + u) == c.a * x + u * c.a;
    assert u * (3 * x * x + c.a) == 3 * (x * x * u) + u * c.a;
  }

  lemma OffLine(p: int, lam: int, nu: int, x: int, u: int)
    requires p >= 2 && (lam * x + nu) % p == 0 && (u == 1 || u == -1)
    ensures var l := lam * (x + u) + nu; (l * l) % p == (lam * lam) % p
  {
    var l, w := lam * (x + u) + nu, lam * u;
    assert l == lam * x + nu + w;
    ModUnique(0, 0, 0, p);
    ModAdd(lam * x + nu, 0, w, w, p);
    ModMul(l, w, l, w, p);
    assert w * w == lam * lam;
  }

  /** Two points add up to Infinity exactly when they are opposite and not the same. */
  lemma OppositeExactly(c: Params, q: Point, r: Point)
    requires IsPrime(c.p) && c.p >= 3 && q.At? && r.At? && OnCurve(c, q) && OnCurve(c, r)
    ensures PointAdd(c, q, r) == Infinity <==> q.y != 0 && r == At(q.x, c.p - q.y)
  {
    hide IsPrime, Rhs, Slope;
    OddPrime(c.p);
    if q.x == r.x { EqualSquares(c.p, q.y, r.y); }
  }

  /** Wherever the sum of two points is a point, a line explains it, except for the double of a point
      that is its own opposite on a curve not singular there. */
  lemma SumIsExplainedExactly(c: Params, q: Point, r: Point)
    requires IsPrime(c.p) && c.p >= 3 && q.At? && r.At? && OnCurve(c, q) && OnCurve(c, r)
    requires q.x != r.x || q == r
    ensures var s := PointAdd(c, q, r);
      s.At? && ((exists lam, nu :: Chord(c, q, r, s, lam, nu))
                <==> !(q == r && q.y == 0 && (3 * q.x * q.x + c.a) % c.p != 0))
  {
    hide IsPrime, Cubic, Rhs, PowM, Slope, Chord;
    if HaveLine(q, r) {
      ChordAndTangent(c, q, r);
    } else {
      FlatTangent(c, q);
    }
  }
}
