/** Every odd prime has a quadratic non-residue: the polynomial x^((p-1)/2) - 1 has too few roots
    for all residues to be among them (Lagrange's bound on the number of roots). */
module NonResidue {
  import opened Powers
  import opened ModArith
  import opened Fermat

  /** Value at `x` of the polynomial with coefficients `c`, highest first. */
  function Eval(c: seq<int>, x: int): int {
    if c == [] then 0 else Eval(c[..|c| - 1], x) * x + c[|c| - 1]
  }

  /** Quotient of the division by (x - r). */
  function Quotient(c: seq<int>, r: int): (q: seq<int>)
    ensures |c| >= 1 ==> |q| == |c| - 1
    ensures |c| >= 2 ==> q[0] == c[0]
  {
    if |c| <= 1 then []
    else
      var init := c[..|c| - 1];
      if |init| == 1 then
        assert init[..0] == [] && Eval([], r) * r == 0;
        [Eval(init, r)]
      else Quotient(init, r) + [Eval(init, r)]
  }

  lemma {:induction false} Division(c: seq<int>, r: int, x: int)
    requires |c| >= 1
    ensures Eval(c, x) == (x - r) * Eval(Quotient(c, r), x) + Eval(c, r)
  {
    var init, last := c[..|c| - 1], c[|c| - 1];
    if |c| == 1 {
      assert init == [];
    } else {
      Division(init, r, x);
      var q', q := Quotient(init, r), Quotient(c, r);
      assert q == q' + [Eval(init, r)];
      assert q[..|q| - 1] == q';
      DivisionStep(x, r, Eval(q', x), Eval(init, r), last);
    }
  }

  lemma DivisionStep(x: int, r: int, a: int, b: int, last: int)
    ensures ((x - r) * a + b) * x + last == (x - r) * (a * x + b) + (b * r + last)
  {
    assert ((x - r) * a + b) * x == (x - r) * a * x + b * x;
    Assoc(x - r, a, x);
    assert (x - r) * (a * x + b) == (x - r) * (a * x) + (x - r) * b;
    assert (x - r) * b == b * x - b * r;
  }

  ghost predicate DistinctRoots(p: int, c: seq<int>, roots: seq<int>)
    requires p > 0
  {
    && (forall i :: 0 <= i < |roots| ==> Eval(c, roots[i]) % p == 0)
    && (forall i, j :: 0 <= i < j < |roots| ==> (roots[j] - roots[i]) % p != 0)
  }

  /** A polynomial modulo a prime has at most as many roots as its degree. */
  lemma {:induction false} Lagrange(p: int, c: seq<int>, roots: seq<int>)
    requires IsPrime(p) && |c| >= 1 && c[0] % p != 0 && DistinctRoots(p, c, roots)
    ensures |roots| <= |c| - 1
    decreases |roots|
  {
    hide IsPrime, Eval;
    if |c| == 1 {
      ConstantValue(c);
    } else if roots != [] {
      var r := roots[0];
      var q := Quotient(c, r);
      forall i | 0 <= i < |roots[1..]| ensures Eval(q, roots[1..][i]) % p == 0 {
        RootOfQuotient(p, c, r, roots[i + 1]);
      }
      Lagrange(p, q, roots[1..]);
    }
  }

  lemma ConstantValue(c: seq<int>)
    requires |c| == 1
    ensures forall x :: Eval(c, x) == c[0]
  {
    forall x ensures Eval(c, x) == c[0] {
      assert c[..0] == [] && Eval([], x) * x == 0;
    }
  }

  lemma RootOfQuotient(p: int, c: seq<int>, r: int, x: int)
    requires IsPrime(p) && |c| >= 1 && Eval(c, r) % p == 0 && Eval(c, x) % p == 0 && (x - r) % p != 0
    ensures Eval(Quotient(c, r), x) % p == 0
  {
    hide IsPrime, Eval, Quotient;
    Division(c, r, x);
    ModUnique(0, 0, 0, p);
    ModSub(Eval(c, x), 0, Eval(c, r), 0, p);
    Euclid(p, x - r, Eval(Quotient(c, r), x));
  }

  function Zeros(k: nat): (z: seq<int>)
    ensures |z| == k
  {
    if k == 0 then [] else Zeros(k - 1) + [0]
  }

  lemma {:induction false} Monomial(k: nat, x: int)
    ensures Eval([1] + Zeros(k), x) == Pow(x, k)
  {
    var c := [1] + Zeros(k);
    if k == 0 {
      assert c == [1] && c[..0] == [];
    } else {
      Monomial(k - 1, x);
      assert c[..|c| - 1] == [1] + Zeros(k - 1);
      assert Pow(x, k) == x * Pow(x, k - 1);
    }
  }

  /** x^m - 1. */
  function PowerMinusOne(m: nat): seq<int>
    requires m >= 1
  {
    [1] + Zeros(m - 1) + [-1]
  }

  lemma EvalPowerMinusOne(m: nat, x: int)
    requires m >= 1
    ensures Eval(PowerMinusOne(m), x) == Pow(x, m) - 1
  {
    var c := PowerMinusOne(m);
    assert c[..|c| - 1] == [1] + Zeros(m - 1);
    Monomial(m - 1, x);
    assert Pow(x, m) == x * Pow(x, m - 1);
  }

  /** Euler: the power (p-1)/2 of a nonzero residue is 1 or -1. */
  lemma EulerPower(p: int, a: int)
    requires IsPrime(p) && p % 2 == 1 && a % p != 0
    ensures var e := Pow(a, (p - 1) / 2) % p; e == 1 || e == p - 1
  {
    hide IsPrime;
    var h := (p - 1) / 2;
    FermatLittle(p, a);
    PowAdd(a, h, h);
    RootsOfOne(p, Pow(a, h));
  }

  ghost predicate IsNonResidue(p: int, z: int)
    requires p > 1
  {
    0 < z < p && Pow(z, (p - 1) / 2) % p == p - 1
  }

  lemma NonResidueExists(p: int)
    requires IsPrime(p) && p % 2 == 1
    ensures exists z :: IsNonResidue(p, z)
  {
    var h := (p - 1) / 2;
    if forall z :: 0 < z < p ==> !IsNonResidue(p, z) {
      var c := PowerMinusOne(h);
      var roots := seq(p - 1, i => i + 1);
      forall i | 0 <= i < |roots| ensures Eval(c, roots[i]) % p == 0 {
        ModUnique(i + 1, 0, i + 1, p);
        EulerPower(p, i + 1);
        assert !IsNonResidue(p, i + 1);
        EvalPowerMinusOne(h, i + 1);
        ModUnique(1, 0, 1, p);
        ModUnique(0, 0, 0, p);
        ModSub(Pow(i + 1, h), 1, 1, 1, p);
      }
      forall i, j | 0 <= i < j < |roots| ensures (roots[j] - roots[i]) % p != 0 {
        ModUnique(j - i, 0, j - i, p);
      }
      ModUnique(1, 0, 1, p);
      Lagrange(p, c, roots);
    }
  }
}
