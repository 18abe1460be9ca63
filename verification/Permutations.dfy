/** Knuth's next-permutation step, in place, over elements compared by an integer key. */
module Permutations {
  import opened Powers

  function Keys<E>(s: seq<E>, key: E -> int): (k: seq<int>)
    ensures |k| == |s|
    ensures forall i :: 0 <= i < |s| ==> k[i] == key(s[i])
  {
    seq(|s|, i requires 0 <= i < |s| => key(s[i]))
  }

  /** Lexicographic order on sequences of equal length. */
  ghost predicate LexLess(a: seq<int>, b: seq<int>) {
    |a| == |b| && exists i :: DiffersFirstAt(a, b, i)
  }

  ghost predicate DiffersFirstAt(a: seq<int>, b: seq<int>, i: int) {
    0 <= i < |a| && i < |b| && a[..i] == b[..i] && a[i] < b[i]
  }

  predicate NonIncreasing(k: seq<int>) {
    forall i :: 0 <= i < |k| - 1 ==> k[i] >= k[i + 1]
  }

  predicate NonDecreasing(k: seq<int>) {
    forall i :: 0 <= i < |k| - 1 ==> k[i] <= k[i + 1]
  }

  // ----- lexicographic order is a total order -----

  lemma LexIrreflexive(a: seq<int>)
    ensures !LexLess(a, a)
  {}

  lemma LexTransitive(a: seq<int>, b: seq<int>, c: seq<int>)
    requires LexLess(a, b) && LexLess(b, c)
    ensures LexLess(a, c)
  {
    var i :| DiffersFirstAt(a, b, i);
    var j :| DiffersFirstAt(b, c, j);
    if i <= j {
      assert b[..i] == b[..j][..i] == c[..j][..i] == c[..i];
      if i < j { assert b[i] == b[..j][i] == c[..j][i]; }
      assert DiffersFirstAt(a, c, i);
    } else {
      assert a[..j] == a[..i][..j] == b[..i][..j] == b[..j];
      assert a[j] == a[..i][j] == b[..i][j];
      assert DiffersFirstAt(a, c, j);
    }
  }

  lemma {:induction false} LexTotal(a: seq<int>, b: seq<int>)
    requires |a| == |b|
    ensures a == b || LexLess(a, b) || LexLess(b, a)
  {
    if a != b {
      var i := FirstDifference(a, b);
      assert DiffersFirstAt(a, b, i) || DiffersFirstAt(b, a, i);
    }
  }

  lemma {:induction false} FirstDifference(a: seq<int>, b: seq<int>) returns (i: nat)
    requires |a| == |b| && a != b
    ensures i < |a| && a[..i] == b[..i] && a[i] != b[i]
  {
    if a[0] != b[0] {
      i := 0;
    } else {
      assert a == [a[0]] + a[1..] && b == [b[0]] + b[1..];
      var t := FirstDifference(a[1..], b[1..]);
      i := t + 1;
      assert a[..i] == [a[0]] + a[1..][..t] && b[..i] == [b[0]] + b[1..][..t];
    }
  }

  // ----- extremes -----

  lemma {:induction false} FirstIsLargest(k: seq<int>, i: nat)
    requires NonIncreasing(k) && i < |k|
    ensures k[i] <= k[0]
  {
    if i > 0 { FirstIsLargest(k, i - 1); }
  }

  lemma {:induction false} FirstIsSmallest(k: seq<int>, i: nat)
    requires NonDecreasing(k) && i < |k|
    ensures k[0] <= k[i]
  {
    if i > 0 { FirstIsSmallest(k, i - 1); }
  }

  /** With a common prefix cut off, permutations stay permutations. */
  lemma SuffixPermutes(a: seq<int>, b: seq<int>, i: nat)
    requires multiset(a) == multiset(b) && i <= |a| && i <= |b| && a[..i] == b[..i]
    ensures multiset(a[i..]) == multiset(b[i..]) && |a| == |b|
  {
    assert a == a[..i] + a[i..] && b == b[..i] + b[i..];
    assert |multiset(a)| == |a| && |multiset(b)| == |b|;
    assert multiset(a) == multiset(a[..i]) + multiset(a[i..]);
    assert multiset(b) == multiset(b[..i]) + multiset(b[i..]);
    assert multiset(a[i..]) == multiset(a) - multiset(a[..i]);
    assert multiset(b[i..]) == multiset(b) - multiset(b[..i]);
  }

  lemma MemberOfPermutation(a: seq<int>, b: seq<int>, i: nat) returns (j: nat)
    requires multiset(a) == multiset(b) && i < |a|
    ensures j < |b| && b[j] == a[i]
  {
    assert a[i] in multiset(a);
    assert a[i] in b;
    j :| 0 <= j < |b| && b[j] == a[i];
  }

  /** No permutation comes after the non-increasing one. */
  lemma NothingAbove(k: seq<int>, z: seq<int>)
    requires NonIncreasing(k) && multiset(z) == multiset(k)
    ensures !LexLess(k, z)
  {
    if LexLess(k, z) {
      var i :| DiffersFirstAt(k, z, i);
      SuffixPermutes(k, z, i);
      var j := MemberOfPermutation(z[i..], k[i..], 0);
      FirstIsLargest(k[i..], j);
    }
  }

  /** No permutation comes before the non-decreasing one. */
  lemma NothingBelow(k: seq<int>, z: seq<int>)
    requires NonDecreasing(k) && multiset(z) == multiset(k)
    ensures !LexLess(z, k)
  {
    if LexLess(z, k) {
      var i :| DiffersFirstAt(z, k, i);
      SuffixPermutes(z, k, i);
      var j := MemberOfPermutation(z[i..], k[i..], 0);
      FirstIsSmallest(k[i..], j);
    }
  }

  // ----- the step -----

  /** r is the least permutation above k. */
  ghost predicate IsSuccessor(k: seq<int>, r: seq<int>) {
    && multiset(r) == multiset(k)
    && LexLess(k, r)
    && forall z :: multiset(z) == multiset(k) && LexLess(k, z) ==> z == r || LexLess(r, z)
  }

  /** j is the last position whose key is below the next one. */
  ghost predicate IsPivot(k: seq<int>, j: int) {
    0 <= j < |k| - 1 && k[j] < k[j + 1] && NonIncreasing(k[j + 1..])
  }

  /** l is the last position after the pivot whose key is above the pivot's. */
  ghost predicate IsPartner(k: seq<int>, j: int, l: int) {
    && 0 <= j < l < |k| && k[j] < k[l]
    && forall m :: l < m < |k| ==> k[m] <= k[j]
  }

  function Swapped<E>(s: seq<E>, i: nat, j: nat): (r: seq<E>)
    requires i < |s| && j < |s|
    ensures |r| == |s|
    ensures multiset(r) == multiset(s)
  {
    s[i := s[j]][j := s[i]]
  }

  /** r is s with everything after position j reversed. */
  ghost predicate TailReversed<E(!new)>(s: seq<E>, r: seq<E>, j: int) {
    && -1 <= j < |s| == |r|
    && r[..j + 1] == s[..j + 1]
    && forall t :: j < t < |s| ==> r[t] == s[|s| + j - t]
  }

  lemma {:induction false} NonIncreasingAt(k: seq<int>, i: nat, j: nat)
    requires NonIncreasing(k) && i <= j < |k|
    ensures k[i] >= k[j]
  {
    if i < j { NonIncreasingAt(k, i, j - 1); }
  }

  lemma TailAscends(k: seq<int>, j: nat, l: nat, r: seq<int>)
    requires IsPivot(k, j) && IsPartner(k, j, l)
    requires TailReversed(Swapped(k, j, l), r, j)
    ensures NonDecreasing(r[j + 1..])
  {
    var s := Swapped(k, j, l);
    forall m | j < m < |k| - 1 ensures s[m] >= s[m + 1] {
      NonIncreasingAt(k[j + 1..], m - (j + 1), m - j);
      assert k[j + 1..][m - (j + 1)] == k[m] && k[j + 1..][m - j] == k[m + 1];
    }
  }

  lemma StepIsSuccessor(k: seq<int>, j: nat, l: nat, r: seq<int>)
    requires IsPivot(k, j) && IsPartner(k, j, l)
    requires TailReversed(Swapped(k, j, l), r, j)
    requires multiset(r) == multiset(k)
    ensures IsSuccessor(k, r)
  {
    TailAscends(k, j, l, r);
    assert r[..j] == r[..j + 1][..j] == Swapped(k, j, l)[..j + 1][..j] == k[..j];
    assert r[j] == r[..j + 1][j] == k[l];
    assert DiffersFirstAt(k, r, j);
    forall z | multiset(z) == multiset(k) && LexLess(k, z) ensures z == r || LexLess(r, z) {
      NothingBetween(k, j, l, r, z);
    }
  }

  lemma NothingBetween(k: seq<int>, j: nat, l: nat, r: seq<int>, z: seq<int>)
    requires IsPivot(k, j) && IsPartner(k, j, l)
    requires |r| == |k| && r[..j] == k[..j] && r[j] == k[l] && NonDecreasing(r[j + 1..])
    requires multiset(r) == multiset(k) == multiset(z) && LexLess(k, z)
    ensures z == r || LexLess(r, z)
  {
    var i :| DiffersFirstAt(k, z, i);
    SuffixPermutes(k, z, i);
    if i < j {
      assert r[..i] == r[..j][..i] == k[..j][..i] == k[..i];
      assert r[i] == r[..j][i] == k[..j][i] == k[i];
      assert DiffersFirstAt(r, z, i);
    } else if i == j {
      PivotRaised(k, j, l, z);
      if z[j] > k[l] {
        assert DiffersFirstAt(r, z, j);
      } else {
        assert r[..j + 1] == r[..j] + [r[j]] && z[..j + 1] == z[..j] + [z[j]];
        SuffixPermutes(r, z, j + 1);
        NothingBelow(r[j + 1..], z[j + 1..]);
        LexTotal(r[j + 1..], z[j + 1..]);
        LiftSuffix(r, z, j + 1);
      }
    } else {
      DescentIsLast(k, j, i, z);
    }
  }

  lemma DescentIsLast(k: seq<int>, j: nat, i: nat, z: seq<int>)
    requires j < i < |k| == |z| && NonIncreasing(k[j + 1..])
    requires multiset(k[i..]) == multiset(z[i..])
    ensures k[i] >= z[i]
  {
    forall m | 0 <= m < |k[i..]| - 1 ensures k[i..][m] >= k[i..][m + 1] {
      assert k[i..][m] == k[j + 1..][i - (j + 1) + m] && k[i..][m + 1] == k[j + 1..][i - j + m];
    }
    assert k[i] < z[i] ==> DiffersFirstAt(k[i..], z[i..], 0);
    NothingAbove(k[i..], z[i..]);
  }

  /** An order between suffixes is an order between wholes with the same prefix. */
  lemma LiftSuffix(a: seq<int>, b: seq<int>, i: nat)
    requires |a| == |b| && i <= |a| && a[..i] == b[..i]
    ensures LexLess(a[i..], b[i..]) ==> LexLess(a, b)
    ensures a[i..] == b[i..] ==> a == b
  {
    assert a == a[..i] + a[i..] && b == b[..i] + b[i..];
    if LexLess(a[i..], b[i..]) {
      var m :| DiffersFirstAt(a[i..], b[i..], m);
      assert a[..i + m] == a[..i] + a[i..][..m] && b[..i + m] == b[..i] + b[i..][..m];
      assert DiffersFirstAt(a, b, i + m);
    }
  }

  /** A permutation that raises the pivot position puts at least the partner there. */
  lemma PivotRaised(k: seq<int>, j: nat, l: nat, z: seq<int>)
    requires IsPivot(k, j) && IsPartner(k, j, l)
    requires |z| == |k| && multiset(z[j..]) == multiset(k[j..]) && z[j] > k[j]
    ensures z[j] >= k[l]
  {
    var m := MemberOfPermutation(z[j..], k[j..], 0);
    assert k[j..][m] == k[j + m] == z[j];
    if m > 0 && j + m <= l {
      NonIncreasingAt(k[j + 1..], m - 1, l - (j + 1));
    }
  }

  lemma SwapElements<E>(s: seq<E>, i: nat, j: nat)
    requires i < |s| && j < |s|
    ensures Swapped(s, i, j) == s[i := s[j]][j := s[i]]
  {}

  lemma SwapKeys<E>(s: seq<E>, key: E -> int, i: nat, j: nat)
    requires i < |s| && j < |s|
    ensures Keys(Swapped(s, i, j), key) == Swapped(Keys(s, key), i, j)
  {}

  /** The next permutation by key, in place; false, with nothing changed, on the last one. */
  method NextPermutation<E(!new)>(x: array<E>, key: E -> int) returns (more: bool)
    modifies x
    ensures multiset(x[..]) == old(multiset(x[..]))
    ensures more <==> !NonIncreasing(Keys(old(x[..]), key))
    ensures !more ==> x[..] == old(x[..])
    ensures more ==> IsSuccessor(Keys(old(x[..]), key), Keys(x[..], key))
  {
    hide IsSuccessor, LexLess, TailReversed, Swapped, NonIncreasing;
    ghost var s := x[..];
    ghost var k := Keys(s, key);
    var n := x.Length - 1;
    if n < 1 {
      ShortDescends(k);
      return false;
    }
    var j := n - 1;
    ShortDescends(k[n..]);
    while !(key(x[j]) < key(x[j + 1]))
      invariant 0 <= j < n && x[..] == s
      invariant NonIncreasing(k[j + 1..])
      decreases j
    {
      ExtendDescent(k, j);
      if j == 0 {
        assert k[0..] == k;
        return false;
      }
      j := j - 1;
    }
    var l := n;
    while !(key(x[j]) < key(x[l]))
      invariant j < l <= n && x[..] == s
      invariant forall m :: l < m <= n ==> k[m] <= k[j]
      decreases l
    {
      l := l - 1;
    }
    x[j], x[l] := x[l], x[j];
    ghost var w := Swapped(s, j, l);
    SwapElements(s, j, l);
    assert x[..] == w;
    SwapKeys(s, key, j, l);
    ReverseTail(x, j, key);
    KeepTail(w, x[..], key, j);
    StepIsSuccessor(k, j, l, Keys(x[..], key));
    LaterIsNotLast(k, j);
    return true;
  }

  lemma KeepTail<E(!new)>(s: seq<E>, r: seq<E>, key: E -> int, j: int)
    requires TailReversed(s, r, j)
    ensures TailReversed(Keys(s, key), Keys(r, key), j)
  {
    forall t | 0 <= t <= j ensures r[t] == s[t] {
      assert r[t] == r[..j + 1][t] == s[..j + 1][t];
    }
    assert Keys(r, key)[..j + 1] == Keys(s, key)[..j + 1];
  }

  /** Everything after position j, or everything when j is -1, is put in reverse. */
  method ReverseTail<E(!new)>(x: array<E>, j: int, key: E -> int)
    requires -1 <= j < x.Length
    modifies x
    ensures TailReversed(old(x[..]), x[..], j)
    ensures multiset(x[..]) == old(multiset(x[..]))
    ensures multiset(Keys(x[..], key)) == multiset(Keys(old(x[..]), key))
  {
    hide PartlyReversed, TailReversed, Keys, Swapped;
    var n := x.Length - 1;
    ghost var w := x[..];
    NothingReversed(w, j);
    ghost var cur := w;
    var a, b := j + 1, n;
    while a < b
      invariant j < a <= b + 1 <= n + 1 && a + b == n + j + 1
      invariant x[..] == cur && |cur| == |w|
      invariant multiset(cur) == multiset(w)
      invariant multiset(Keys(cur, key)) == multiset(Keys(w, key))
      invariant PartlyReversed(w, cur, j, a, b)
      decreases b - a
    {
      x[a], x[b] := x[b], x[a];
      SwapElements(cur, a, b);
      SwapKeys(cur, key, a, b);
      SwapInward(w, cur, j, a, b);
      cur := Swapped(cur, a, b);
      a, b := a + 1, b - 1;
    }
    AllReversed(w, cur, j, a, b);
  }

  /** Reversed outside a..b, untouched within. */
  ghost predicate PartlyReversed<E(!new)>(w: seq<E>, x: seq<E>, j: int, a: int, b: int) {
    && |x| == |w| && -1 <= j < a <= b + 1 <= |w| && a + b == |w| + j
    && (forall t :: 0 <= t <= j ==> x[t] == w[t])
    && (forall t :: a <= t <= b ==> x[t] == w[t])
    && forall t :: j < t < a || b < t < |w| ==> x[t] == w[|w| + j - t]
  }

  lemma NothingReversed<E(!new)>(w: seq<E>, j: int)
    requires -1 <= j < |w|
    ensures PartlyReversed(w, w, j, j + 1, |w| - 1)
  {}

  lemma AllReversed<E(!new)>(w: seq<E>, x: seq<E>, j: int, a: int, b: int)
    requires PartlyReversed(w, x, j, a, b) && a >= b
    ensures TailReversed(w, x, j)
  {
    assert x[..j + 1] == w[..j + 1];
  }

  lemma SwapInward<E(!new)>(w: seq<E>, x: seq<E>, j: int, a: nat, b: nat)
    requires PartlyReversed(w, x, j, a, b) && a < b
    ensures PartlyReversed(w, Swapped(x, a, b), j, a + 1, b - 1)
  {}

  lemma ShortDescends(k: seq<int>)
    requires |k| <= 1
    ensures NonIncreasing(k)
  {}

  lemma ExtendDescent(k: seq<int>, j: nat)
    requires j + 1 < |k| && k[j] >= k[j + 1] && NonIncreasing(k[j + 1..])
    ensures NonIncreasing(k[j..])
  {
    assert k[j..] == [k[j]] + k[j + 1..];
  }

  lemma LaterIsNotLast(k: seq<int>, j: nat)
    requires IsPivot(k, j)
    ensures !NonIncreasing(k)
  {}

  // ----- iterating the step -----

  /** Consecutive steps, starting from c[0]. */
  ghost predicate IsChain(c: seq<seq<int>>) {
    |c| > 0 && forall i :: 0 <= i < |c| - 1 ==> IsSuccessor(c[i], c[i + 1])
  }

  lemma {:induction false} ChainAscends(c: seq<seq<int>>, i: nat, j: nat)
    requires IsChain(c) && i < j < |c|
    ensures LexLess(c[i], c[j])
  {
    assert IsSuccessor(c[j - 1], c[j - 1 + 1]);
    if i < j - 1 {
      ChainAscends(c, i, j - 1);
      LexTransitive(c[i], c[j - 1], c[j]);
    }
  }

  lemma {:induction false} ChainPermutes(c: seq<seq<int>>, i: nat)
    requires IsChain(c) && i < |c|
    ensures multiset(c[i]) == multiset(c[0])
  {
    if i > 0 {
      ChainPermutes(c, i - 1);
      assert IsSuccessor(c[i - 1], c[i - 1 + 1]);
    }
  }

  /** Every permutation is either already visited or still ahead. */
  lemma {:induction false} VisitedOrAhead(c: seq<seq<int>>, z: seq<int>, i: nat)
    requires IsChain(c) && NonDecreasing(c[0]) && i < |c|
    requires multiset(z) == multiset(c[0])
    ensures z in c[..i + 1] || LexLess(c[i], z)
  {
    if i == 0 {
      assert |z| == |multiset(z)| == |multiset(c[0])| == |c[0]|;
      NothingBelow(c[0], z);
      LexTotal(c[0], z);
      assert c[..1] == [c[0]];
    } else {
      VisitedOrAhead(c, z, i - 1);
      ChainPermutes(c, i - 1);
      assert IsSuccessor(c[i - 1], c[i - 1 + 1]);
      assert c[..i + 1] == c[..i] + [c[i]];
    }
  }

  /**
   * From ascending order until the step refuses, every arrangement of the
   * keys is met at exactly one position.
   */
  lemma EveryArrangementOnce(c: seq<seq<int>>, z: seq<int>)
    requires IsChain(c) && NonDecreasing(c[0]) && NonIncreasing(c[|c| - 1])
    ensures multiset(z) == multiset(c[0]) <==> z in c
    ensures forall i, j :: 0 <= i < j < |c| ==> c[i] != c[j]
  {
    forall i, j | 0 <= i < j < |c| ensures c[i] != c[j] {
      ChainAscends(c, i, j);
      LexIrreflexive(c[i]);
    }
    if multiset(z) == multiset(c[0]) {
      VisitedOrAhead(c, z, |c| - 1);
      ChainPermutes(c, |c| - 1);
      NothingAbove(c[|c| - 1], z);
      assert c[..|c| - 1 + 1] == c;
    }
    if z in c {
      var i :| 0 <= i < |c| && c[i] == z;
      ChainPermutes(c, i);
    }
  }

  // ----- the iteration ends -----

  /** The keys read as digits of a number in base b. */
  function Value(k: seq<int>, b: nat): (r: int) {
    if k == [] then 0 else k[0] * Pow(b, |k| - 1) + Value(k[1..], b)
  }

  ghost predicate Digits(k: seq<int>, b: nat) {
    forall i :: 0 <= i < |k| ==> 0 <= k[i] < b
  }

  lemma {:induction false} ValueBound(k: seq<int>, b: nat)
    requires Digits(k, b)
    ensures 0 <= Value(k, b) < Pow(b, |k|)
  {
    if k != [] {
      ValueBound(k[1..], b);
      assert 0 <= k[0] < b;
      PowPositive(b, |k| - 1);
      DigitStep(k[0], b, Pow(b, |k| - 1));
    }
  }

  lemma DigitStep(d: int, b: nat, q: nat)
    requires 0 <= d < b
    ensures 0 <= d * q && d * q + q <= b * q
  {
    LargerDigit(d, b, q);
    if d > 0 { LargerDigit(0, d, q); }
  }

  lemma LargerDigit(c: int, d: int, q: nat)
    requires c < d
    ensures c * q + q <= d * q
  {
    var e: nat := d - c - 1;
    assert d * q == c * q + q + e * q;
  }

  /** A later arrangement has the larger value. */
  lemma {:induction false} ValueAscends(a: seq<int>, c: seq<int>, b: nat)
    requires LexLess(a, c) && Digits(a, b) && Digits(c, b)
    ensures Value(a, b) < Value(c, b)
  {
    var i :| DiffersFirstAt(a, c, i);
    if i == 0 {
      ValueBound(a[1..], b);
      ValueBound(c[1..], b);
      PowPositive(b, |a| - 1);
      LargerDigit(a[0], c[0], Pow(b, |a| - 1));
    } else {
      assert a[0] == a[..i][0] == c[..i][0] == c[0];
      assert a[1..][..i - 1] == a[..i][1..] == c[..i][1..] == c[1..][..i - 1];
      assert DiffersFirstAt(a[1..], c[1..], i - 1);
      ValueAscends(a[1..], c[1..], b);
    }
  }
}
