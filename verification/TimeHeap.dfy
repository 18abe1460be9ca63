/** A binary min-heap of instants, kept in a list. */
module TimeHeap {
  import opened Permutations

  predicate IsParent(i: int, j: int) {
    j == 2 * i + 1 || j == 2 * i + 2
  }

  ghost predicate Ordered(h: seq<int>) {
    forall i, j :: 0 <= i < j < |h| && IsParent(i, j) ==> h[i] <= h[j]
  }

  lemma {:induction false} RootIsLeast(h: seq<int>, i: nat)
    requires Ordered(h) && i < |h|
    ensures h[0] <= h[i]
  {
    if i > 0 {
      var p := (i - 1) / 2;
      assert IsParent(p, i);
      RootIsLeast(h, p);
    }
  }

  /** Ordered but for j and its parent; j's children are no less than that parent. */
  ghost predicate OrderedBut(h: seq<int>, j: nat) {
    && j < |h|
    && (forall a, b :: 0 <= a < b < |h| && IsParent(a, b) && b != j ==> h[a] <= h[b])
    && forall a, b :: 0 <= a < j < b < |h| && IsParent(a, j) && IsParent(j, b) ==> h[a] <= h[b]
  }

  /** The first n ordered but for i and its children, which are no less than i's parent. */
  ghost predicate OrderedBelow(h: seq<int>, i: nat, n: nat) {
    && n <= |h|
    && (forall a, b :: 0 <= a < b < n && IsParent(a, b) && a != i ==> h[a] <= h[b])
    && forall a, b :: 0 <= a < i < b < n && IsParent(a, i) && IsParent(i, b) ==> h[a] <= h[b]
  }

  lemma UpStep(h: seq<int>, i: nat, j: nat)
    requires OrderedBut(h, j) && i < j && IsParent(i, j) && h[j] < h[i]
    ensures OrderedBut(Swapped(h, i, j), i)
  {
    var r := Swapped(h, i, j);
    forall a, b | 0 <= a < b < |r| && IsParent(a, b) && b != i ensures r[a] <= r[b] {
      if b == j {
        assert a == i;
      } else if a == j {
        assert r[a] == h[i] && r[b] == h[b];
      }
    }
    forall a, b | 0 <= a < i < b < |r| && IsParent(a, i) && IsParent(i, b) ensures r[a] <= r[b] {
      assert h[a] <= h[i];
    }
  }

  lemma DownStep(h: seq<int>, i: nat, j: nat, n: nat)
    requires OrderedBelow(h, i, n) && i < j < n && IsParent(i, j) && h[j] < h[i]
    requires forall b :: i < b < n && IsParent(i, b) ==> h[j] <= h[b]
    ensures OrderedBelow(Swapped(h, i, j), j, n)
    ensures forall m :: n <= m < |h| ==> Swapped(h, i, j)[m] == h[m]
  {
    var r := Swapped(h, i, j);
    forall a, b | 0 <= a < b < n && IsParent(a, b) && a != j ensures r[a] <= r[b] {
      if b == i {
        assert r[a] == h[a] && r[b] == h[j];
      }
    }
    forall a, b | 0 <= a < j < b < n && IsParent(a, j) && IsParent(j, b) ensures r[a] <= r[b] {
      assert a == i && h[j] <= h[b];
    }
  }

  method Push(h: seq<int>, x: int) returns (r: seq<int>)
    requires Ordered(h)
    ensures Ordered(r) && multiset(r) == multiset(h) + multiset{x} && |r| == |h| + 1
  {
    r := h + [x];
    var j := |h|;
    AppendOrdered(h, x);
    while j > 0
      invariant 0 <= j < |r| == |h| + 1 && OrderedBut(r, j)
      invariant multiset(r) == multiset(h) + multiset{x}
    {
      hide OrderedBut, Ordered;
      var i := (j - 1) / 2;
      if !(r[j] < r[i]) {
        break;
      }
      UpStep(r, i, j);
      r := Swapped(r, i, j);
      j := i;
    }
    UpDone(r, j);
  }

  lemma AppendOrdered(h: seq<int>, x: int)
    requires Ordered(h)
    ensures OrderedBut(h + [x], |h|)
  {}

  lemma UpDone(h: seq<int>, j: nat)
    requires OrderedBut(h, j) && (j > 0 ==> h[(j - 1) / 2] <= h[j])
    ensures Ordered(h)
  {
    forall a, b | 0 <= a < b < |h| && IsParent(a, b) ensures h[a] <= h[b] {
      if b == j { assert a == (j - 1) / 2; }
    }
  }

  lemma DownDone(h: seq<int>, i: nat, n: nat)
    requires OrderedBelow(h, i, n)
    requires forall b :: i < b < n && IsParent(i, b) ==> h[i] <= h[b]
    ensures Ordered(h[..n])
  {}

  /** The root, which is the least, is taken out. */
  method Pop(h: seq<int>) returns (x: int, r: seq<int>)
    requires Ordered(h) && h != []
    ensures x == h[0] && forall i :: 0 <= i < |h| ==> x <= h[i]
    ensures Ordered(r) && multiset(h) == multiset(r) + multiset{x} && |r| == |h| - 1
  {
    hide OrderedBelow, Ordered, Swapped;
    forall i | 0 <= i < |h| ensures h[0] <= h[i] { RootIsLeast(h, i); }
    var n := |h| - 1;
    var s := Swapped(h, 0, n);
    LastToRoot(h);
    s := Down(s, n);
    x, r := s[n], s[..n];
    assert s == s[..n] + [s[n]];
  }

  lemma LastToRoot(h: seq<int>)
    requires Ordered(h) && h != []
    ensures OrderedBelow(Swapped(h, 0, |h| - 1), 0, |h| - 1)
    ensures Swapped(h, 0, |h| - 1)[|h| - 1] == h[0]
  {}

  method Down(h: seq<int>, n: nat) returns (r: seq<int>)
    requires n < |h| && OrderedBelow(h, 0, n)
    ensures |r| == |h| && Ordered(r[..n]) && multiset(r) == multiset(h) && r[n] == h[n]
  {
    hide OrderedBelow, Ordered, Swapped;
    r := h;
    var i := 0;
    while true
      invariant |r| == |h| && OrderedBelow(r, i, n) && (i < n || i == 0)
      invariant multiset(r) == multiset(h) && r[n] == h[n]
      decreases n - i
    {
      var j := 2 * i + 1;
      if j >= n {
        break;
      }
      if j + 1 < n && r[j + 1] < r[j] {
        j := j + 1;
      }
      assert forall b :: i < b < n && IsParent(i, b) ==> r[j] <= r[b];
      if !(r[j] < r[i]) {
        break;
      }
      DownStep(r, i, j, n);
      r := Swapped(r, i, j);
      i := j;
    }
    DownDone(r, i, n);
  }
}
