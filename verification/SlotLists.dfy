/** Slot lists: trimming to a bound, and the merge of two ascending lists without repeats. */
module SlotLists {
  import opened Permutations

  predicate StrictlyAscending(s: seq<int>) {
    forall i, j :: 0 <= i < j < |s| ==> s[i] < s[j]
  }

  ghost predicate SameMembers(a: seq<int>, b: seq<int>) {
    forall v :: v in a <==> v in b
  }

  lemma AppendStrict(s: seq<int>, z: int)
    ensures StrictlyAscending(s) && (forall v :: v in s ==> v < z) ==> StrictlyAscending(s + [z])
  {
    assert forall i :: 0 <= i < |s| ==> s[i] in s;
  }

  // ----- the reference: one strictly ascending list for each set of slots -----

  function Insert(v: int, s: seq<int>): (r: seq<int>)
    requires StrictlyAscending(s)
    ensures StrictlyAscending(r)
    ensures forall w :: w in r <==> w == v || w in s
  {
    if s == [] then [v]
    else
      var z := s[|s| - 1];
      assert s == s[..|s| - 1] + [z];
      if z < v then s + [v]
      else if z == v then s
      else
        var r := Insert(v, s[..|s| - 1]);
        AppendStrict(r, z);
        r + [z]
  }

  /** The strictly ascending list of the members of s. */
  function SortedSet(s: seq<int>): (r: seq<int>)
    ensures StrictlyAscending(r)
    ensures forall w :: w in r <==> w in s
  {
    if s == [] then []
    else
      assert s == s[..|s| - 1] + [s[|s| - 1]];
      Insert(s[|s| - 1], SortedSet(s[..|s| - 1]))
  }

  /** Nothing but its members determines a strictly ascending list. */
  lemma {:induction false} StrictUnique(a: seq<int>, b: seq<int>)
    requires StrictlyAscending(a) && StrictlyAscending(b) && SameMembers(a, b)
    ensures a == b
  {
    hide SameMembers;
    EmptyTogether(a, b);
    if a != [] {
      LastsAgree(a, b);
      var m, n := |a| - 1, |b| - 1;
      SameButLast(a, b);
      StrictUnique(a[..m], b[..n]);
      assert a == a[..m] + [a[m]] && b == b[..n] + [b[n]];
    }
  }

  lemma EmptyTogether(a: seq<int>, b: seq<int>)
    requires SameMembers(a, b)
    ensures a == [] <==> b == []
  {
    if a != [] {
      var v := a[0];
      assert v in a;
      assert v in b;
    }
    if b != [] {
      var v := b[0];
      assert v in b;
      assert v in a;
    }
  }

  lemma SameButLast(a: seq<int>, b: seq<int>)
    requires StrictlyAscending(a) && StrictlyAscending(b) && SameMembers(a, b)
    requires a != [] && b != [] && a[|a| - 1] == b[|b| - 1]
    ensures SameMembers(a[..|a| - 1], b[..|b| - 1])
  {
    hide StrictlyAscending;
    var p, q := a[..|a| - 1], b[..|b| - 1];
    forall v ensures v in p <==> v in q {
      ButLast(a, v);
      ButLast(b, v);
      assert v in a <==> v in b;
    }
  }

  lemma ButLast(a: seq<int>, v: int)
    requires a != [] && StrictlyAscending(a)
    ensures v in a[..|a| - 1] <==> v in a && v != a[|a| - 1]
  {
    assert a == a[..|a| - 1] + [a[|a| - 1]];
  }

  lemma LastsAgree(a: seq<int>, b: seq<int>)
    requires StrictlyAscending(a) && StrictlyAscending(b) && SameMembers(a, b)
    requires a != [] && b != []
    ensures a[|a| - 1] == b[|b| - 1]
  {
    assert a[|a| - 1] in a && b[|b| - 1] in b;
  }

  /** A list with the members of s in strict order is SortedSet(s). */
  lemma IsSortedSet(r: seq<int>, s: seq<int>)
    requires StrictlyAscending(r) && SameMembers(r, s)
    ensures r == SortedSet(s)
  {
    StrictUnique(r, SortedSet(s));
  }

  /** Sorting the parts first changes nothing. */
  lemma SortedSetOfParts(a: seq<int>, b: seq<int>)
    ensures SortedSet(SortedSet(a) + SortedSet(b)) == SortedSet(a + b)
  {
    IsSortedSet(SortedSet(SortedSet(a) + SortedSet(b)), a + b);
  }

  lemma SortedSetOfStrict(s: seq<int>)
    requires StrictlyAscending(s)
    ensures SortedSet(s) == s
  {
    IsSortedSet(s, s);
  }

  // ----- the merge -----

  /** r holds what was read from both lists, in strict order, and what is still to come is not below. */
  ghost predicate Merged(r: seq<int>, a: seq<int>, i: int, b: seq<int>, j: int) {
    && 0 <= i <= |a| && 0 <= j <= |b|
    && StrictlyAscending(r) && SameMembers(r, a[..i] + b[..j])
    && (r != [] && i < |a| ==> r[|r| - 1] <= a[i])
    && (r != [] && j < |b| ==> r[|r| - 1] <= b[j])
  }

  lemma MergedSymmetric(r: seq<int>, a: seq<int>, i: int, b: seq<int>, j: int)
    requires Merged(r, a, i, b, j)
    ensures Merged(r, b, j, a, i)
  {
    forall v ensures v in r <==> v in b[..j] + a[..i] {
      assert v in r <==> v in a[..i] + b[..j];
    }
  }

  lemma ReadOne(r: seq<int>, q: seq<int>, a: seq<int>, i: int, b: seq<int>, j: int)
    requires 0 <= i < |a| && 0 <= j <= |b| && SameMembers(r, a[..i] + b[..j])
    requires forall v :: v in q <==> v in r || v == a[i]
    ensures SameMembers(q, a[..i + 1] + b[..j])
  {
    assert a[..i + 1] == a[..i] + [a[i]];
    forall v ensures v in q <==> v in a[..i + 1] + b[..j] {
      assert v in r <==> v in a[..i] + b[..j];
    }
  }

  lemma SkipEqual(r: seq<int>, a: seq<int>, i: int, b: seq<int>, j: int)
    requires Merged(r, a, i, b, j) && NonDecreasing(a)
    requires i < |a| && r != [] && a[i] == r[|r| - 1]
    ensures Merged(r, a, i + 1, b, j)
  {
    ReadOne(r, r, a, i, b, j);
  }

  lemma TakeSmaller(r: seq<int>, a: seq<int>, i: int, b: seq<int>, j: int)
    requires Merged(r, a, i, b, j) && NonDecreasing(a)
    requires i < |a| && (r != [] ==> a[i] != r[|r| - 1]) && (j < |b| ==> a[i] <= b[j])
    ensures Merged(r + [a[i]], a, i + 1, b, j)
  {
    ReadOne(r, r + [a[i]], a, i, b, j);
  }

  method JoinSlots(a: seq<int>, b: seq<int>) returns (r: seq<int>)
    requires NonDecreasing(a) && NonDecreasing(b)
    ensures StrictlyAscending(r)
    ensures forall v :: v in r <==> v in a || v in b
    ensures r == SortedSet(a + b)
  {
    hide Merged, SortedSet, StrictlyAscending, NonDecreasing;
    r := [];
    var i, j := 0, 0;
    NothingRead(a, b);
    while i < |a| && j < |b|
      invariant 0 <= i <= |a| && 0 <= j <= |b|
      invariant Merged(r, a, i, b, j)
    {
      if |r| > 0 && a[i] == r[|r| - 1] {
        SkipEqual(r, a, i, b, j);
        i := i + 1;
      } else if |r| > 0 && b[j] == r[|r| - 1] {
        MergedSymmetric(r, a, i, b, j);
        SkipEqual(r, b, j, a, i);
        j := j + 1;
        MergedSymmetric(r, b, j, a, i);
      } else if a[i] <= b[j] {
        TakeSmaller(r, a, i, b, j);
        r := r + [a[i]];
        i := i + 1;
      } else {
        MergedSymmetric(r, a, i, b, j);
        TakeSmaller(r, b, j, a, i);
        r := r + [b[j]];
        j := j + 1;
        MergedSymmetric(r, b, j, a, i);
      }
    }
    r := Drain(r, a, i, b, j);
    MergedSymmetric(r, a, |a|, b, j);
    r := Drain(r, b, j, a, |a|);
    AllRead(r, a, b);
  }

  /** The tail loop, for whichever list is left. */
  method Drain(r0: seq<int>, a: seq<int>, i0: nat, b: seq<int>, j: nat) returns (r: seq<int>)
    requires Merged(r0, a, i0, b, j) && NonDecreasing(a)
    requires i0 == |a| || j == |b|
    ensures Merged(r, a, |a|, b, j)
    ensures i0 == |a| ==> r == r0
  {
    r := r0;
    for i := i0 to |a|
      invariant Merged(r, a, i, b, j)
      invariant i0 == |a| ==> r == r0
    {
      if |r| == 0 || a[i] != r[|r| - 1] {
        TakeSmaller(r, a, i, b, j);
        r := r + [a[i]];
      } else {
        SkipEqual(r, a, i, b, j);
      }
    }
  }

  lemma NothingRead(a: seq<int>, b: seq<int>)
    ensures Merged([], a, 0, b, 0)
  {}

  lemma AllRead(r: seq<int>, a: seq<int>, b: seq<int>)
    requires Merged(r, b, |b|, a, |a|)
    ensures StrictlyAscending(r)
    ensures forall v :: v in r <==> v in a || v in b
    ensures r == SortedSet(a + b)
  {
    assert a[..|a|] == a && b[..|b|] == b;
    assert forall v :: v in r <==> v in b + a;
    IsSortedSet(r, a + b);
  }

  // ----- trimming -----

  lemma StrictIsNonDecreasing(s: seq<int>)
    requires StrictlyAscending(s)
    ensures NonDecreasing(s)
  {}

  /** The slots up to and including n. */
  method FilterLte(s: seq<int>, n: int) returns (r: seq<int>)
    requires StrictlyAscending(s)
    ensures StrictlyAscending(r)
    ensures forall v :: v in r <==> v in s && v <= n
    ensures r == UpTo(s, n)
  {
    r := s;
    while |r| > 0 && r[|r| - 1] > n
      invariant StrictlyAscending(r)
      invariant forall v :: v in r ==> v in s
      invariant forall v :: v in s && v <= n ==> v in r
      decreases |r|
    {
      ghost var before := r;
      r := r[..|r| - 1];
      assert before == r + [before[|before| - 1]];
    }
    UpToUnique(s, n, r);
  }

  /** The slots after n. */
  method FilterGt(s: seq<int>, n: int) returns (r: seq<int>)
    requires StrictlyAscending(s)
    ensures StrictlyAscending(r)
    ensures forall v :: v in r <==> v in s && v > n
  {
    r := s;
    while |r| > 0 && r[0] <= n
      invariant StrictlyAscending(r)
      invariant forall v :: v in r ==> v in s
      invariant forall v :: v in s && v > n ==> v in r
      decreases |r|
    {
      ghost var before := r;
      r := r[1..];
      assert before == [before[0]] + r;
    }
  }

  function UpTo(s: seq<int>, n: int): (r: seq<int>)
    ensures forall v :: v in r <==> v in s && v <= n
    ensures StrictlyAscending(s) ==> StrictlyAscending(r)
  {
    if s == [] then []
    else
      var z := s[|s| - 1];
      assert s == s[..|s| - 1] + [z];
      var r := UpTo(s[..|s| - 1], n);
      assert StrictlyAscending(s) ==> forall v :: v in r ==> v < z;
      AppendStrict(r, z);
      if z <= n then r + [z] else r
  }

  lemma UpToUnique(s: seq<int>, n: int, r: seq<int>)
    requires StrictlyAscending(s) && StrictlyAscending(r)
    requires forall v :: v in r <==> v in s && v <= n
    ensures r == UpTo(s, n)
  {
    StrictUnique(r, UpTo(s, n));
  }
}
