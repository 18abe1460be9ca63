/**
 * When the search over arrangements of sizes is a search over all
 * arrangements of the entries: exactly when entries of equal size hold equal
 * slots.
 */
module SlotTies {
  import opened Permutations
  import opened SlotLists
  import opened SlotTuples
  import opened SlotPartition

  ghost predicate TiesShareSlots(y: seq<SlotEntry>) {
    forall i, j :: 0 <= i < j < |y| && Size(y[i]) == Size(y[j]) ==> y[i].slots == y[j].slots
  }

  // ----- without such ties the result is the optimum -----

  lemma SameSizeSameSlots(y: seq<SlotEntry>, v: seq<SlotEntry>, w: seq<SlotEntry>, m: nat)
    requires TiesShareSlots(y) && multiset(v) == multiset(y) == multiset(w)
    requires Sizes(v) == Sizes(w) && m < |v| && m < |w|
    ensures v[m].slots == w[m].slots
  {
    assert v[m] in multiset(v) && w[m] in multiset(w);
    assert v[m] in y && w[m] in y;
    var i :| 0 <= i < |y| && y[i] == v[m];
    var j :| 0 <= j < |y| && y[j] == w[m];
    assert Size(v[m]) == Sizes(v)[m] == Sizes(w)[m] == Size(w[m]);
  }

  lemma SameSlotsSameSpread(x: seq<SlotEntry>, v: seq<SlotEntry>, w: seq<SlotEntry>)
    requires |x| == |v| == |w| > 0
    requires forall m :: 0 <= m < |v| ==> v[m].slots == w[m].slots
    ensures Spread(CombinedAll(x, v)) == Spread(CombinedAll(x, w))
  {
    assert Sizes(CombinedAll(x, v)) == Sizes(CombinedAll(x, w));
  }

  /** No arrangement of the entries of y gives a smaller spread than the one returned. */
  lemma UntiedSearchIsOptimal(x: seq<SlotEntry>, y: seq<SlotEntry>, visited: seq<seq<SlotEntry>>, r: SlotTuple,
                              w: seq<SlotEntry>)
    requires NonDecreasing(Sizes(y)) && TiesShareSlots(y)
    requires SearchDone(x, y, visited, r) && multiset(w) == multiset(y)
    ensures |w| == |x| > 0 && r.diff <= Spread(CombinedAll(x, w))
  {
    assert y in visited;
    assert |w| == |multiset(w)| == |multiset(y)| == |y|;
    if r.diff != 0 {
      SizesPermute(w, y);
      SearchIsExhaustive(x, y, visited, r, Sizes(w));
      var v: seq<SlotEntry> :| v in visited && Sizes(v) == Sizes(w) && |v| == |x|
        && r.diff <= Spread(CombinedAll(x, v));
      forall m | 0 <= m < |v| ensures v[m].slots == w[m].slots {
        SameSizeSameSlots(y, v, w, m);
      }
      SameSlotsSameSpread(x, v, w);
    }
  }

  // ----- sizes of unions -----

  lemma {:induction false} SubsetSize(a: seq<int>, u: seq<int>)
    requires StrictlyAscending(a) && StrictlyAscending(u) && forall v :: v in a ==> v in u
    ensures |a| <= |u| && (|a| == |u| ==> a == u)
  {
    hide StrictlyAscending;
    if a != [] {
      var z := a[|a| - 1];
      assert z in a && z in u;
      var m, n := |a| - 1, |u| - 1;
      AllBelowLast(a);
      AllBelowLast(u);
      if u[n] == z {
        forall v | v in a[..m] ensures v in u[..n] {
          ButLast(a, v);
          ButLast(u, v);
        }
        SubsetSize(a[..m], u[..n]);
        assert a == a[..m] + [z] && u == u[..n] + [z];
      } else {
        forall v | v in a ensures v in u[..n] {
          ButLast(u, v);
        }
        SubsetSize(a, u[..n]);
      }
    }
  }

  lemma AllBelowLast(a: seq<int>)
    requires StrictlyAscending(a) && a != []
    ensures forall v :: v in a ==> v <= a[|a| - 1]
    ensures StrictlyAscending(a[..|a| - 1])
  {}

  /** c consecutive slots from m on. */
  function Run(m: int, c: nat): (r: seq<int>)
    ensures |r| == c && StrictlyAscending(r)
    ensures forall v :: v in r <==> m <= v < m + c
  {
    if c == 0 then []
    else
      AppendStrict(Run(m, c - 1), m + c - 1);
      Run(m, c - 1) + [m + c - 1]
  }

  lemma JoinStrict(a: seq<int>, b: seq<int>, m: int)
    requires StrictlyAscending(a) && StrictlyAscending(b)
    requires (forall v :: v in a ==> v < m) && forall v :: v in b ==> m <= v
    ensures StrictlyAscending(a + b)
  {
    forall i, j | 0 <= i < j < |a + b| ensures (a + b)[i] < (a + b)[j] {
      if i < |a| <= j {
        assert a[i] in a && b[j - |a|] in b;
      }
    }
  }

  ghost predicate Below(y: seq<SlotEntry>, m: int) {
    forall e, v :: e in y && v in e.slots ==> v < m
  }

  lemma {:induction false} SomeBound(y: seq<SlotEntry>) returns (m: int)
    ensures Below(y, m)
  {
    if y == [] {
      m := 0;
    } else {
      var k := SomeBound(y[1..]);
      assert y == [y[0]] + y[1..];
      m := k;
      if y[0].slots != [] {
        var top := Largest(y[0].slots);
        if top >= k { m := top + 1; }
      }
    }
  }

  // ----- spread zero -----

  lemma EvenSpread(s: seq<SlotEntry>, n: int)
    requires s != [] && forall p :: 0 <= p < |s| ==> Size(s[p]) == n
    ensures Spread(s) == 0
  {
    var k := Sizes(s);
    var hi, lo := Largest(k), Smallest(k);
    var p :| 0 <= p < |k| && k[p] == hi;
    var q :| 0 <= q < |k| && k[q] == lo;
  }

  lemma ZeroSpread(s: seq<SlotEntry>, p: nat, q: nat)
    requires s != [] && Spread(s) == 0 && p < |s| && q < |s|
    ensures Size(s[p]) == Size(s[q])
  {
    var k := Sizes(s);
    var a, b := k[p], k[q];
    assert a in k && b in k;
  }

  // ----- with a tie of different slots, the optimum can be missed -----

  /** All slots of the entries, one list after the other. */
  function SlotsIn(y: seq<SlotEntry>): (r: seq<int>)
    ensures forall e, v :: e in y && v in e.slots ==> v in r
  {
    if y == [] then []
    else
      assert y == [y[0]] + y[1..];
      y[0].slots + SlotsIn(y[1..])
  }

  /** How many different slots the entries have. */
  function Total(y: seq<SlotEntry>): (n: nat) { |SortedSet(SlotsIn(y))| }

  lemma EntryWithinTotal(y: seq<SlotEntry>, e: SlotEntry)
    requires AllStrict(y) && e in y
    ensures |e.slots| <= Total(y)
  {
    hide SortedSet;
    SubsetSize(e.slots, SortedSet(SlotsIn(y)));
  }

  /**
   * Entries of one common size that absorb those of w: each holds the slots
   * of w's entry and fresh ones, the last holds all slots of y.
   */
  function Absorbing(y: seq<SlotEntry>, w: seq<SlotEntry>, m: int): (x: seq<SlotEntry>)
    requires |w| == |y| && forall p :: 0 <= p < |w| ==> |w[p].slots| <= Total(y)
  {
    seq(|w|, p requires 0 <= p < |w| =>
      SlotEntry(if p == |w| - 1 then SortedSet(SlotsIn(y)) else w[p].slots + Run(m, Total(y) - |w[p].slots|), []))
  }

  ghost predicate Arranges(y: seq<SlotEntry>, w: seq<SlotEntry>, m: int) {
    && AllStrict(y) && Below(y, m) && |w| == |y| > 0
    && (forall p :: 0 <= p < |w| ==> w[p] in y)
    && forall p :: 0 <= p < |w| ==> |w[p].slots| <= Total(y)
  }

  lemma ArrangesAll(y: seq<SlotEntry>, w: seq<SlotEntry>, m: int)
    requires AllStrict(y) && Below(y, m) && y != [] && multiset(w) == multiset(y)
    ensures Arranges(y, w, m)
  {
    hide Total, AllStrict, Below;
    assert |w| == |multiset(w)| == |multiset(y)| == |y|;
    forall p | 0 <= p < |w| ensures w[p] in y && |w[p].slots| <= Total(y) {
      assert w[p] in multiset(w);
      EntryWithinTotal(y, w[p]);
    }
  }

  /** Every entry is a strict list of that size, and has no slot of y but those of w at its position. */
  lemma AbsorbingEntry(y: seq<SlotEntry>, w: seq<SlotEntry>, m: int, p: nat)
    requires Arranges(y, w, m) && p < |w|
    ensures var x := Absorbing(y, w, m)[p].slots;
      && StrictlyAscending(x) && |x| == Total(y)
      && (p < |w| - 1 ==> forall v :: v in x && v < m ==> v in w[p].slots)
      && (forall v :: v in w[p].slots ==> v in x)
      && (p == |w| - 1 ==> forall e, v :: e in y && v in e.slots ==> v in x)
  {
    hide SortedSet, Run;
    if p < |w| - 1 {
      assert w[p] in y;
      JoinStrict(w[p].slots, Run(m, Total(y) - |w[p].slots|), m);
    }
  }

  lemma AbsorbingIsOrdered(y: seq<SlotEntry>, w: seq<SlotEntry>, m: int)
    requires Arranges(y, w, m)
    ensures var x := Absorbing(y, w, m); |x| == |y| && AllStrict(x) && NonDecreasing(Sizes(x))
  {
    hide SortedSet, Run, Total;
    var x := Absorbing(y, w, m);
    forall p | 0 <= p < |x| ensures StrictlyAscending(x[p].slots) && |x[p].slots| == Total(y) {
      AbsorbingEntry(y, w, m, p);
    }
  }

  /** A union keeps its first part's size exactly when the second adds nothing. */
  lemma AddsNothing(a: seq<int>, b: seq<int>)
    requires StrictlyAscending(a)
    ensures |SortedSet(a + b)| == |a| <==> forall v :: v in b ==> v in a
  {
    hide SortedSet;
    var u := SortedSet(a + b);
    SubsetSize(a, u);
    if forall v :: v in b ==> v in a { IsSortedSet(a, a + b); }
  }

  /** What an arrangement merged with it must be like at each position to keep all sizes equal. */
  lemma MergedSize(y: seq<SlotEntry>, w: seq<SlotEntry>, m: int, v: seq<SlotEntry>, p: nat)
    requires Arranges(y, w, m) && Arranges(y, v, m) && p < |w|
    ensures var c := CombinedAll(Absorbing(y, w, m), v)[p];
      && (p == |w| - 1 ==> Size(c) == Total(y))
      && (p < |w| - 1 ==> (Size(c) == Total(y) <==> forall s :: s in v[p].slots ==> s in w[p].slots))
  {
    hide SortedSet, Run, Total, StrictlyAscending;
    var x := Absorbing(y, w, m)[p].slots;
    AbsorbingEntry(y, w, m, p);
    AddsNothing(x, v[p].slots);
    assert v[p] in y;
    if p < |w| - 1 {
      forall s | s in v[p].slots ensures s in x <==> s in w[p].slots { assert s < m; }
    }
  }

  /** An arrangement of sizes nowhere above ascending sizes is these sizes. */
  lemma NowhereAbove(k: seq<int>, q: seq<int>)
    requires NonDecreasing(k) && multiset(q) == multiset(k) && |q| == |k| > 0
    requires forall p :: 0 <= p < |k| - 1 ==> q[p] <= k[p]
    ensures q == k
  {
    var n := |k| - 1;
    var j := MemberOfPermutation(q, k, n);
    FirstIsSmallest(k[j..], n - j);
    assert q[n] <= k[n];
    NothingBelow(k, q);
    if q != k {
      var d := FirstDifference(q, k);
      assert DiffersFirstAt(q, k, d);
    }
  }

  /** Every arrangement visited has either y's own order or other sizes. */
  lemma VisitedSizes(x: seq<SlotEntry>, y: seq<SlotEntry>, visited: seq<seq<SlotEntry>>, r: SlotTuple,
                     v: seq<SlotEntry>)
    requires Searched(x, y, visited, r) && v in visited
    ensures v == y || Sizes(v) != Sizes(y)
  {
    hide IsSuccessor, BestOf, IsChain, Keys;
    var n :| 0 <= n < |visited| && visited[n] == v;
    if n > 0 {
      ChainAscends(Trail(visited), 0, n);
      LexIrreflexive(Sizes(y));
    }
  }

  /** A perfect merge would take the sizes of y, in y's order. */
  lemma PerfectHasSizesOf(y: seq<SlotEntry>, w: seq<SlotEntry>, m: int, v: seq<SlotEntry>)
    requires Arranges(y, w, m) && Arranges(y, v, m) && NonDecreasing(Sizes(y)) && Sizes(w) == Sizes(y)
    requires multiset(v) == multiset(y)
    requires Spread(CombinedAll(Absorbing(y, w, m), v)) == 0
    ensures Sizes(v) == Sizes(y)
    ensures forall p, s :: 0 <= p < |y| - 1 && s in v[p].slots ==> s in w[p].slots
  {
    hide Spread, Total, Absorbing, CombinedAll, NonDecreasing, SortedSet;
    AbsorbedLength(y, w, m, v);
    var c := CombinedAll(Absorbing(y, w, m), v);
    var n := |y| - 1;
    MergedSize(y, w, m, v, n);
    forall p | 0 <= p < n ensures (forall s :: s in v[p].slots ==> s in w[p].slots) && Sizes(v)[p] <= Sizes(y)[p] {
      MergedSize(y, w, m, v, p);
      ZeroSpread(c, p, n);
      assert v[p] in y && w[p] in y;
      SubsetSize(v[p].slots, w[p].slots);
      assert Sizes(w)[p] == Sizes(y)[p];
    }
    SizesPermute(v, y);
    NowhereAbove(Sizes(y), Sizes(v));
  }

  lemma AbsorbedLength(y: seq<SlotEntry>, w: seq<SlotEntry>, m: int, v: seq<SlotEntry>)
    requires Arranges(y, w, m) && |v| == |w|
    ensures |Absorbing(y, w, m)| == |y| == |CombinedAll(Absorbing(y, w, m), v)|
  {}

  lemma SwappedTie(y: seq<SlotEntry>, i: nat, j: nat)
    requires i < |y| && j < |y| && Size(y[i]) == Size(y[j])
    ensures Sizes(Swapped(y, i, j)) == Sizes(y)
  {}

  /**
   * For every y, ordered by size as every tuple is, with two entries of equal
   * size and different slots, there is an x, ordered by size too, that merges
   * perfectly with some arrangement of y, while every merge the search can
   * return is imperfect.
   */
  lemma TiedSearchMissesOptimum(y: seq<SlotEntry>, i: nat, j: nat) returns (x: seq<SlotEntry>, w: seq<SlotEntry>)
    requires AllStrict(y) && NonDecreasing(Sizes(y)) && i < j < |y|
    requires Size(y[i]) == Size(y[j]) && y[i].slots != y[j].slots
    ensures |x| == |y| && AllStrict(x) && NonDecreasing(Sizes(x))
    ensures multiset(w) == multiset(y) && |w| == |x| && Spread(CombinedAll(x, w)) == 0
    ensures forall visited, r :: Searched(x, y, visited, r) ==> r.diff > 0
  {
    hide Spread, Keys, Absorbing, CombinedAll, SortedSet, Searched, Total;
    var m := SomeBound(y);
    w := Swapped(y, i, j);
    ArrangesAll(y, w, m);
    SwappedTie(y, i, j);
    x := Absorbing(y, w, m);
    AbsorbingIsOrdered(y, w, m);
    AbsorbedLength(y, w, m, w);
    var c := CombinedAll(x, w);
    forall p | 0 <= p < |c| ensures Size(c[p]) == Total(y) {
      MergedSize(y, w, m, w, p);
    }
    EvenSpread(c, Total(y));
    forall visited, r | Searched(x, y, visited, r) ensures r.diff > 0 {
      MissedEverywhere(y, i, j, m, visited, r);
    }
  }

  lemma MissedEverywhere(y: seq<SlotEntry>, i: nat, j: nat, m: int, visited: seq<seq<SlotEntry>>, r: SlotTuple)
    requires AllStrict(y) && Below(y, m) && NonDecreasing(Sizes(y)) && i < j < |y|
    requires Size(y[i]) == Size(y[j]) && y[i].slots != y[j].slots
    requires Arranges(y, Swapped(y, i, j), m) && Searched(Absorbing(y, Swapped(y, i, j), m), y, visited, r)
    ensures r.diff > 0
  {
    hide Spread, Keys, Absorbing, CombinedAll, IsChain, IsMerge, SortedSet, Total, NonDecreasing;
    var w := Swapped(y, i, j);
    var x := Absorbing(y, w, m);
    var v :| v in visited && IsMerge(x, v, r);
    MergeFacts(x, v, r);
    if r.diff == 0 {
      ArrangesAll(y, v, m);
      SwappedTie(y, i, j);
      PerfectHasSizesOf(y, w, m, v);
      VisitedSizes(x, y, visited, r, v);
      TieShares(y, i, j);
    }
  }

  /** Slots of one tied entry within those of the other are the same slots. */
  lemma TieShares(y: seq<SlotEntry>, i: nat, j: nat)
    requires AllStrict(y) && i < |y| && j < |y| && Size(y[i]) == Size(y[j])
    requires forall s :: s in y[i].slots ==> s in y[j].slots
    ensures y[i].slots == y[j].slots
  {
    assert y[i] in y && y[j] in y;
    SubsetSize(y[i].slots, y[j].slots);
  }

  // ----- a pair the partition itself comes to -----

  const SlotsA: seq<int> := [3, 4]
  const SlotsB: seq<int> := [1, 2]

  lemma KnownUnions()
    ensures SortedSet([] + SlotsA) == SlotsA && SortedSet(SlotsB + []) == SlotsB && SortedSet([] + SlotsB) == SlotsB
    ensures SortedSet(SlotsA + SlotsA) == SlotsA && SortedSet(SlotsA + SlotsB) == [1, 2, 3, 4]
  {
    hide SortedSet;
    IsSortedSet(SlotsA, [] + SlotsA);
    IsSortedSet(SlotsB, SlotsB + []);
    IsSortedSet(SlotsB, [] + SlotsB);
    IsSortedSet(SlotsA, SlotsA + SlotsA);
    IsSortedSet([1, 2, 3, 4], SlotsA + SlotsB);
  }

  lemma SpreadOfTwo(a: SlotEntry, b: SlotEntry)
    ensures Spread([a, b]) == if Size(a) < Size(b) then Size(b) - Size(a) else Size(a) - Size(b)
  {
    var k := Sizes([a, b]);
    assert k == [Size(a), Size(b)];
    assert Size(a) in k && Size(b) in k;
  }

  /**
   * Two groups and three ips with slots {3, 4}, {1, 2} and {3, 4}. The tuples
   * of the second and the first ip merge perfectly into y; merged with the
   * tuple x of the third, y gives a spread of 2 although an arrangement of it
   * gives 0.
   */
  lemma PartitionMissesOptimum(a: string, b: string, c: string)
    ensures var none, ea, eb := SlotEntry([], []), SlotEntry(SlotsA, [a]), SlotEntry(SlotsB, [b]);
      var x, y := [none, SlotEntry(SlotsA, [c])], [ea, eb];
      && multiset([ea, none]) == multiset([none, ea]) && IsMerge([none, eb], [ea, none], SlotTuple(y, 0))
      && (forall visited, r :: Searched(x, y, visited, r) ==> r.diff == 2)
      && multiset([eb, ea]) == multiset(y) && Spread(CombinedAll(x, [eb, ea])) == 0
  {
    hide SortedSet, Searched, Spread;
    var none, ea, eb := SlotEntry([], []), SlotEntry(SlotsA, [a]), SlotEntry(SlotsB, [b]);
    var ec := SlotEntry(SlotsA, [c]);
    var x, y := [none, ec], [ea, eb];
    KnownUnions();
    assert [] + [a] == [a] && [b] + [] == [b];
    assert CombinedAll([none, eb], [ea, none]) == y;
    SpreadOfTwo(ea, eb);
    assert CombinedAll(x, [eb, ea]) == [SlotEntry(SlotsB, [] + [b]), SlotEntry(SlotsA, [c] + [a])];
    SpreadOfTwo(SlotEntry(SlotsB, [] + [b]), SlotEntry(SlotsA, [c] + [a]));
    forall visited, r | Searched(x, y, visited, r) ensures r.diff == 2 {
      OnlyItself(x, y, visited, r);
      assert CombinedAll(x, y) == [SlotEntry(SlotsA, [] + [a]), SlotEntry([1, 2, 3, 4], [c] + [b])];
      SpreadOfTwo(SlotEntry(SlotsA, [] + [a]), SlotEntry([1, 2, 3, 4], [c] + [b]));
    }
  }

  /** Two entries of one size are never exchanged. */
  lemma OnlyItself(x: seq<SlotEntry>, y: seq<SlotEntry>, visited: seq<seq<SlotEntry>>, r: SlotTuple)
    requires Searched(x, y, visited, r) && |y| == 2 && Size(y[0]) == Size(y[1])
    ensures IsMerge(x, y, r)
  {
    hide IsMerge, IsChain, Sizes, Spread, CombinedAll;
    var v :| v in visited && IsMerge(x, v, r);
    VisitedSizes(x, y, visited, r, v);
    SizesPermute(v, y);
    TiedSizes(y);
    OneArrangement(Sizes(y), Sizes(v));
  }

  lemma TiedSizes(y: seq<SlotEntry>)
    requires |y| == 2 && Size(y[0]) == Size(y[1])
    ensures |Sizes(y)| == 2 && Sizes(y)[0] == Sizes(y)[1]
  {}

  lemma OneArrangement(k: seq<int>, q: seq<int>)
    requires |k| == 2 && k[0] == k[1] && multiset(q) == multiset(k)
    ensures q == k
  {
    assert |q| == |multiset(q)| == |multiset(k)| == |k|;
    var n := MemberOfPermutation(q, k, 0);
    var m := MemberOfPermutation(q, k, 1);
  }

  // ----- the run of the partition that comes to it -----

  /** The search from ascending sizes 0, 2 finds the perfect merge at its second arrangement. */
  lemma TwoArrangements(x: seq<SlotEntry>, none: SlotEntry, e: SlotEntry, t: SlotTuple)
    requires |x| == 2 && Size(none) == 0 && Size(e) == 2 && IsMerge(x, [e, none], t) && t.diff == 0
    ensures SearchDone(x, [none, e], [[none, e], [e, none]], t)
  {
    hide IsMerge, Spread, CombinedAll, IsChain, Trail, Sizes;
    var y, z := [none, e], [e, none];
    var visited := [y, z];
    TwoVisited(none, e);
    assert visited[1] == z && z in visited;
    forall v | v in visited ensures multiset(v) == multiset(y) && |v| == |x| {
      assert v == y || v == z;
      assert multiset(z) == multiset(y);
    }
  }

  lemma TwoVisited(none: SlotEntry, e: SlotEntry)
    requires Size(none) == 0 && Size(e) == 2
    ensures IsChain(Trail([[none, e], [e, none]]))
  {
    hide IsSuccessor;
    var y, z := [none, e], [e, none];
    assert Sizes(y) == [0, 2] && Sizes(z) == [2, 0];
    NextOfTwo();
    assert Trail([y, z]) == [[0, 2], [2, 0]];
  }

  lemma NextOfTwo()
    ensures IsSuccessor([0, 2], [2, 0])
  {
    var k, r: seq<int> := [0, 2], [2, 0];
    assert k[1..] == [2] && IsPivot(k, 0) && IsPartner(k, 0, 1);
    assert Swapped(k, 0, 1) == r;
    StepIsSuccessor(k, 0, 1, r);
  }

  lemma SingleOfTwo(ip: string, slots: seq<int>)
    ensures Single(ip, slots, 2) == SlotTuple([SlotEntry([], []), SlotEntry(slots, [ip])], |slots|)
  {}

  lemma FirstPopped(t: SlotTuple, rest: seq<SlotTuple>)
    requires forall i :: 0 <= i < |rest| ==> rest[i].diff <= t.diff
    ensures Popped([t] + rest, t, rest)
  {
    var h := [t] + rest;
    assert h[0] == t && rest == h[..0] + h[0 + 1..];
  }

  /**
   * On these three ips some run of the partition for two groups ends with
   * diff 2, although giving the ips with equal slots to one group and the
   * other to the second makes it 0.
   */
  lemma PartitionRunMissesOptimum(a: string, b: string, c: string) returns (trace: seq<seq<SlotTuple>>, t: SlotTuple)
    requires a != b && b != c && a != c
    ensures var won := map[a := SlotsA, b := SlotsB, c := SlotsA];
      && PartitionRun(Singles([b, a, c], won, 2), trace, [t]) && t.diff == 2
      && AllFaithful([SlotEntry(SlotsA, [a, c]), SlotEntry(SlotsB, [b])], won)
      && Spread([SlotEntry(SlotsA, [a, c]), SlotEntry(SlotsB, [b])]) == 0
  {
    hide SortedSet, Spread, PartitionRun, MergedBy, AllFaithful, SearchDone, Singles, IsMerge, CombinedAll;
    var none, ea, eb, ec := SlotEntry([], []), SlotEntry(SlotsA, [a]), SlotEntry(SlotsB, [b]), SlotEntry(SlotsA, [c]);
    var ta, tb, tc := SlotTuple([none, ea], 2), SlotTuple([none, eb], 2), SlotTuple([none, ec], 2);
    var y, visited := SlotTuple([ea, eb], 0), [[none, ea], [ea, none]];
    ThreeSingles(a, b, c);
    FirstMerge(a, b, c);
    SearchIsMerge(tb.entries, ta.entries, visited, y);
    t := LastMerge(a, b, c);
    SearchIsMerge(tc.entries, y.entries, [y.entries], t);
    trace := RunOfTwoMerges(tb, ta, tc, y, visited, t, [y.entries]);
    PerfectSplit(a, b, c);
  }

  lemma FirstMerge(a: string, b: string, c: string)
    ensures var none, ea, eb := SlotEntry([], []), SlotEntry(SlotsA, [a]), SlotEntry(SlotsB, [b]);
      SearchDone([none, eb], [none, ea], [[none, ea], [ea, none]], SlotTuple([ea, eb], 0))
  {
    hide SortedSet, Spread, IsMerge, Searched, CombinedAll, SearchDone;
    PartitionMissesOptimum(a, b, c);
    var none, ea, eb := SlotEntry([], []), SlotEntry(SlotsA, [a]), SlotEntry(SlotsB, [b]);
    TwoArrangements([none, eb], none, ea, SlotTuple([ea, eb], 0));
  }

  /** Three tuples, of which the first two and then the third and their merge are taken. */
  lemma RunOfTwoMerges(p: SlotTuple, q: SlotTuple, r: SlotTuple, y: SlotTuple, first: seq<seq<SlotEntry>>,
                       t: SlotTuple, second: seq<seq<SlotEntry>>) returns (trace: seq<seq<SlotTuple>>)
    requires p.diff == q.diff == r.diff >= y.diff
    requires MergedBy(p.entries, q.entries, first, y) && MergedBy(r.entries, y.entries, second, t)
    ensures PartitionRun([p, q, r], trace, [t])
  {
    hide PartitionRun, MergedBy, Popped;
    var h := [p, q, r];
    RunStarts(h);
    assert [p] + ([q] + [r]) == h && [r] + ([y] + []) == [r] + [y] && [] + [t] == [t];
    FrontMerged(h, [h], p, q, [r], y, first);
    FrontMerged(h, [h] + [[r] + [y]], r, y, [], t, second);
    trace := [h] + [[r] + [y]] + [[] + [t]];
  }

  /** The first two tuples, of largest diff, are merged. */
  lemma FrontMerged(start: seq<SlotTuple>, trace: seq<seq<SlotTuple>>, x: SlotTuple, y: SlotTuple, rest: seq<SlotTuple>,
                    t: SlotTuple, visited: seq<seq<SlotEntry>>)
    requires PartitionRun(start, trace, [x] + ([y] + rest)) && x.diff >= y.diff
    requires forall i :: 0 <= i < |rest| ==> rest[i].diff <= y.diff
    requires MergedBy(x.entries, y.entries, visited, t)
    ensures PartitionRun(start, trace + [rest + [t]], rest + [t])
  {
    hide PartitionRun, MergedBy, Popped;
    TwoPopped(x, y, rest);
    RunGoesOn(start, trace, [x] + ([y] + rest), x, [y] + rest, y, rest, t, visited);
  }

  lemma TwoPopped(x: SlotTuple, y: SlotTuple, rest: seq<SlotTuple>)
    requires x.diff >= y.diff && forall i :: 0 <= i < |rest| ==> rest[i].diff <= y.diff
    ensures Popped([x] + ([y] + rest), x, [y] + rest) && Popped([y] + rest, y, rest)
  {
    hide Popped;
    var more := [y] + rest;
    FirstPopped(y, rest);
    forall i | 0 <= i < |more| ensures more[i].diff <= x.diff {
      assert more[i] == if i == 0 then y else rest[i - 1];
    }
    FirstPopped(x, more);
  }

  lemma SearchIsMerge(x: seq<SlotEntry>, y: seq<SlotEntry>, visited: seq<seq<SlotEntry>>, t: SlotTuple)
    requires |x| <= 5 && SearchDone(x, y, visited, t)
    ensures MergedBy(x, y, visited, t)
  {}

  lemma ThreeSingles(a: string, b: string, c: string)
    requires a != b && b != c && a != c
    ensures var won := map[a := SlotsA, b := SlotsB, c := SlotsA]; var none := SlotEntry([], []);
      Singles([b, a, c], won, 2) ==
        [SlotTuple([none, SlotEntry(SlotsB, [b])], 2), SlotTuple([none, SlotEntry(SlotsA, [a])], 2),
         SlotTuple([none, SlotEntry(SlotsA, [c])], 2)]
  {
    hide Single;
    var won := map[a := SlotsA, b := SlotsB, c := SlotsA];
    SingleOfTwo(a, SlotsA);
    SingleOfTwo(b, SlotsB);
    SingleOfTwo(c, SlotsA);
    assert [b, a, c][..2] == [b, a] && [b, a][..1] == [b] && [b][..0] == [];
    assert Singles([b], won, 2) == [Single(b, SlotsB, 2)];
    assert Singles([b, a], won, 2) == [Single(b, SlotsB, 2), Single(a, SlotsA, 2)];
  }

  /** The second merge, of which only one arrangement is tried. */
  lemma LastMerge(a: string, b: string, c: string) returns (t: SlotTuple)
    ensures var x := [SlotEntry([], []), SlotEntry(SlotsA, [c])];
      var y := [SlotEntry(SlotsA, [a]), SlotEntry(SlotsB, [b])];
      SearchDone(x, y, [y], t) && t.diff == 2
  {
    hide SortedSet, Spread, Searched;
    var x, y := [SlotEntry([], []), SlotEntry(SlotsA, [c])], [SlotEntry(SlotsA, [a]), SlotEntry(SlotsB, [b])];
    KnownUnions();
    var e1, e2 := SlotEntry(SlotsA, [] + [a]), SlotEntry([1, 2, 3, 4], [c] + [b]);
    assert CombinedAll(x, y) == [e1, e2];
    SpreadOfTwo(e1, e2);
    t := SlotTuple([e1, e2], 2);
    assert Sizes(t.entries) == [2, 4];
    assert IsMerge(x, y, t);
    SearchStart(x, y, t);
    assert Sizes(y) == [2, 2];
  }

  lemma PerfectSplit(a: string, b: string, c: string)
    requires a != b && b != c && a != c
    ensures var won := map[a := SlotsA, b := SlotsB, c := SlotsA];
      && AllFaithful([SlotEntry(SlotsA, [a, c]), SlotEntry(SlotsB, [b])], won)
      && Spread([SlotEntry(SlotsA, [a, c]), SlotEntry(SlotsB, [b])]) == 0
  {
    hide SortedSet, Spread;
    var won := map[a := SlotsA, b := SlotsB, c := SlotsA];
    KnownUnions();
    SpreadOfTwo(SlotEntry(SlotsA, [a, c]), SlotEntry(SlotsB, [b]));
    assert [a, c][1..] == [c] && [c][1..] == [] && [b][1..] == [];
    assert Gather([], won) == [];
    assert Gather([c], won) == SlotsA + [] == SlotsA;
    assert Gather([a, c], won) == SlotsA + SlotsA;
    assert Gather([b], won) == SlotsB + [];
  }
}
