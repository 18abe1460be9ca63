/** Merging two partial partitions: entry by entry, over every arrangement of the second one's sizes. */
module SlotTuples {
  import opened Powers
  import opened Permutations
  import opened SlotLists

  datatype SlotEntry = SlotEntry(slots: seq<int>, ips: seq<string>)

  datatype SlotTuple = SlotTuple(entries: seq<SlotEntry>, diff: int)

  /** What entries are compared by. */
  function Size(e: SlotEntry): (n: int)
  {
    |e.slots|
  }

  function Sizes(s: seq<SlotEntry>): (k: seq<int>) {
    Keys(s, Size)
  }

  predicate AllStrict(s: seq<SlotEntry>) {
    forall e :: e in s ==> StrictlyAscending(e.slots)
  }

  function Combined(a: SlotEntry, b: SlotEntry): (r: SlotEntry) {
    SlotEntry(SortedSet(a.slots + b.slots), a.ips + b.ips)
  }

  /** The entries of x united position by position with those of y. */
  function CombinedAll(x: seq<SlotEntry>, y: seq<SlotEntry>): (r: seq<SlotEntry>)
    requires |x| == |y|
  {
    seq(|x|, i requires 0 <= i < |x| => Combined(x[i], y[i]))
  }

  // ----- spread -----

  function Largest(k: seq<int>): (m: int)
    requires k != []
    ensures m in k && forall v :: v in k ==> v <= m
  {
    assert k == k[..|k| - 1] + [k[|k| - 1]];
    if |k| == 1 then k[0]
    else
      var m := Largest(k[..|k| - 1]);
      if m < k[|k| - 1] then k[|k| - 1] else m
  }

  function Smallest(k: seq<int>): (m: int)
    requires k != []
    ensures m in k && forall v :: v in k ==> m <= v
  {
    assert k == k[..|k| - 1] + [k[|k| - 1]];
    if |k| == 1 then k[0]
    else
      var m := Smallest(k[..|k| - 1]);
      if k[|k| - 1] < m then k[|k| - 1] else m
  }

  /** How far apart the sizes are, in whatever order the entries stand. */
  function Spread(s: seq<SlotEntry>): (d: int)
    requires s != []
    ensures d >= 0
  {
    var k := Sizes(s);
    Largest(k) - Smallest(k)
  }

  lemma {:induction false} AscendingEnds(k: seq<int>)
    requires k != [] && NonDecreasing(k)
    ensures k[0] == Smallest(k) && k[|k| - 1] == Largest(k)
  {
    var m := Smallest(k);
    var i :| 0 <= i < |k| && k[i] == m;
    FirstIsSmallest(k, i);
    var n := Largest(k);
    var j :| 0 <= j < |k| && k[j] == n;
    FirstIsSmallest(k[j..], |k| - 1 - j);
    var first, last := k[0], k[|k| - 1];
    assert first in k && last in k;
  }

  lemma ExtremesOfPermutation(a: seq<int>, b: seq<int>)
    requires a != [] && b != [] && multiset(a) == multiset(b)
    ensures Largest(a) == Largest(b) && Smallest(a) == Smallest(b)
  {
    forall v ensures v in a <==> v in b {
      assert v in a <==> v in multiset(a);
      assert v in b <==> v in multiset(b);
    }
  }

  lemma RemoveAt<E>(s: seq<E>, i: nat)
    requires i < |s|
    ensures multiset(s[..i] + s[i + 1..]) == multiset(s) - multiset{s[i]}
  {
    assert s == s[..i] + [s[i]] + s[i + 1..];
  }

  lemma DropFirst<E>(s: seq<E>)
    requires s != []
    ensures multiset(s[1..]) == multiset(s) - multiset{s[0]}
  {
    assert s == [s[0]] + s[1..];
  }

  /** Rearranging the entries rearranges their sizes. */
  lemma {:induction false} SizesPermute(a: seq<SlotEntry>, b: seq<SlotEntry>)
    requires multiset(a) == multiset(b)
    ensures multiset(Sizes(a)) == multiset(Sizes(b))
  {
    hide Size;
    if a == [] {
      assert |multiset(b)| == 0;
      assert b == [];
    } else {
      var i := FindFirst(a, b);
      var rest := b[..i] + b[i + 1..];
      SizesPermute(a[1..], rest);
      assert Sizes(a) == [Size(a[0])] + Sizes(a[1..]);
      assert Sizes(b) == Sizes(b)[..i] + [Size(a[0])] + Sizes(b)[i + 1..];
      assert Sizes(rest) == Sizes(b)[..i] + Sizes(b)[i + 1..];
    }
  }

  lemma FindFirst(a: seq<SlotEntry>, b: seq<SlotEntry>) returns (i: nat)
    requires a != [] && multiset(a) == multiset(b)
    ensures i < |b| && b[i] == a[0]
    ensures multiset(a[1..]) == multiset(b[..i] + b[i + 1..])
  {
    assert a[0] in multiset(a);
    assert a[0] in b;
    i :| 0 <= i < |b| && b[i] == a[0];
    DropFirst(a);
    RemoveAt(b, i);
  }

  lemma SpreadPermute(a: seq<SlotEntry>, b: seq<SlotEntry>)
    requires a != [] && b != [] && multiset(a) == multiset(b)
    ensures Spread(a) == Spread(b)
  {
    SizesPermute(a, b);
    ExtremesOfPermutation(Sizes(a), Sizes(b));
  }

  // ----- sorting by size -----

  function InsertBySize(e: SlotEntry, s: seq<SlotEntry>): (r: seq<SlotEntry>)
    ensures multiset(r) == multiset(s) + multiset{e}
  {
    if s == [] then [e]
    else
      var n := |s| - 1;
      assert s == s[..n] + [s[n]];
      if Size(s[n]) <= Size(e) then s + [e] else InsertBySize(e, s[..n]) + [s[n]]
  }

  lemma {:induction false} InsertKeepsOrder(e: SlotEntry, s: seq<SlotEntry>)
    requires NonDecreasing(Sizes(s))
    ensures NonDecreasing(Sizes(InsertBySize(e, s)))
    ensures var r := InsertBySize(e, s); r != [] && (r[|r| - 1] == e || (s != [] && r[|r| - 1] == s[|s| - 1]))
  {
    hide NonDecreasing, Keys;
    if s == [] {
      SingleBySize(e);
    } else {
      var n := |s| - 1;
      if Size(s[n]) <= Size(e) {
        AppendBySize(s, e);
      } else {
        PrefixBySize(s, n);
        InsertKeepsOrder(e, s[..n]);
        AppendBySize(InsertBySize(e, s[..n]), s[n]);
      }
    }
  }

  lemma NothingBySize()
    ensures NonDecreasing(Sizes([]))
  {}

  lemma SingleBySize(e: SlotEntry)
    ensures NonDecreasing(Sizes([e]))
  {}

  lemma PrefixBySize(s: seq<SlotEntry>, n: nat)
    requires NonDecreasing(Sizes(s)) && n < |s|
    ensures NonDecreasing(Sizes(s[..n])) && (n > 0 ==> Size(s[n - 1]) <= Size(s[n]))
  {
    assert Sizes(s[..n]) == Sizes(s)[..n];
    assert n > 0 ==> Sizes(s)[n - 1] <= Sizes(s)[n - 1 + 1];
  }

  lemma AppendBySize(s: seq<SlotEntry>, e: SlotEntry)
    requires NonDecreasing(Sizes(s)) && (s != [] ==> Size(s[|s| - 1]) <= Size(e))
    ensures NonDecreasing(Sizes(s + [e]))
  {
    assert Sizes(s + [e]) == Sizes(s) + [Size(e)];
  }

  /** Some ordering by size, as a library sort promises it. */
  method SortBySize(s: seq<SlotEntry>) returns (r: seq<SlotEntry>)
    ensures multiset(r) == multiset(s)
    ensures NonDecreasing(Sizes(r))
  {
    hide Size, Keys, InsertBySize;
    r := [];
    NothingBySize();
    for i := 0 to |s|
      invariant multiset(r) == multiset(s[..i])
      invariant NonDecreasing(Sizes(r))
    {
      InsertKeepsOrder(s[i], r);
      r := InsertBySize(s[i], r);
      assert s[..i + 1] == s[..i] + [s[i]];
    }
    assert s[..|s|] == s;
  }

  // ----- one merge -----

  /** t is x united with the arrangement v, ordered by size. */
  ghost predicate IsMerge(x: seq<SlotEntry>, v: seq<SlotEntry>, t: SlotTuple) {
    && |v| == |x| == |t.entries| > 0
    && multiset(t.entries) == multiset(CombinedAll(x, v))
    && NonDecreasing(Sizes(t.entries))
    && t.diff == Spread(CombinedAll(x, v)) == Size(t.entries[|x| - 1]) - Size(t.entries[0])
  }

  method MergeSlotTuplesDo(x: seq<SlotEntry>, y: seq<SlotEntry>) returns (t: SlotTuple)
    requires |x| == |y| > 0 && AllStrict(x) && AllStrict(y)
    ensures IsMerge(x, y, t)
  {
    hide Combined, Keys, Spread, NonDecreasing, Size;
    var united := UniteEntries(x, y);
    var sorted := SortBySize(united);
    assert |sorted| == |multiset(sorted)| == |multiset(united)| == |united|;
    t := SlotTuple(sorted, |sorted[|sorted| - 1].slots| - |sorted[0].slots|);
    MergeDiff(united, sorted);
  }

  lemma AscendingAt(s: seq<SlotEntry>, i: nat)
    requires AllStrict(s) && i < |s|
    ensures NonDecreasing(s[i].slots)
  {
    assert s[i] in s;
    StrictIsNonDecreasing(s[i].slots);
  }

  lemma CombinedIs(a: SlotEntry, b: SlotEntry)
    ensures Combined(a, b) == SlotEntry(SortedSet(a.slots + b.slots), a.ips + b.ips)
  {}

  method UniteEntries(x: seq<SlotEntry>, y: seq<SlotEntry>) returns (united: seq<SlotEntry>)
    requires |x| == |y| && AllStrict(x) && AllStrict(y)
    ensures united == CombinedAll(x, y)
  {
    hide SortedSet, StrictlyAscending, NonDecreasing, Combined, AllStrict;
    united := [];
    for i := 0 to |y|
      invariant |united| == i
      invariant forall m :: 0 <= m < i ==> united[m] == Combined(x[m], y[m])
    {
      AscendingAt(x, i);
      AscendingAt(y, i);
      var slots := JoinSlots(x[i].slots, y[i].slots);
      CombinedIs(x[i], y[i]);
      united := united + [SlotEntry(slots, x[i].ips + y[i].ips)];
    }
  }

  lemma MergeDiff(united: seq<SlotEntry>, sorted: seq<SlotEntry>)
    requires united != [] && |sorted| == |united|
    requires multiset(sorted) == multiset(united) && NonDecreasing(Sizes(sorted))
    ensures Spread(united) == Size(sorted[|sorted| - 1]) - Size(sorted[0])
    ensures Spread(united) == |sorted[|sorted| - 1].slots| - |sorted[0].slots|
  {
    SpreadPermute(united, sorted);
    AscendingEnds(Sizes(sorted));
  }

  // ----- the search over arrangements -----

  function Trail(visited: seq<seq<SlotEntry>>): (c: seq<seq<int>>) {
    seq(|visited|, i requires 0 <= i < |visited| => Sizes(visited[i]))
  }

  /** Arrangements of y visited in turn, and the best merge with x among them. */
  ghost predicate Searched(x: seq<SlotEntry>, y: seq<SlotEntry>, visited: seq<seq<SlotEntry>>, r: SlotTuple) {
    && visited != [] && visited[0] == y
    && (forall v :: v in visited ==> multiset(v) == multiset(y) && |v| == |x|)
    && IsChain(Trail(visited))
    && BestOf(x, visited, r)
  }

  ghost predicate BestOf(x: seq<SlotEntry>, visited: seq<seq<SlotEntry>>, r: SlotTuple) {
    && |x| > 0
    && (exists v :: v in visited && IsMerge(x, v, r))
    && forall v :: v in visited && |v| == |x| ==> r.diff <= Spread(CombinedAll(x, v))
  }

  /** The search went on to a perfect merge or to the last arrangement. */
  ghost predicate SearchDone(x: seq<SlotEntry>, y: seq<SlotEntry>, visited: seq<seq<SlotEntry>>, r: SlotTuple) {
    Searched(x, y, visited, r) && (r.diff == 0 || NonIncreasing(Sizes(visited[|visited| - 1])))
  }

  /** t is what merging x with y may give, the arrangements of y being tried in the order `visited`. */
  ghost predicate MergedBy(x: seq<SlotEntry>, y: seq<SlotEntry>, visited: seq<seq<SlotEntry>>, t: SlotTuple) {
    if |x| <= 5 then SearchDone(x, y, visited, t)
    else |visited| == 1 && TailReversed(y, visited[0], -1) && BestOf(x, visited, t)
  }

  lemma ChainGrows(c: seq<seq<int>>, k: seq<int>)
    requires IsChain(c) && IsSuccessor(c[|c| - 1], k)
    ensures IsChain(c + [k])
  {
    hide IsSuccessor;
    var d := c + [k];
    forall i | 0 <= i < |d| - 1 ensures IsSuccessor(d[i], d[i + 1]) {
      if i < |c| - 1 { assert IsSuccessor(c[i], c[i + 1]); }
    }
  }

  lemma SearchStep(x: seq<SlotEntry>, y: seq<SlotEntry>, visited: seq<seq<SlotEntry>>, r: SlotTuple,
                   v: seq<SlotEntry>, c: SlotTuple)
    requires Searched(x, y, visited, r)
    requires multiset(v) == multiset(y) && IsMerge(x, v, c)
    requires IsSuccessor(Sizes(visited[|visited| - 1]), Sizes(v))
    ensures Searched(x, y, visited + [v], if c.diff < r.diff then c else r)
  {
    hide IsSuccessor, IsMerge, Spread, CombinedAll, Keys, IsChain;
    var w := visited + [v];
    assert Trail(w) == Trail(visited) + [Sizes(v)];
    ChainGrows(Trail(visited), Sizes(v));
    MergeFacts(x, v, c);
    var u :| u in visited && IsMerge(x, u, r);
    assert u in w && v in w;
  }

  lemma MergeFacts(x: seq<SlotEntry>, v: seq<SlotEntry>, c: SlotTuple)
    requires IsMerge(x, v, c)
    ensures |v| == |x| > 0 && c.diff == Spread(CombinedAll(x, v)) && c.diff >= 0
  {}

  lemma SearchStart(x: seq<SlotEntry>, y: seq<SlotEntry>, r: SlotTuple)
    requires IsMerge(x, y, r)
    ensures Searched(x, y, [y], r)
  {
    MergeFacts(x, y, r);
    assert y in [y];
  }

  /** A bound on every size, kept by any rearrangement. */
  lemma DigitsPermute(a: seq<int>, b: seq<int>, base: nat)
    requires multiset(a) == multiset(b) && Digits(a, base)
    ensures Digits(b, base)
  {
    forall i | 0 <= i < |b| ensures 0 <= b[i] < base {
      var j := MemberOfPermutation(b, a, i);
    }
  }

  lemma SizesAreDigits(s: seq<SlotEntry>) returns (base: nat)
    requires s != []
    ensures Digits(Sizes(s), base)
  {
    base := Largest(Sizes(s)) + 1;
    forall i | 0 <= i < |s| ensures 0 <= Sizes(s)[i] < base {
      var v := Sizes(s)[i];
      assert v in Sizes(s);
    }
  }

  lemma ProgressIsMade(a: seq<int>, b: seq<int>, base: nat)
    requires Digits(a, base) && IsSuccessor(a, b)
    ensures Digits(b, base) && |a| == |b|
    ensures Value(a, base) < Value(b, base) < Pow(base, |b|)
  {
    DigitsPermute(a, b, base);
    ValueAscends(a, b, base);
    ValueBound(b, base);
  }

  lemma StrictPermute(a: seq<SlotEntry>, b: seq<SlotEntry>)
    requires multiset(a) == multiset(b) && AllStrict(a)
    ensures AllStrict(b) && |a| == |b|
  {
    assert |a| == |multiset(a)| == |multiset(b)| == |b|;
    forall e | e in b ensures StrictlyAscending(e.slots) {
      assert e in multiset(b);
      assert e in a;
    }
  }

  /**
   * For at most five groups, y is put through its arrangements by size, and
   * the merge of smallest spread is returned, a perfect one as soon as it is
   * met; for more groups, y is reversed and merged once.
   */
  method MergeWith(x: seq<SlotEntry>, y: array<SlotEntry>) returns (res: SlotTuple, ghost visited: seq<seq<SlotEntry>>)
    requires |x| == y.Length > 0 && AllStrict(x) && AllStrict(y[..])
    modifies y
    ensures BestOf(x, visited, res)
    ensures forall v :: v in visited ==> multiset(v) == old(multiset(y[..]))
    ensures MergedBy(x, old(y[..]), visited, res)
  {
    if |x| <= 5 {
      res, visited := SearchArrangements(x, y);
    } else {
      ReverseTail(y, -1, Size);
      StrictPermute(old(y[..]), y[..]);
      res := MergeSlotTuplesDo(x, y[..]);
      visited := [y[..]];
      SearchStart(x, y[..], res);
    }
  }

  method SearchArrangements(x: seq<SlotEntry>, y: array<SlotEntry>)
    returns (r: SlotTuple, ghost visited: seq<seq<SlotEntry>>)
    requires |x| == y.Length > 0 && AllStrict(x) && AllStrict(y[..])
    modifies y
    ensures Searched(x, old(y[..]), visited, r)
    ensures r.diff == 0 || NonIncreasing(Sizes(visited[|visited| - 1]))
  {
    hide IsSuccessor, IsMerge, Searched, Value, Pow, Digits, AllStrict, NonIncreasing, Keys;
    ghost var start := y[..];
    ghost var base := SizesAreDigits(start);
    r := MergeSlotTuplesDo(x, y[..]);
    visited := [start];
    SearchStart(x, start, r);
    MergeFacts(x, start, r);
    if r.diff == 0 {
      return;
    }
    ghost var cur := start;
    while true
      invariant y[..] == cur && multiset(cur) == multiset(start) && AllStrict(cur)
      invariant visited != [] && visited[|visited| - 1] == cur
      invariant Searched(x, start, visited, r) && r.diff > 0
      invariant Digits(Sizes(cur), base) && |cur| == |start|
      decreases Pow(base, |start|) - Value(Sizes(cur), base)
    {
      var more := NextPermutation(y, Size);
      if !more {
        return;
      }
      ghost var next := y[..];
      StrictPermute(cur, next);
      SizesLength(cur);
      SizesLength(next);
      ProgressIsMade(Sizes(cur), Sizes(next), base);
      var c := MergeSlotTuplesDo(x, y[..]);
      MergeFacts(x, next, c);
      SearchStep(x, start, visited, r, next, c);
      visited := visited + [next];
      if c.diff == 0 {
        return c, visited;
      } else if c.diff < r.diff {
        r := c;
      }
      cur := next;
    }
  }

  lemma SizesLength(s: seq<SlotEntry>)
    ensures |Sizes(s)| == |s|
  {}

  // ----- what the search achieves -----

  /**
   * Started on entries in order of size, a search that finds no perfect
   * merge has tried every arrangement of the sizes, each exactly once, and
   * its result is the smallest spread among them.
   */
  lemma SearchIsExhaustive(x: seq<SlotEntry>, y: seq<SlotEntry>, visited: seq<seq<SlotEntry>>, r: SlotTuple,
                           z: seq<int>)
    requires Searched(x, y, visited, r) && NonDecreasing(Sizes(y))
    requires NonIncreasing(Sizes(visited[|visited| - 1]))
    requires multiset(z) == multiset(Sizes(y))
    ensures exists v :: v in visited && Sizes(v) == z && |v| == |x| && r.diff <= Spread(CombinedAll(x, v))
    ensures forall i, j :: 0 <= i < j < |visited| ==> Sizes(visited[i]) != Sizes(visited[j])
  {
    hide IsChain, IsMerge, Spread, CombinedAll, Keys, NonDecreasing, NonIncreasing;
    var c := Trail(visited);
    EveryArrangementOnce(c, z);
    var i :| 0 <= i < |c| && c[i] == z;
    var v := visited[i];
    assert v in visited && Sizes(v) == z;
    forall i, j | 0 <= i < j < |visited| ensures Sizes(visited[i]) != Sizes(visited[j]) {
      assert c[i] != c[j];
    }
  }
}
