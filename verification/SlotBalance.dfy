/**
 * How even the partition is. Merging two partial partitions never widens the
 * gap by more than the slots they have in common, and so the groups differ by
 * at most the slots of one ip, plus the slots that several ips have won.
 */
module SlotBalance {
  import opened Permutations
  import opened SlotLists
  import opened SlotTuples
  import opened SlotPartition

  // ----- sizes of unions -----

  function Members(s: seq<int>): (m: set<int>) {
    set v | v in s
  }

  lemma {:induction false} StrictMembers(s: seq<int>)
    requires StrictlyAscending(s)
    ensures |Members(s)| == |s|
  {
    if s != [] {
      var n := |s| - 1;
      StrictMembers(s[..n]);
      assert s == s[..n] + [s[n]];
      assert Members(s) == Members(s[..n]) + {s[n]};
    }
  }

  lemma SubsetCount<T>(a: set<T>, b: set<T>)
    requires a <= b
    ensures |a| <= |b|
  {
    assert b == a + (b - a);
  }

  lemma UnionSize(a: seq<int>, b: seq<int>)
    requires StrictlyAscending(a) && StrictlyAscending(b)
    ensures |SortedSet(a + b)| + |Members(a) * Members(b)| == |a| + |b|
  {
    var u := SortedSet(a + b);
    StrictMembers(a);
    StrictMembers(b);
    StrictMembers(u);
    assert Members(u) == Members(a) + Members(b);
  }

  /** Every slot of the entries. */
  function SlotsOf(s: seq<SlotEntry>): (m: set<int>) {
    set e, v | e in s && v in e.slots :: v
  }

  lemma EntrySlots(s: seq<SlotEntry>, i: nat)
    requires i < |s|
    ensures Members(s[i].slots) <= SlotsOf(s)
  {
    forall v | v in Members(s[i].slots) ensures v in SlotsOf(s) {
      assert s[i] in s && v in s[i].slots;
    }
  }

  /** An entry of the merge is as large as the two it is made of, but for slots they share. */
  lemma PairSize(x: seq<SlotEntry>, v: seq<SlotEntry>, i: nat)
    requires |x| == |v| && AllStrict(x) && AllStrict(v) && i < |x|
    ensures var c := Size(CombinedAll(x, v)[i]);
      Size(x[i]) + Size(v[i]) - |SlotsOf(x) * SlotsOf(v)| <= c <= Size(x[i]) + Size(v[i])
  {
    hide SortedSet, StrictlyAscending;
    var a, b := x[i].slots, v[i].slots;
    assert x[i] in x && v[i] in v;
    UnionSize(a, b);
    EntrySlots(x, i);
    EntrySlots(v, i);
    SubsetCount(Members(a) * Members(b), SlotsOf(x) * SlotsOf(v));
  }

  // ----- opposite orders -----

  function Mirrored<E>(s: seq<E>): (r: seq<E>)
    ensures |r| == |s|
  {
    seq(|s|, i requires 0 <= i < |s| => s[|s| - 1 - i])
  }

  lemma {:induction false} MirrorPermutes<E>(s: seq<E>)
    ensures multiset(Mirrored(s)) == multiset(s)
  {
    if s != [] {
      var n := |s| - 1;
      MirrorPermutes(s[..n]);
      assert Mirrored(s) == [s[n]] + Mirrored(s[..n]);
      assert s == s[..n] + [s[n]];
    }
  }

  function Max(a: int, b: int): int {
    if a < b then b else a
  }

  function Gap(k: seq<int>): (d: int)
    requires k != []
  {
    Largest(k) - Smallest(k)
  }

  lemma {:induction false} AscendsBetween(k: seq<int>, i: nat, j: nat)
    requires NonDecreasing(k) && i <= j < |k|
    ensures k[i] <= k[j]
  {
    if i < j { AscendsBetween(k, i, j - 1); }
  }

  /** Two terms of one ascending list. */
  lemma StepWithinGap(k: seq<int>, i: nat, j: nat)
    requires NonDecreasing(k) && i < |k| && j < |k|
    ensures k[i] - k[j] <= if j <= i then Gap(k) else 0
  {
    assert k[i] in k && k[j] in k;
    if i < j { AscendsBetween(k, i, j); }
  }

  /** Adding an ascending list to a descending one, up to o less at each place. */
  lemma CrossedGap(k: seq<int>, l: seq<int>, c: seq<int>, o: nat)
    requires |k| == |l| == |c| > 0 && NonDecreasing(k) && NonDecreasing(l)
    requires forall i :: 0 <= i < |k| ==> k[i] + Mirrored(l)[i] - o <= c[i] <= k[i] + Mirrored(l)[i]
    ensures Gap(c) <= Max(Gap(k), Gap(l)) + o
  {
    hide Largest, Smallest, NonDecreasing;
    var n := |k| - 1;
    var i :| 0 <= i <= n && c[i] == Largest(c);
    var j :| 0 <= j <= n && c[j] == Smallest(c);
    StepWithinGap(k, i, j);
    StepWithinGap(l, n - i, n - j);
    assert Mirrored(l)[i] == l[n - i] && Mirrored(l)[j] == l[n - j];
  }

  // ----- one merge -----

  lemma SlotsPermute(a: seq<SlotEntry>, b: seq<SlotEntry>)
    requires multiset(a) == multiset(b)
    ensures SlotsOf(a) == SlotsOf(b)
  {
    forall e ensures e in a <==> e in b {
      assert e in a <==> e in multiset(a);
      assert e in b <==> e in multiset(b);
    }
  }

  lemma OppositeMerge(x: seq<SlotEntry>, y: seq<SlotEntry>, v: seq<SlotEntry>)
    requires |x| == |y| == |v| > 0 && AllStrict(x) && AllStrict(y) && multiset(v) == multiset(y)
    requires NonDecreasing(Sizes(x)) && NonDecreasing(Sizes(y)) && Sizes(v) == Mirrored(Sizes(y))
    ensures Spread(CombinedAll(x, v)) <= Max(Spread(x), Spread(y)) + |SlotsOf(x) * SlotsOf(y)|
  {
    hide AllStrict, SlotsOf, CombinedAll, NonDecreasing, Largest, Smallest, Max, Keys, Mirrored;
    StrictPermute(y, v);
    SlotsPermute(v, y);
    PairSizes(x, v);
    CrossedGap(Sizes(x), Sizes(y), Sizes(CombinedAll(x, v)), |SlotsOf(x) * SlotsOf(y)|);
  }

  lemma PairSizes(x: seq<SlotEntry>, v: seq<SlotEntry>)
    requires |x| == |v| && AllStrict(x) && AllStrict(v)
    ensures |Sizes(CombinedAll(x, v))| == |Sizes(x)| == |Sizes(v)| == |x|
    ensures forall i :: 0 <= i < |x| ==>
      Sizes(x)[i] + Sizes(v)[i] - |SlotsOf(x) * SlotsOf(v)| <= Sizes(CombinedAll(x, v))[i] <= Sizes(x)[i] + Sizes(v)[i]
  {
    hide AllStrict, SlotsOf, Combined, Size;
    forall i | 0 <= i < |x|
      ensures var c := Size(CombinedAll(x, v)[i]);
        Size(x[i]) + Size(v[i]) - |SlotsOf(x) * SlotsOf(v)| <= c <= Size(x[i]) + Size(v[i])
    {
      PairSize(x, v, i);
    }
  }

  /** A merge is no wider than the wider of the two, but for slots they share. */
  lemma MergeNeverWidens(x: seq<SlotEntry>, y: seq<SlotEntry>, visited: seq<seq<SlotEntry>>, t: SlotTuple)
    requires |x| == |y| > 0 && AllStrict(x) && AllStrict(y) && MergedBy(x, y, visited, t)
    requires NonDecreasing(Sizes(x)) && NonDecreasing(Sizes(y))
    ensures t.diff <= Max(Spread(x), Spread(y)) + |SlotsOf(x) * SlotsOf(y)|
  {
    hide AllStrict, SlotsOf, CombinedAll, Spread, NonDecreasing, NonIncreasing, IsMerge, IsChain, Keys, Searched,
      TailReversed;
    if |x| <= 5 {
      if t.diff != 0 { SearchIsNarrow(x, y, visited, t); }
    } else {
      var v := visited[0];
      assert v in visited;
      ReversedIsMirrored(y, v);
      OppositeMerge(x, y, v);
    }
  }

  lemma SearchIsNarrow(x: seq<SlotEntry>, y: seq<SlotEntry>, visited: seq<seq<SlotEntry>>, t: SlotTuple)
    requires |x| == |y| > 0 && AllStrict(x) && AllStrict(y) && Searched(x, y, visited, t)
    requires NonDecreasing(Sizes(x)) && NonDecreasing(Sizes(y)) && NonIncreasing(Sizes(visited[|visited| - 1]))
    ensures t.diff <= Max(Spread(x), Spread(y)) + |SlotsOf(x) * SlotsOf(y)|
  {
    hide AllStrict, SlotsOf, Combined, Spread, NonDecreasing, NonIncreasing, BestOf, IsChain, Keys, Max, Mirrored;
    var z := Mirrored(Sizes(y));
    MirrorPermutes(Sizes(y));
    SearchIsExhaustive(x, y, visited, t, z);
    var v :| v in visited && Sizes(v) == z && |v| == |x| && t.diff <= Spread(CombinedAll(x, v));
    OppositeMerge(x, y, v);
  }

  lemma ReversedIsMirrored(y: seq<SlotEntry>, v: seq<SlotEntry>)
    requires TailReversed(y, v, -1)
    ensures multiset(v) == multiset(y) && Sizes(v) == Mirrored(Sizes(y)) && |v| == |y|
  {
    assert v == Mirrored(y);
    MirrorPermutes(y);
  }

  // ----- wins and slots of a set of ips -----

  function WinsOne(ip: string, won: Won): (n: nat) {
    if ip in won then |won[ip]| else 0
  }

  /** How many slots the ips have won, repeats included. */
  ghost function Wins(ips: multiset<string>, won: Won): (n: nat)
    decreases |ips|
  {
    if ips == multiset{} then 0
    else
      var ip :| ip in ips;
      WinsOne(ip, won) + Wins(ips - multiset{ip}, won)
  }

  /** The slots the ips have won. */
  ghost function SlotsWon(ips: multiset<string>, won: Won): (m: set<int>) {
    set ip, v | ip in ips && ip in won && v in won[ip] :: v
  }

  lemma {:induction false} WinsSplit(ips: multiset<string>, won: Won, ip: string)
    requires ip in ips
    ensures Wins(ips, won) == WinsOne(ip, won) + Wins(ips - multiset{ip}, won)
    decreases |ips|
  {
    hide Wins, WinsOne;
    var q := FirstWin(ips, won);
    if q != ip {
      TakeTwo(ips, q, ip);
      WinsSplit(ips - multiset{q}, won, ip);
      WinsSplit(ips - multiset{ip}, won, q);
    }
  }

  lemma FirstWin(ips: multiset<string>, won: Won) returns (q: string)
    requires ips != multiset{}
    ensures q in ips && Wins(ips, won) == WinsOne(q, won) + Wins(ips - multiset{q}, won)
  {
    hide WinsOne;
    q :| q in ips && Wins(ips, won) == WinsOne(q, won) + Wins(ips - multiset{q}, won);
  }

  lemma TakeTwo(ips: multiset<string>, p: string, q: string)
    requires p in ips && q in ips && p != q
    ensures q in ips - multiset{p} && p in ips - multiset{q}
    ensures ips - multiset{p} - multiset{q} == ips - multiset{q} - multiset{p}
  {}

  lemma PutBack(ips: multiset<string>, ip: string)
    requires ip in ips
    ensures ips - multiset{ip} + multiset{ip} == ips && |ips - multiset{ip}| < |ips|
  {}

  lemma {:induction false} WinsAdd(a: multiset<string>, b: multiset<string>, won: Won)
    ensures Wins(a + b, won) == Wins(a, won) + Wins(b, won)
    decreases |a|
  {
    if a == multiset{} {
      assert a + b == b;
    } else {
      var ip :| ip in a;
      WinsSplit(a, won, ip);
      WinsSplit(a + b, won, ip);
      WinsAdd(a - multiset{ip}, b, won);
      assert a + b - multiset{ip} == a - multiset{ip} + b;
    }
  }

  lemma SlotsWonAdd(a: multiset<string>, b: multiset<string>, won: Won)
    ensures SlotsWon(a + b, won) == SlotsWon(a, won) + SlotsWon(b, won)
  {
    forall v ensures v in SlotsWon(a + b, won) <==> v in SlotsWon(a, won) || v in SlotsWon(b, won) {
      if v in SlotsWon(a + b, won) {
        var ip :| ip in a + b && ip in won && v in won[ip];
        assert ip in a || ip in b;
      }
      if v in SlotsWon(a, won) {
        var ip :| ip in a && ip in won && v in won[ip];
        assert ip in a + b;
      }
      if v in SlotsWon(b, won) {
        var ip :| ip in b && ip in won && v in won[ip];
        assert ip in a + b;
      }
    }
  }

  lemma SlotsOfOne(ip: string, won: Won)
    ensures SlotsWon(multiset{ip}, won) == if ip in won then Members(won[ip]) else {}
  {
    forall v ensures v in SlotsWon(multiset{ip}, won) <==> ip in won && v in won[ip] {
      if v in SlotsWon(multiset{ip}, won) {
        var q :| q in multiset{ip} && q in won && v in won[q];
      }
      if ip in won && v in won[ip] {
        assert ip in multiset{ip};
      }
    }
  }

  lemma {:induction false} GatheredFrom(ips: seq<string>, won: Won, v: int) returns (ip: string)
    requires v in Gather(ips, won)
    ensures ip in ips && ip in won && v in won[ip]
  {
    if ips[0] in won && v in won[ips[0]] {
      ip := ips[0];
    } else {
      ip := GatheredFrom(ips[1..], won, v);
    }
  }

  lemma {:induction false} IpHeld(s: seq<SlotEntry>, i: nat, ip: string)
    requires i < |s| && ip in s[i].ips
    ensures ip in IpsOf(s)
  {
    if i > 0 {
      IpHeld(s[1..], i - 1, ip);
    } else {
      assert ip in multiset(s[0].ips);
    }
  }

  /** Faithful entries hold nothing but what their ips have won. */
  lemma SlotsAreWon(s: seq<SlotEntry>, won: Won)
    requires AllFaithful(s, won)
    ensures SlotsOf(s) <= SlotsWon(IpsOf(s), won)
  {
    hide IpsOf, SortedSet, Gather;
    forall v | v in SlotsOf(s) ensures v in SlotsWon(IpsOf(s), won) {
      var e :| e in s && v in e.slots;
      var i :| 0 <= i < |s| && s[i] == e;
      assert Faithful(e, won);
      var ip := GatheredFrom(e.ips, won, v);
      IpHeld(s, i, ip);
    }
  }

  // ----- the whole run -----

  /** The gap is at most one ip's slots, plus the slots won more than once. */
  ghost predicate Fair(t: SlotTuple, won: Won, most: nat) {
    var ips := IpsOf(t.entries);
    && |SlotsWon(ips, won)| <= Wins(ips, won)
    && t.diff + |SlotsWon(ips, won)| <= most + Wins(ips, won)
  }

  lemma FairMerge(x: SlotTuple, y: SlotTuple, t: SlotTuple, won: Won, most: nat)
    requires Fair(x, won, most) && Fair(y, won, most) && IpsOf(t.entries) == IpsOf(x.entries) + IpsOf(y.entries)
    requires t.diff <= Max(x.diff, y.diff) + |SlotsWon(IpsOf(x.entries), won) * SlotsWon(IpsOf(y.entries), won)|
    ensures Fair(t, won, most)
  {
    hide IpsOf, Wins, SlotsWon;
    WinsAdd(IpsOf(x.entries), IpsOf(y.entries), won);
    SlotsWonAdd(IpsOf(x.entries), IpsOf(y.entries), won);
  }

  lemma SoundSpread(t: SlotTuple, won: Won, groups: nat)
    requires Sound(t, won, groups)
    ensures Spread(t.entries) <= t.diff
  {
    hide AllFaithful, IpsOf, Largest, Smallest;
    AscendingEnds(Sizes(t.entries));
  }

  lemma MergeStaysFair(x: SlotTuple, y: SlotTuple, visited: seq<seq<SlotEntry>>, t: SlotTuple, won: Won,
                       groups: nat, most: nat)
    requires Sound(x, won, groups) && Sound(y, won, groups)
    requires |IpsOf(x.entries)| > 0 && |IpsOf(y.entries)| > 0
    requires MergedBy(x.entries, y.entries, visited, t) && Fair(x, won, most) && Fair(y, won, most)
    ensures Sound(t, won, groups) && |IpsOf(t.entries)| > 0 && Fair(t, won, most)
  {
    hide AllFaithful, IpsOf, Keys, MergedBy, Fair, Spread, NonDecreasing, SlotsOf, SlotsWon, AllStrict, IsMerge;
    var v := ArrangementMerged(x.entries, y.entries, visited, t);
    MergeIsSound(x, y, v, t, won, groups);
    FaithfulIsStrict(x.entries, won);
    FaithfulIsStrict(y.entries, won);
    MergeNeverWidens(x.entries, y.entries, visited, t);
    SoundSpread(x, won, groups);
    SoundSpread(y, won, groups);
    SlotsAreWon(x.entries, won);
    SlotsAreWon(y.entries, won);
    SubsetCount(SlotsOf(x.entries) * SlotsOf(y.entries),
                SlotsWon(IpsOf(x.entries), won) * SlotsWon(IpsOf(y.entries), won));
    FairMerge(x, y, t, won, most);
  }

  lemma ArrangementMerged(x: seq<SlotEntry>, y: seq<SlotEntry>, visited: seq<seq<SlotEntry>>, t: SlotTuple)
    returns (v: seq<SlotEntry>)
    requires MergedBy(x, y, visited, t)
    ensures multiset(v) == multiset(y) && IsMerge(x, v, t)
  {
    hide IsMerge, IsChain, NonIncreasing, TailReversed, Keys, Spread;
    v := ChosenArrangement(x, visited, t);
    if |x| > 5 { ReversedIsMirrored(y, v); }
  }

  ghost predicate HeapFair(h: seq<SlotTuple>, won: Won, most: nat) {
    forall i :: 0 <= i < |h| ==> Fair(h[i], won, most)
  }

  lemma PoppedFair(h: seq<SlotTuple>, t: SlotTuple, rest: seq<SlotTuple>, won: Won, most: nat)
    requires HeapFair(h, won, most) && Popped(h, t, rest)
    ensures Fair(t, won, most) && HeapFair(rest, won, most)
  {
    hide Fair;
    var i :| 0 <= i < |h| && h[i] == t && rest == h[..i] + h[i + 1..];
    forall m | 0 <= m < |rest| ensures Fair(rest[m], won, most) {
      assert rest[m] == h[if m < i then m else m + 1];
    }
  }

  lemma StepStaysFair(h: seq<SlotTuple>, h': seq<SlotTuple>, won: Won, groups: nat, most: nat)
    requires HeapSound(h, won, groups) && HeapFair(h, won, most) && PartitionStep(h, h')
    ensures HeapSound(h', won, groups) && HeapFair(h', won, most)
  {
    hide Sound, Fair, IpsOf, Popped, MergedBy, HeapIps, HeapSound;
    var x, more, y, rest, t, visited :| MergeStep(h, x, more, y, rest, t, visited, h');
    PopKeeps(h, x, more, won, groups);
    PoppedFair(h, x, more, won, most);
    PopKeeps(more, y, rest, won, groups);
    PoppedFair(more, y, rest, won, most);
    MergeStaysFair(x, y, visited, t, won, groups, most);
    PushSound(rest, t, won, groups);
  }

  lemma {:induction false} RunStaysFair(h: seq<SlotTuple>, trace: seq<seq<SlotTuple>>, won: Won, groups: nat, most: nat,
                                        i: nat)
    requires HeapSound(h, won, groups) && HeapFair(h, won, most)
    requires trace != [] && trace[0] == h && i < |trace|
    requires forall m :: 0 <= m < |trace| - 1 ==> PartitionStep(trace[m], trace[m + 1])
    ensures HeapSound(trace[i], won, groups) && HeapFair(trace[i], won, most)
  {
    hide HeapSound, HeapFair, PartitionStep;
    if i > 0 {
      RunStaysFair(h, trace, won, groups, most, i - 1);
      StepStaysFair(trace[i - 1], trace[i - 1 + 1], won, groups, most);
    }
  }

  lemma SingleIsFair(ip: string, won: Won, groups: nat, most: nat)
    requires groups > 0 && ip in won && StrictlyAscending(won[ip]) && |won[ip]| <= most
    ensures Fair(Single(ip, won[ip], groups), won, most)
  {
    hide StrictlyAscending, IpsOf, SlotsWon;
    SingleIps(ip, won[ip], groups);
    WinsSplit(multiset{ip}, won, ip);
    assert multiset{ip} - multiset{ip} == multiset{};
    StrictMembers(won[ip]);
    SlotsOfOne(ip, won);
  }

  lemma {:induction false} SinglesAreFair(order: seq<string>, won: Won, groups: nat, most: nat)
    requires groups > 0 && StrictLists(won) && forall ip :: ip in won ==> |won[ip]| <= most
    ensures HeapSound(Singles(order, won, groups), won, groups) && HeapFair(Singles(order, won, groups), won, most)
  {
    hide Sound, Fair, Single, IpsOf, StrictlyAscending;
    if order != [] {
      var n := |order| - 1;
      SinglesAreFair(order[..n], won, groups, most);
      var ip := order[n];
      if ip in won && won[ip] != [] {
        SingleIsSound(ip, won, groups);
        SingleIsFair(ip, won, groups, most);
        SingleIps(ip, won[ip], groups);
      }
    }
  }

  /** The groups of a finished partition differ by at most the slots of one ip, plus the slots won
      by several ips, counted as often as they are won again. */
  lemma PartitionIsBalanced(won: Won, order: seq<string>, groups: nat, trace: seq<seq<SlotTuple>>, t: SlotTuple,
                            most: nat)
    requires groups > 0 && StrictLists(won) && forall ip :: ip in won ==> |won[ip]| <= most
    requires PartitionRun(Singles(order, won, groups), trace, [t])
    ensures t.diff <= most + Wins(IpsOf(t.entries), won) - |SlotsWon(IpsOf(t.entries), won)|
  {
    hide HeapSound, PartitionStep, Singles, Wins, SlotsWon, IpsOf, StrictLists;
    SinglesAreFair(order, won, groups, most);
    RunStaysFair(Singles(order, won, groups), trace, won, groups, most, |trace| - 1);
    assert Fair([t][0], won, most);
  }

  /** No two ips have won the same slot. */
  ghost predicate NoSharedSlot(won: Won) {
    forall a, b, v :: a in won && b in won && v in won[a] && v in won[b] ==> a == b
  }

  lemma {:induction false} NothingWonTwice(ips: multiset<string>, won: Won)
    requires NoSharedSlot(won) && StrictLists(won) && forall ip :: ips[ip] <= 1
    ensures Wins(ips, won) == |SlotsWon(ips, won)|
    decreases |ips|
  {
    hide StrictlyAscending, SlotsWon, NoSharedSlot, Members;
    if ips == multiset{} {
      NoIpsNoSlots(won);
    } else {
      var ip :| ip in ips;
      var rest := ips - multiset{ip};
      PutBack(ips, ip);
      WinsSplit(ips, won, ip);
      NothingWonTwice(rest, won);
      SlotsWonAdd(rest, multiset{ip}, won);
      SlotsOfOne(ip, won);
      if ip in won {
        StrictMembers(won[ip]);
        WonElsewhere(rest, ip, won);
      }
    }
  }

  lemma NoIpsNoSlots(won: Won)
    ensures SlotsWon(multiset{}, won) == {}
  {}

  lemma WonElsewhere(ips: multiset<string>, ip: string, won: Won)
    requires NoSharedSlot(won) && ip !in ips && ip in won
    ensures SlotsWon(ips, won) !! Members(won[ip])
  {
    forall v | v in SlotsWon(ips, won) ensures v !in Members(won[ip]) {
      var q :| q in ips && q in won && v in won[q];
    }
  }

  /** When no slot is won twice, the groups differ by no more than the slots of the largest ip. */
  lemma DisjointPartition(won: Won, order: seq<string>, groups: nat, trace: seq<seq<SlotTuple>>, t: SlotTuple,
                          most: nat)
    requires groups > 0 && StrictLists(won) && forall ip :: ip in won ==> |won[ip]| <= most
    requires PartitionRun(Singles(order, won, groups), trace, [t]) && HoldsEachOnce(t, won) && NoSharedSlot(won)
    ensures t.diff <= most
  {
    hide PartitionRun, Singles, Wins, SlotsWon, StrictLists, NoSharedSlot;
    PartitionIsBalanced(won, order, groups, trace, t, most);
    forall ip ensures IpsOf(t.entries)[ip] <= 1 {}
    NothingWonTwice(IpsOf(t.entries), won);
  }
}
