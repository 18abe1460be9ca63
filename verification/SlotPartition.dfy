/**
 * Splitting ips into groups of roughly equal slot counts by repeatedly
 * merging the two partial partitions that differ most, and joining the
 * resulting entries into the requested groups.
 */
module SlotPartition {
  import opened Options
  import opened Permutations
  import opened SlotLists
  import opened SlotTuples

  type Won = map<string, seq<int>>

  // ----- what a partition keeps -----

  /** What the map gives for each of the ips, one list after the other. */
  function Gather<T>(ips: seq<string>, m: map<string, seq<T>>): (r: seq<T>) {
    if ips == [] then []
    else (if ips[0] in m then m[ips[0]] else []) + Gather(ips[1..], m)
  }

  lemma {:induction false} GatherConcat<T>(a: seq<string>, b: seq<string>, m: map<string, seq<T>>)
    ensures Gather(a + b, m) == Gather(a, m) + Gather(b, m)
  {
    if a == [] {
      assert a + b == b;
    } else {
      assert (a + b)[1..] == a[1..] + b;
      GatherConcat(a[1..], b, m);
    }
  }

  /** An entry's slots are the strictly ascending union of its ips' slots. */
  ghost predicate Faithful(e: SlotEntry, won: Won) {
    e.slots == SortedSet(Gather(e.ips, won))
  }

  ghost predicate AllFaithful(s: seq<SlotEntry>, won: Won) {
    forall e :: e in s ==> Faithful(e, won)
  }

  lemma CombinedFaithful(a: SlotEntry, b: SlotEntry, won: Won)
    requires Faithful(a, won) && Faithful(b, won)
    ensures Faithful(Combined(a, b), won)
  {
    GatherConcat(a.ips, b.ips, won);
    SortedSetOfParts(Gather(a.ips, won), Gather(b.ips, won));
  }

  lemma FaithfulPermute(a: seq<SlotEntry>, b: seq<SlotEntry>, won: Won)
    requires multiset(a) == multiset(b) && AllFaithful(a, won)
    ensures AllFaithful(b, won)
  {
    forall e | e in b ensures Faithful(e, won) {
      assert e in multiset(b);
      assert e in a;
    }
  }

  /** Every ip held by some entry, as often as it is held. */
  ghost function IpsOf(s: seq<SlotEntry>): (m: multiset<string>) {
    if s == [] then multiset{} else multiset(s[0].ips) + IpsOf(s[1..])
  }

  lemma {:induction false} IpsOfConcat(a: seq<SlotEntry>, b: seq<SlotEntry>)
    ensures IpsOf(a + b) == IpsOf(a) + IpsOf(b)
  {
    if a == [] {
      assert a + b == b;
    } else {
      assert (a + b)[1..] == a[1..] + b;
      IpsOfConcat(a[1..], b);
    }
  }

  lemma {:induction false} IpsPermute(a: seq<SlotEntry>, b: seq<SlotEntry>)
    requires multiset(a) == multiset(b)
    ensures IpsOf(a) == IpsOf(b)
  {
    if a == [] {
      assert |multiset(b)| == 0;
      assert b == [];
    } else {
      var i := FindFirst(a, b);
      IpsPermute(a[1..], b[..i] + b[i + 1..]);
      IpsOfConcat(b[..i], b[i + 1..]);
      IpsOfConcat(b[..i], b[i..]);
      assert b == b[..i] + b[i..] && b[i..][1..] == b[i + 1..];
    }
  }

  lemma {:induction false} CombinedIps(x: seq<SlotEntry>, y: seq<SlotEntry>)
    requires |x| == |y|
    ensures IpsOf(CombinedAll(x, y)) == IpsOf(x) + IpsOf(y)
  {
    var c := CombinedAll(x, y);
    if x != [] {
      CombinedIps(x[1..], y[1..]);
      assert c[1..] == CombinedAll(x[1..], y[1..]);
      assert multiset(c[0].ips) == multiset(x[0].ips) + multiset(y[0].ips);
    }
  }

  /** Merging two partitions keeps every ip, and every entry faithful. */
  lemma MergeConserves(x: seq<SlotEntry>, y: seq<SlotEntry>, v: seq<SlotEntry>, t: SlotTuple, won: Won)
    requires AllFaithful(x, won) && AllFaithful(y, won)
    requires multiset(v) == multiset(y) && IsMerge(x, v, t)
    ensures AllFaithful(t.entries, won)
    ensures IpsOf(t.entries) == IpsOf(x) + IpsOf(y)
  {
    var c := CombinedAll(x, v);
    FaithfulPermute(y, v, won);
    forall e | e in c ensures Faithful(e, won) {
      var i :| 0 <= i < |c| && c[i] == e;
      assert x[i] in x && v[i] in v;
      CombinedFaithful(x[i], v[i], won);
    }
    FaithfulPermute(c, t.entries, won);
    IpsPermute(c, t.entries);
    CombinedIps(x, v);
    IpsPermute(v, y);
  }

  /** What every tuple on the heap satisfies. */
  ghost predicate Sound(t: SlotTuple, won: Won, groups: nat) {
    && |t.entries| == groups > 0
    && AllFaithful(t.entries, won)
    && NonDecreasing(Sizes(t.entries))
    && t.diff == if groups == 1 && |IpsOf(t.entries)| == 1 then Size(t.entries[0])
                 else Size(t.entries[groups - 1]) - Size(t.entries[0])
  }

  ghost function HeapIps(h: seq<SlotTuple>): (m: multiset<string>) {
    if h == [] then multiset{} else IpsOf(h[0].entries) + HeapIps(h[1..])
  }

  ghost predicate HeapSound(h: seq<SlotTuple>, won: Won, groups: nat) {
    forall i :: 0 <= i < |h| ==> Sound(h[i], won, groups) && |IpsOf(h[i].entries)| > 0
  }

  lemma {:induction false} HeapConcat(a: seq<SlotTuple>, b: seq<SlotTuple>)
    ensures HeapIps(a + b) == HeapIps(a) + HeapIps(b)
  {
    hide IpsOf;
    if a == [] {
      assert a + b == b;
    } else {
      assert (a + b)[1..] == a[1..] + b;
      HeapConcat(a[1..], b);
    }
  }

  lemma HeapWithout(h: seq<SlotTuple>, i: nat)
    requires i < |h|
    ensures HeapIps(h) == HeapIps(h[..i] + h[i + 1..]) + IpsOf(h[i].entries)
  {
    hide IpsOf;
    HeapConcat(h[..i], h[i + 1..]);
    HeapConcat(h[..i], h[i..]);
    assert h == h[..i] + h[i..] && h[i..][1..] == h[i + 1..];
  }

  lemma HeapPush(h: seq<SlotTuple>, t: SlotTuple)
    ensures HeapIps(h + [t]) == HeapIps(h) + IpsOf(t.entries)
  {
    hide IpsOf;
    HeapConcat(h, [t]);
    assert [t][1..] == [];
  }

  // ----- the heap -----

  /** t, of largest diff, was taken out of h. */
  ghost predicate Popped(h: seq<SlotTuple>, t: SlotTuple, rest: seq<SlotTuple>) {
    && (exists i :: 0 <= i < |h| && h[i] == t && rest == h[..i] + h[i + 1..])
    && forall i :: 0 <= i < |h| ==> h[i].diff <= t.diff
  }

  /** A tuple of largest diff is taken; which one among equals is left open. */
  method PopTuple(h: seq<SlotTuple>) returns (t: Option<SlotTuple>, rest: seq<SlotTuple>)
    ensures t.None? <==> h == []
    ensures t.None? ==> rest == []
    ensures t.Some? ==> Popped(h, t.value, rest)
  {
    if |h| == 0 {
      return None, [];
    }
    var best := 0;
    for i := 1 to |h|
      invariant best < |h|
      invariant forall m :: 0 <= m < i ==> h[m].diff <= h[best].diff
    {
      if h[i].diff > h[best].diff {
        best := i;
      }
    }
    return Some(h[best]), h[..best] + h[best + 1..];
  }

  lemma PopKeeps(h: seq<SlotTuple>, t: SlotTuple, rest: seq<SlotTuple>, won: Won, groups: nat)
    requires HeapSound(h, won, groups)
    requires Popped(h, t, rest)
    ensures Sound(t, won, groups) && HeapSound(rest, won, groups) && |IpsOf(t.entries)| > 0
    ensures HeapIps(h) == HeapIps(rest) + IpsOf(t.entries) && |rest| == |h| - 1
  {
    hide Sound, IpsOf, HeapIps;
    var i :| 0 <= i < |h| && h[i] == t && rest == h[..i] + h[i + 1..];
    HeapWithout(h, i);
    forall m | 0 <= m < |rest| ensures Sound(rest[m], won, groups) && |IpsOf(rest[m].entries)| > 0 {
      assert rest[m] == h[if m < i then m else m + 1];
    }
  }

  // ----- one ip per tuple -----

  function Trimmed(won: Won, endSlot: int): (r: Won) {
    map ip | ip in won :: UpTo(won[ip], endSlot)
  }

  /** The ips of the list that have a slot within the bound. */
  ghost function Holders(order: seq<string>, won: Won): (r: seq<string>) {
    if order == [] then []
    else
      var ip := order[|order| - 1];
      var before := Holders(order[..|order| - 1], won);
      if ip in won && won[ip] != [] then before + [ip] else before
  }

  function Single(ip: string, slots: seq<int>, groups: nat): (t: SlotTuple)
    requires groups > 0
  {
    SlotTuple(seq(groups - 1, _ => SlotEntry([], [])) + [SlotEntry(slots, [ip])], |slots|)
  }

  lemma {:induction false} EmptiesHoldNothing(n: nat)
    ensures IpsOf(seq(n, _ => SlotEntry([], []))) == multiset{}
  {
    var s := seq(n, _ => SlotEntry([], []));
    if n > 0 {
      EmptiesHoldNothing(n - 1);
      assert s[1..] == seq(n - 1, _ => SlotEntry([], []));
    }
  }

  lemma SingleIps(ip: string, slots: seq<int>, groups: nat)
    requires groups > 0
    ensures IpsOf(Single(ip, slots, groups).entries) == multiset{ip}
  {
    var s := seq(groups - 1, _ => SlotEntry([], []));
    var last := [SlotEntry(slots, [ip])];
    EmptiesHoldNothing(groups - 1);
    IpsOfConcat(s, last);
    assert last[1..] == [];
    assert multiset([ip]) == multiset{ip};
  }

  lemma SingleIsSound(ip: string, won: Won, groups: nat)
    requires groups > 0 && ip in won && StrictlyAscending(won[ip])
    ensures Sound(Single(ip, won[ip], groups), won, groups)
  {
    var t := Single(ip, won[ip], groups);
    SingleIps(ip, won[ip], groups);
    assert Gather([ip], won) == won[ip] + Gather([], won) == won[ip];
    SortedSetOfStrict(won[ip]);
    assert Gather([], won) == [];
    assert Faithful(SlotEntry(won[ip], [ip]), won);
    assert Faithful(SlotEntry([], []), won);
  }

  // ----- the partition -----

  /** The list names every key of the map exactly once, in whatever order. */
  ghost predicate Enumerates(order: seq<string>, won: Won) {
    forall ip :: multiset(order)[ip] == if ip in won then 1 else 0
  }

  ghost predicate StrictLists(won: Won) {
    forall ip :: ip in won ==> StrictlyAscending(won[ip])
  }

  /** Every ip with a slot within the bound is held once, no other is held. */
  ghost predicate HoldsEachOnce(t: SlotTuple, won: Won) {
    forall ip :: IpsOf(t.entries)[ip] == if ip in won && won[ip] != [] then 1 else 0
  }

  lemma {:induction false} HoldersCount(order: seq<string>, won: Won, ip: string)
    ensures multiset(Holders(order, won))[ip] == if ip in won && won[ip] != [] then multiset(order)[ip] else 0
  {
    if order != [] {
      hide Holders;
      var n := |order| - 1;
      HoldersCount(order[..n], won, ip);
      LastHolder(order, won);
      LastSplit(order);
      OneMoreOf(order[..n], order[n], ip);
      OneMoreOf(Holders(order[..n], won), order[n], ip);
    }
  }

  lemma LastHolder(order: seq<string>, won: Won)
    requires order != []
    ensures var n := |order| - 1; var before := Holders(order[..n], won);
      Holders(order, won) == if order[n] in won && won[order[n]] != [] then before + [order[n]] else before
  {}

  lemma LastSplit(s: seq<string>)
    requires s != []
    ensures s == s[..|s| - 1] + [s[|s| - 1]]
  {}

  lemma OneMoreOf(s: seq<string>, x: string, ip: string)
    ensures multiset(s + [x])[ip] == multiset(s)[ip] + if x == ip then 1 else 0
  {}

  method InitialTuples(won: Won, order: seq<string>, groups: nat, endSlot: int) returns (h: seq<SlotTuple>)
    requires groups > 0 && StrictLists(won) && Enumerates(order, won)
    ensures HeapSound(h, Trimmed(won, endSlot), groups)
    ensures HeapIps(h) == multiset(Holders(order, Trimmed(won, endSlot)))
    ensures h == Singles(order, Trimmed(won, endSlot), groups)
  {
    hide Sound, StrictlyAscending, HeapSound, HeapIps, Holders, IpsOf, UpTo, Enumerates, Singles;
    ghost var kept := Trimmed(won, endSlot);
    h := [];
    NothingYet(kept, groups);
    for i := 0 to |order|
      invariant HeapSound(h, kept, groups)
      invariant HeapIps(h) == multiset(Holders(order[..i], kept))
      invariant h == Singles(order[..i], kept, groups)
    {
      var ip := order[i];
      Listed(order, won, i);
      HoldersStep(order, kept, i);
      SinglesStep(order, kept, groups, i);
      var slots := FilterLte(won[ip], endSlot);
      if |slots| > 0 {
        var t := Single(ip, slots, groups);
        SingleIsSound(ip, kept, groups);
        SingleIps(ip, slots, groups);
        HeapPush(h, t);
        PushSound(h, t, kept, groups);
        h := h + [t];
      }
    }
    assert order[..|order|] == order;
  }

  lemma NothingYet(won: Won, groups: nat)
    requires groups > 0
    ensures HeapSound([], won, groups) && HeapIps([]) == multiset(Holders([], won)) && Singles([], won, groups) == []
  {}

  /** The tuples the heap starts with, in the order of the ips. */
  function Singles(order: seq<string>, won: Won, groups: nat): (h: seq<SlotTuple>)
    requires groups > 0
  {
    if order == [] then []
    else
      var ip := order[|order| - 1];
      var before := Singles(order[..|order| - 1], won, groups);
      if ip in won && won[ip] != [] then before + [Single(ip, won[ip], groups)] else before
  }

  lemma SinglesStep(order: seq<string>, won: Won, groups: nat, i: nat)
    requires i < |order| && order[i] in won && groups > 0
    ensures var before := Singles(order[..i], won, groups);
      Singles(order[..i + 1], won, groups) ==
        if won[order[i]] != [] then before + [Single(order[i], won[order[i]], groups)] else before
  {
    hide Single;
    assert order[..i + 1][..i] == order[..i];
  }

  lemma Listed(order: seq<string>, won: Won, i: nat)
    requires Enumerates(order, won) && i < |order|
    ensures order[i] in won
  {
    assert order[i] in multiset(order);
  }

  lemma HoldersStep(order: seq<string>, won: Won, i: nat)
    requires i < |order| && order[i] in won
    ensures multiset(Holders(order[..i + 1], won)) ==
            multiset(Holders(order[..i], won)) + if won[order[i]] != [] then multiset{order[i]} else multiset{}
  {
    assert order[..i + 1][..i] == order[..i];
  }

  /**
   * None is the panic on an empty heap: no ip has a slot within the bound.
   * Otherwise every ip that has one is in exactly one entry, each entry's
   * slots are the union of its ips' slots, entries are ordered by slot count
   * and diff is the last count minus the first. The result is what a run of
   * merges of two tuples of largest diff leaves of the single ips.
   */
  method PartitionNumSets(won: Won, order: seq<string>, groups: nat, endSlot: int)
    returns (t: Option<SlotTuple>, ghost trace: seq<seq<SlotTuple>>)
    requires groups > 0 && StrictLists(won) && Enumerates(order, won)
    ensures t.None? <==> forall ip :: ip in won ==> UpTo(won[ip], endSlot) == []
    ensures t.Some? ==> Sound(t.value, Trimmed(won, endSlot), groups)
    ensures t.Some? ==> HoldsEachOnce(t.value, Trimmed(won, endSlot))
    ensures t.Some? ==> PartitionRun(Singles(order, Trimmed(won, endSlot), groups), trace, [t.value])
  {
    hide Sound, HeapIps, Holders, Trimmed, UpTo, Enumerates, HeapSound, Singles, PartitionRun, Popped, MergedBy;
    var h := InitialTuples(won, order, groups, endSlot);
    ghost var kept := Trimmed(won, endSlot);
    ghost var all := HeapIps(h);
    NothingHeld(h, kept, groups);
    AllHeld(won, order, endSlot, all);
    ghost var start := h;
    trace := [h];
    RunStarts(h);
    while true
      invariant PartitionRun(start, trace, h)
      invariant HeapSound(h, kept, groups) && HeapIps(h) == all
      invariant h == [] <==> all == multiset{}
      decreases |h|
    {
      NothingHeld(h, kept, groups);
      var x, more := PopTuple(h);
      if x.None? {
        return None, trace;
      }
      PopKeeps(h, x.value, more, kept, groups);
      var y, rest := PopTuple(more);
      if y.None? {
        LastHolds(x.value, more, all, kept);
        OneLeft(h, x.value, more);
        return x, trace;
      }
      PopKeeps(more, y.value, rest, kept, groups);
      ghost var visited;
      var merged;
      merged, visited := MergePair(x.value, y.value, kept, groups);
      RunGoesOn(start, trace, h, x.value, more, y.value, rest, merged, visited);
      trace := trace + [rest + [merged]];
      HeapPush(rest, merged);
      PushSound(rest, merged, kept, groups);
      h := rest + [merged];
    }
  }

  method MergePair(x: SlotTuple, y: SlotTuple, ghost won: Won, ghost groups: nat)
    returns (t: SlotTuple, ghost visited: seq<seq<SlotEntry>>)
    requires Sound(x, won, groups) && Sound(y, won, groups)
    requires |IpsOf(x.entries)| > 0 && |IpsOf(y.entries)| > 0
    ensures Sound(t, won, groups) && IpsOf(t.entries) == IpsOf(x.entries) + IpsOf(y.entries)
    ensures MergedBy(x.entries, y.entries, visited, t)
  {
    hide BestOf, AllFaithful, IpsOf, Keys, MergedBy, IsMerge;
    var ys := new SlotEntry[|y.entries|](i requires 0 <= i < |y.entries| => y.entries[i]);
    assert ys[..] == y.entries;
    FaithfulIsStrict(x.entries, won);
    FaithfulIsStrict(y.entries, won);
    t, visited := MergeWith(x.entries, ys);
    ghost var v := ChosenArrangement(x.entries, visited, t);
    MergeIsSound(x, y, v, t, won, groups);
  }

  lemma MergeIsSound(x: SlotTuple, y: SlotTuple, v: seq<SlotEntry>, t: SlotTuple, won: Won, groups: nat)
    requires Sound(x, won, groups) && Sound(y, won, groups)
    requires |IpsOf(x.entries)| > 0 && |IpsOf(y.entries)| > 0
    requires multiset(v) == multiset(y.entries) && IsMerge(x.entries, v, t)
    ensures Sound(t, won, groups) && IpsOf(t.entries) == IpsOf(x.entries) + IpsOf(y.entries)
  {
    hide AllFaithful, IpsOf, Keys;
    MergeConserves(x.entries, y.entries, v, t, won);
  }

  // ----- runs of merges -----

  /** Two tuples of largest diff are taken out of h and their merge is put in. */
  ghost predicate MergeStep(h: seq<SlotTuple>, x: SlotTuple, more: seq<SlotTuple>, y: SlotTuple, rest: seq<SlotTuple>,
                            t: SlotTuple, visited: seq<seq<SlotEntry>>, h': seq<SlotTuple>) {
    && Popped(h, x, more) && Popped(more, y, rest)
    && MergedBy(x.entries, y.entries, visited, t) && h' == rest + [t]
  }

  ghost predicate PartitionStep(h: seq<SlotTuple>, h': seq<SlotTuple>) {
    exists x, more, y, rest, t, visited :: MergeStep(h, x, more, y, rest, t, visited, h')
  }

  ghost predicate PartitionRun(h: seq<SlotTuple>, trace: seq<seq<SlotTuple>>, h': seq<SlotTuple>) {
    && trace != [] && trace[0] == h && trace[|trace| - 1] == h'
    && forall i :: 0 <= i < |trace| - 1 ==> PartitionStep(trace[i], trace[i + 1])
  }

  lemma RunStarts(h: seq<SlotTuple>)
    ensures PartitionRun(h, [h], h)
  {}

  lemma RunGoesOn(start: seq<SlotTuple>, trace: seq<seq<SlotTuple>>, h: seq<SlotTuple>, x: SlotTuple,
                  more: seq<SlotTuple>, y: SlotTuple, rest: seq<SlotTuple>, t: SlotTuple, visited: seq<seq<SlotEntry>>)
    requires PartitionRun(start, trace, h) && Popped(h, x, more) && Popped(more, y, rest)
    requires MergedBy(x.entries, y.entries, visited, t)
    ensures PartitionRun(start, trace + [rest + [t]], rest + [t])
  {
    hide Popped, MergedBy;
    var next := trace + [rest + [t]];
    assert MergeStep(h, x, more, y, rest, t, visited, rest + [t]);
    forall i | 0 <= i < |next| - 1 ensures PartitionStep(next[i], next[i + 1]) {
      if i < |trace| - 1 { assert PartitionStep(trace[i], trace[i + 1]); }
    }
  }

  lemma OneLeft(h: seq<SlotTuple>, t: SlotTuple, rest: seq<SlotTuple>)
    requires Popped(h, t, rest) && rest == []
    ensures h == [t]
  {
    var i :| 0 <= i < |h| && h[i] == t && rest == h[..i] + h[i + 1..];
    assert |rest| == |h| - 1;
  }

  lemma ChosenArrangement(x: seq<SlotEntry>, visited: seq<seq<SlotEntry>>, t: SlotTuple) returns (v: seq<SlotEntry>)
    requires BestOf(x, visited, t)
    ensures v in visited && IsMerge(x, v, t)
  {
    v :| v in visited && IsMerge(x, v, t);
  }

  lemma FaithfulIsStrict(s: seq<SlotEntry>, won: Won)
    requires AllFaithful(s, won)
    ensures AllStrict(s)
  {
    forall e | e in s ensures StrictlyAscending(e.slots) {
      assert Faithful(e, won);
    }
  }

  lemma PushSound(h: seq<SlotTuple>, t: SlotTuple, won: Won, groups: nat)
    requires HeapSound(h, won, groups) && Sound(t, won, groups) && |IpsOf(t.entries)| > 0
    ensures HeapSound(h + [t], won, groups)
  {}

  lemma NothingHeld(h: seq<SlotTuple>, won: Won, groups: nat)
    requires HeapSound(h, won, groups)
    ensures h == [] <==> HeapIps(h) == multiset{}
  {
    hide Sound;
    if h != [] {
      assert |HeapIps(h)| >= |IpsOf(h[0].entries)| > 0;
    }
  }

  lemma AllHeld(won: Won, order: seq<string>, endSlot: int, all: multiset<string>)
    requires Enumerates(order, won) && all == multiset(Holders(order, Trimmed(won, endSlot)))
    ensures all == multiset{} <==> forall ip :: ip in won ==> UpTo(won[ip], endSlot) == []
    ensures forall ip :: all[ip] == if ip in Trimmed(won, endSlot) && Trimmed(won, endSlot)[ip] != [] then 1 else 0
  {
    hide Holders, UpTo;
    var kept := Trimmed(won, endSlot);
    forall ip ensures all[ip] == if ip in kept && kept[ip] != [] then 1 else 0 {
      HoldersCount(order, kept, ip);
    }
    if all == multiset{} {
      forall ip | ip in won ensures UpTo(won[ip], endSlot) == [] {
        assert all[ip] == 0;
      }
    } else {
      var ip :| ip in all;
      assert UpTo(won[ip], endSlot) != [];
    }
  }

  lemma LastHolds(t: SlotTuple, rest: seq<SlotTuple>, all: multiset<string>, won: Won)
    requires rest == [] && all == HeapIps(rest) + IpsOf(t.entries)
    requires forall ip :: all[ip] == if ip in won && won[ip] != [] then 1 else 0
    ensures HoldsEachOnce(t, won)
  {
    assert all == IpsOf(t.entries);
  }
}
