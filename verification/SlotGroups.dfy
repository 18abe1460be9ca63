/** Joining the entries of a partition into groups, and the search for the best last slot. */
module SlotGroups {
  import opened Options
  import opened Permutations
  import opened SlotLists
  import opened SlotTuples
  import opened SlotPartition

  type Addresses = map<string, seq<string>>

  datatype Group = Group(addrs: seq<string>, slots: seq<int>)

  // ----- arranging entries into groups -----

  function Sum(groups: seq<nat>): (n: nat) {
    if groups == [] then 0 else Sum(groups[..|groups| - 1]) + groups[|groups| - 1]
  }

  lemma {:induction false} SumPrefix(groups: seq<nat>, j: nat)
    requires j <= |groups|
    ensures Sum(groups[..j]) <= Sum(groups)
  {
    if j < |groups| {
      SumPrefix(groups[..|groups| - 1], j);
      assert groups[..|groups| - 1][..j] == groups[..j];
    } else {
      assert groups[..j] == groups;
    }
  }

  lemma SumStep(groups: seq<nat>, j: nat)
    requires j < |groups|
    ensures Sum(groups[..j + 1]) == Sum(groups[..j]) + groups[j] <= Sum(groups)
  {
    SumPrefix(groups, j + 1);
    assert groups[..j + 1][..j] == groups[..j];
  }

  /** The ips of the entries, in order. */
  function IpList(s: seq<SlotEntry>): (r: seq<string>) {
    if s == [] then [] else IpList(s[..|s| - 1]) + s[|s| - 1].ips
  }

  /** The slots of the entries, in order. */
  function SlotList(s: seq<SlotEntry>): (r: seq<int>) {
    if s == [] then [] else SlotList(s[..|s| - 1]) + s[|s| - 1].slots
  }

  lemma {:induction false} IpListConcat(a: seq<SlotEntry>, b: seq<SlotEntry>)
    ensures IpList(a + b) == IpList(a) + IpList(b)
  {
    if b == [] {
      assert a + b == a;
    } else {
      assert (a + b)[..|a + b| - 1] == a + b[..|b| - 1];
      IpListConcat(a, b[..|b| - 1]);
    }
  }

  lemma {:induction false} IpListIsIpsOf(s: seq<SlotEntry>)
    ensures multiset(IpList(s)) == IpsOf(s)
  {
    if s != [] {
      var n := |s| - 1;
      IpListIsIpsOf(s[..n]);
      IpsOfConcat(s[..n], s[n..]);
      assert s == s[..n] + s[n..];
      assert s[n..][1..] == [];
    }
  }

  /** Group j takes the next n entries: their addresses in order, and the union of their slots. */
  ghost predicate IsGroup(g: Group, part: seq<SlotEntry>, addrs: Addresses) {
    g.addrs == Gather(IpList(part), addrs) && g.slots == SortedSet(SlotList(part))
  }

  function AllAddrs(out: seq<Group>): (r: seq<string>) {
    if out == [] then [] else AllAddrs(out[..|out| - 1]) + out[|out| - 1].addrs
  }

  method OneGroup(part: seq<SlotEntry>, ipToAddrs: Addresses) returns (g: Group)
    requires AllStrict(part)
    ensures IsGroup(g, part, ipToAddrs)
  {
    hide StrictlyAscending, NonDecreasing, SortedSet, IpList, SlotList, Gather;
    var addrs, slots := [], [];
    NoEntries(ipToAddrs);
    for i := 0 to |part|
      invariant IsGroup(Group(addrs, slots), part[..i], ipToAddrs)
      invariant StrictlyAscending(slots)
    {
      var e := part[i];
      assert e in part;
      ghost var before := addrs;
      for m := 0 to |e.ips|
        invariant addrs == before + Gather(e.ips[..m], ipToAddrs)
      {
        GatherStep(e.ips, m, ipToAddrs);
        addrs := addrs + if e.ips[m] in ipToAddrs then ipToAddrs[e.ips[m]] else [];
      }
      assert e.ips[..|e.ips|] == e.ips;
      StrictIsNonDecreasing(slots);
      StrictIsNonDecreasing(e.slots);
      EntryAdded(part, i, before, slots, ipToAddrs);
      slots := JoinSlots(slots, e.slots);
    }
    assert part[..|part|] == part;
    g := Group(addrs, slots);
  }

  lemma NoEntries(addrs: Addresses)
    ensures IsGroup(Group([], []), [], addrs) && StrictlyAscending([])
    ensures Gather([], addrs) == []
  {}

  lemma GatherStep(ips: seq<string>, m: nat, addrs: Addresses)
    requires m < |ips|
    ensures Gather(ips[..0], addrs) == []
    ensures Gather(ips[..m + 1], addrs) == Gather(ips[..m], addrs) + if ips[m] in addrs then addrs[ips[m]] else []
  {
    assert ips[..m + 1] == ips[..m] + [ips[m]];
    GatherConcat(ips[..m], [ips[m]], addrs);
    assert [ips[m]][1..] == [];
  }

  lemma EntryAdded(part: seq<SlotEntry>, i: nat, before: seq<string>, slots: seq<int>, addrs: Addresses)
    requires i < |part| && IsGroup(Group(before, slots), part[..i], addrs)
    requires StrictlyAscending(part[i].slots)
    ensures IsGroup(Group(before + Gather(part[i].ips, addrs), SortedSet(slots + part[i].slots)), part[..i + 1], addrs)
  {
    var p := part[..i + 1];
    assert p[..i] == part[..i];
    GatherConcat(IpList(part[..i]), part[i].ips, addrs);
    SortedSetOfStrict(part[i].slots);
    SortedSetOfParts(SlotList(part[..i]), part[i].slots);
  }

  /**
   * Group j is made of the groups[j] entries that follow those of the groups
   * before it; when the sizes add up to the number of entries, the groups
   * together hold exactly the addresses of all entries.
   */
  method ArrangeGroups(ipToAddrs: Addresses, entries: seq<SlotEntry>, groups: seq<nat>) returns (out: seq<Group>)
    requires AllStrict(entries) && Sum(groups) <= |entries|
    ensures |out| == |groups|
    ensures forall j :: 0 <= j < |out| ==> GroupAt(out[j], entries, groups, j, ipToAddrs)
    ensures AllAddrs(out) == Gather(IpList(entries[..Sum(groups)]), ipToAddrs)
    ensures Sum(groups) == |entries| ==> AllAddrs(out) == Gather(IpList(entries), ipToAddrs)
  {
    hide Gather, IpList, Sum, GroupAt, AllAddrs, AllStrict;
    out := [];
    var i := 0;
    NoGroups(entries, groups, ipToAddrs);
    for j := 0 to |groups|
      invariant i == Sum(groups[..j]) <= |entries| && |out| == j
      invariant forall m :: 0 <= m < j ==> GroupAt(out[m], entries, groups, m, ipToAddrs)
      invariant AllAddrs(out) == Gather(IpList(entries[..i]), ipToAddrs)
    {
      var n := groups[j];
      SumStep(groups, j);
      StrictPart(entries, i, i + n);
      var g := OneGroup(entries[i..i + n], ipToAddrs);
      GroupFits(g, entries, groups, j, ipToAddrs);
      GroupAdded(out, g, entries, i, n, ipToAddrs);
      out := out + [g];
      i := i + n;
    }
    assert groups[..|groups|] == groups;
    assert entries[..|entries|] == entries;
  }

  ghost predicate GroupAt(g: Group, entries: seq<SlotEntry>, groups: seq<nat>, j: nat, addrs: Addresses) {
    && j < |groups|
    && var from := Sum(groups[..j]);
       from + groups[j] <= |entries| && IsGroup(g, entries[from..from + groups[j]], addrs)
  }

  lemma NoGroups(entries: seq<SlotEntry>, groups: seq<nat>, addrs: Addresses)
    ensures Sum(groups[..0]) == 0 && AllAddrs([]) == Gather(IpList(entries[..0]), addrs)
  {}

  lemma StrictPart(s: seq<SlotEntry>, a: nat, b: nat)
    requires AllStrict(s) && a <= b <= |s|
    ensures AllStrict(s[a..b])
  {}

  lemma GroupFits(g: Group, entries: seq<SlotEntry>, groups: seq<nat>, j: nat, addrs: Addresses)
    requires j < |groups| && Sum(groups[..j]) + groups[j] <= |entries|
    requires IsGroup(g, entries[Sum(groups[..j])..Sum(groups[..j]) + groups[j]], addrs)
    ensures GroupAt(g, entries, groups, j, addrs)
  {}

  lemma GroupAdded(out: seq<Group>, g: Group, entries: seq<SlotEntry>, i: nat, n: nat, addrs: Addresses)
    requires i + n <= |entries| && IsGroup(g, entries[i..i + n], addrs)
    requires AllAddrs(out) == Gather(IpList(entries[..i]), addrs)
    ensures AllAddrs(out + [g]) == Gather(IpList(entries[..i + n]), addrs)
  {
    assert (out + [g])[..|out|] == out;
    assert entries[..i + n] == entries[..i] + entries[i..i + n];
    IpListConcat(entries[..i], entries[i..i + n]);
    GatherConcat(IpList(entries[..i]), IpList(entries[i..i + n]), addrs);
  }

  // ----- each address exactly once -----

  /** The address belongs to that ip alone, and is listed there once. */
  ghost predicate LivesAt(a: string, ip: string, addrs: Addresses) {
    && ip in addrs && multiset(addrs[ip])[a] == 1
    && forall other :: other in addrs && other != ip ==> a !in addrs[other]
  }

  lemma {:induction false} AddressCount(ips: seq<string>, addrs: Addresses, a: string, ip: string)
    requires LivesAt(a, ip, addrs)
    ensures multiset(Gather(ips, addrs))[a] == multiset(ips)[ip]
  {
    if ips != [] {
      AddressCount(ips[1..], addrs, a, ip);
      assert ips == [ips[0]] + ips[1..];
      var here := if ips[0] in addrs then addrs[ips[0]] else [];
      assert multiset(here)[a] == if ips[0] == ip then 1 else 0 by {
        if ips[0] != ip { assert a !in here; }
      }
    }
  }

  /**
   * With sizes that add up, an address is put into exactly one group, once,
   * when its ip has a slot within the bound, and into none otherwise.
   */
  lemma EachAddressOnce(t: SlotTuple, won: Won, addrs: Addresses, out: seq<Group>, a: string, ip: string)
    requires HoldsEachOnce(t, won) && LivesAt(a, ip, addrs)
    requires AllAddrs(out) == Gather(IpList(t.entries), addrs)
    ensures multiset(AllAddrs(out))[a] == if ip in won && won[ip] != [] then 1 else 0
  {
    AddressCount(IpList(t.entries), addrs, a, ip);
    IpListIsIpsOf(t.entries);
  }

  // ----- the best last slot -----

  ghost predicate PartitionAt(t: SlotTuple, won: Won, groups: nat, endSlot: int) {
    Sound(t, Trimmed(won, endSlot), groups) && HoldsEachOnce(t, Trimmed(won, endSlot))
  }

  /** Partitions for the last slots from `first` on, in turn. */
  ghost predicate Tried(tried: seq<SlotTuple>, won: Won, groups: nat, first: int) {
    forall k :: 0 <= k < |tried| ==> PartitionAt(tried[k], won, groups, first + k) && tried[k].diff >= 0
  }

  /** The earliest of smallest diff. */
  ghost predicate EarliestBest(tried: seq<SlotTuple>, best: SlotTuple, k: int) {
    && 0 <= k < |tried| && tried[k] == best
    && (forall m :: 0 <= m < |tried| ==> best.diff <= tried[m].diff)
    && forall m :: 0 <= m < k ==> best.diff < tried[m].diff
  }

  lemma SoundDiff(t: SlotTuple, won: Won, groups: nat)
    requires Sound(t, won, groups)
    ensures t.diff >= 0
  {
    FirstIsSmallest(Sizes(t.entries), groups - 1);
  }

  /** A slot within one bound is within any larger one. */
  lemma StillSome(won: Won, a: int, b: int)
    requires a <= b && !(forall ip :: ip in won ==> UpTo(won[ip], a) == [])
    ensures !(forall ip :: ip in won ==> UpTo(won[ip], b) == [])
  {
    var ip :| ip in won && UpTo(won[ip], a) != [];
    var v := UpTo(won[ip], a)[0];
    assert v in UpTo(won[ip], a);
    assert v in UpTo(won[ip], b);
  }

  /**
   * The earliest last slot of smallest diff among those tried, and all up to
   * the maximum are tried unless a perfect split is met. `orders` are the
   * orders in which the map happens to be walked for each last slot.
   */
  method AllocateSlotsDo(groups: nat, endSlot: int, maxEndSlot: int, won: Won, orders: int -> seq<string>)
    returns (best: Option<SlotTuple>, bestSlot: int, ghost tried: seq<SlotTuple>)
    requires groups > 0 && StrictLists(won) && forall slot :: Enumerates(orders(slot), won)
    ensures best.None? <==> forall ip :: ip in won ==> UpTo(won[ip], endSlot) == []
    ensures best.Some? ==> Tried(tried, won, groups, endSlot)
    ensures best.Some? ==> EarliestBest(tried, best.value, bestSlot - endSlot)
    ensures best.Some? ==> best.value.diff == 0 || endSlot + |tried| > maxEndSlot
    ensures best.Some? ==> |tried| == 1 || endSlot + |tried| <= maxEndSlot + 1
  {
    hide StrictLists, Enumerates, Sound, HoldsEachOnce, UpTo, Trimmed;
    ghost var trace;
    best, trace := PartitionNumSets(won, orders(endSlot), groups, endSlot);
    bestSlot, tried := endSlot, [];
    if best.None? {
      return;
    }
    SoundDiff(best.value, Trimmed(won, endSlot), groups);
    tried := [best.value];
    if best.value.diff > 0 {
      var slot := endSlot + 1;
      while slot <= maxEndSlot
        invariant slot == endSlot + |tried| && (|tried| == 1 || slot <= maxEndSlot + 1)
        invariant best.Some? && best.value.diff > 0
        invariant Tried(tried, won, groups, endSlot)
        invariant EarliestBest(tried, best.value, bestSlot - endSlot)
        decreases maxEndSlot - slot
      {
        StillSome(won, endSlot, slot);
        var t;
        t, trace := PartitionNumSets(won, orders(slot), groups, slot);
        SoundDiff(t.value, Trimmed(won, slot), groups);
        tried := tried + [t.value];
        if t.value.diff == 0 {
          best, bestSlot := t, slot;
          break;
        } else if t.value.diff < best.value.diff {
          best, bestSlot := t, slot;
        }
        slot := slot + 1;
      }
    }
  }
}
