/** Why processing a block, which recursively processes stored children, always ends: every block
    consumed for a root either fixes the root's schema or strictly lowers a weight. This needs no
    assumption on the store and none on how malformed or restarted roots are treated. */
module DownloadTermination {
  import opened Powers
  import opened LittleEndian
  import opened Schema
  import opened DepthIndices
  import opened BlockCodec
  import opened BlockTree
  import opened Weights
  import opened RootMachine
  import opened DownloadSafety
  import opened DownloadCompleteness

  lemma {:induction false} PowMonotone(b: nat, e: nat, f: nat)
    requires b >= 1 && e <= f
    ensures Pow(b, e) <= Pow(b, f)
  {
    if e < f {
      PowMonotone(b, e, f - 1);
      PowPositive(b, f - 1);
      MulMono(Pow(b, f - 1), 1, b);
    }
  }

  /** Weight of one awaited index: more than all its children together. */
  function WeightAt(s: BlockSchema, ix: Index): nat {
    if 0 <= ix < s.numTotalBlocks && s.maxLinksPerBlock >= 0 then
      PowPositive(s.maxLinksPerBlock + 1, s.numTotalBlocks - ix);
      Pow(s.maxLinksPerBlock + 1, s.numTotalBlocks - ix)
    else 1
  }

  function IndexWeight(s: BlockSchema): Index -> nat {
    ix => WeightAt(s, ix)
  }

  lemma IndexWeightPositive(s: BlockSchema, ix: Index)
    ensures IndexWeight(s)(ix) >= 1
  {
    if 0 <= ix < s.numTotalBlocks && s.maxLinksPerBlock >= 0 {
      PowPositive(s.maxLinksPerBlock + 1, s.numTotalBlocks - ix);
    }
  }

  lemma {:induction false} ChildWeightBound(first: Index, c: nat, w: Index -> nat, bound: nat)
    requires forall j :: first <= j < first + c ==> w(j) <= bound
    ensures ChildWeight(first, c, w) <= c * bound
  {
    if c > 0 {
      ChildWeightBound(first, c - 1, w, bound);
      assert c * bound == (c - 1) * bound + bound;
    }
  }

  /** A block outweighs its children. */
  lemma BlockOutweighsChildren(cfg: Config, s: BlockSchema, len: nat, ix: nat)
    requires ValidConfig(cfg) && SchemaFor(cfg, s, len)
    requires s.LinkCount(ix) >= 0
    ensures ChildWeight(FirstChildId(cfg.depths, ix), s.LinkCount(ix), IndexWeight(s)) < IndexWeight(s)(ix)
  {
    hide MkSchema, WellFormed, FirstChildId;
    IndexWeightPositive(s, ix);
    var c := s.LinkCount(ix);
    if c > 0 {
      TableGivesChildren(cfg, s, len, ix);
      ChildrenInTree(s, len, ix);
      LinkCountBound(s, len, ix);
      var b, n, first := s.maxLinksPerBlock + 1, s.numTotalBlocks, Child(s, ix, 0);
      var bound := Pow(b, n - ix - 1);
      forall j | first <= j < first + c ensures IndexWeight(s)(j) <= bound {
        assert j == Child(s, ix, j - first);
        PowMonotone(b, n - j, n - ix - 1);
      }
      ChildWeightBound(first, c, IndexWeight(s), bound);
      PowPositive(b, n - ix - 1);
      MulMono(bound, c, b - 1);
      assert Pow(b, n - ix) == b * bound;
      OneMore(b, bound);
    }
  }

  lemma OneMore(b: int, bound: int)
    ensures b * bound == bound * (b - 1) + bound
  {}

  lemma LinkCountBound(s: BlockSchema, len: nat, ix: nat)
    requires WellFormed(s, len)
    ensures 0 <= s.LinkCount(ix) <= s.maxLinksPerBlock
  {}

  /** The children recorded for the indices `ixs` weigh less than these indices, one by one. */
  lemma {:induction false} KidsLighter(cfg: Config, s: BlockSchema, len: nat, block: seq<Byte>, ixs: seq<Index>)
    requires ValidConfig(cfg) && SchemaFor(cfg, s, len) && ReadBlock(block).Parsed?
    requires forall p :: 0 <= p < |ixs| ==> 0 <= ixs[p] && FitsAt(s, block, ixs[p])
    ensures ChildrenWeight(cfg.depths, ixs, |ReadBlock(block).links|, IndexWeight(s)) + |ixs| <=
      SeqWeight(ixs, IndexWeight(s))
  {
    hide MkSchema, FirstChildId, ReadBlock, IndexWeight, SchemaFor;
    if ixs != [] {
      var init, last := ixs[..|ixs| - 1], ixs[|ixs| - 1];
      KidsLighter(cfg, s, len, block, init);
      FitsLinks(s, block, last);
      BlockOutweighsChildren(cfg, s, len, last);
    }
  }

  // ----- the measure of one root -----

  /** Sanity of the listed indices, kept by every action whatsoever. */
  ghost predicate Indexed(cfg: Config, r: Link, v: RootView)
    requires cfg.maxBlockSize > 2 + LINK_SIZE
  {
    && NonEmpty(v.entries)
    && (forall l, j :: Lists(v.entries, l, j) ==> j >= 0)
    && (forall l :: Lists(v.entries, l, 0) ==> l == r && v.live.Some? && v.live.value.schema.None?)
    && (v.live.Some? ==>
          && r in v.live.value.allDescendants
          && (v.live.value.schema.Some? ==> exists len: nat :: SchemaFor(cfg, v.live.value.schema.value, len)))
  }

  function Unset(v: RootView): nat {
    if v.live.Some? && v.live.value.schema.None? then 1 else 0
  }

  function WeightOf(v: RootView): Index -> nat {
    if v.live.Some? && v.live.value.schema.Some? then IndexWeight(v.live.value.schema.value) else One
  }

  ghost function ViewWeight(v: RootView): nat {
    Weight(v.entries, WeightOf(v))
  }

  /** `v'` is below `v`: its schema got fixed or dropped, or it weighs less. */
  ghost predicate Below(v': RootView, v: RootView) {
    Unset(v') < Unset(v) || (Unset(v') == Unset(v) && ViewWeight(v') < ViewWeight(v))
  }

  lemma SeqWeightPositive(s: BlockSchema, ixs: seq<Index>)
    ensures SeqWeight(ixs, IndexWeight(s)) >= |ixs|
    decreases |ixs|
  {
    if ixs != [] {
      SeqWeightPositive(s, ixs[..|ixs| - 1]);
      IndexWeightPositive(s, ixs[|ixs| - 1]);
    }
  }

  lemma OneIsLightest(s: BlockSchema, e: Entries)
    ensures Weight(e, One) <= Weight(e, IndexWeight(s))
  {
    hide IndexWeight;
    forall k, i | k in e && 0 <= i < |e[k]| ensures One(e[k][i]) <= IndexWeight(s)(e[k][i]) {
      IndexWeightPositive(s, e[k][i]);
    }
    WeightLe(e, IndexWeight(s), One);
  }

  /** Replacing the consumed entry by the children recorded for a good prefix of its indices. */
  lemma ReplaceShrinks(cfg: Config, s: BlockSchema, len: nat, e: Entries, id: Link, block: seq<Byte>,
                       good: seq<Index>, ks: set<Link>)
    requires ValidConfig(cfg) && SchemaFor(cfg, s, len) && ReadBlock(block).Parsed?
    requires id in e && e[id] != [] && good <= e[id]
    requires forall p :: 0 <= p < |good| ==> 0 <= good[p] && FitsAt(s, block, good[p])
    ensures var kids := RecordAll(cfg.depths, map[], ReadBlock(block).links, good); var w := IndexWeight(s);
      && Weight(Merge((e - {id}) - ks, kids), w) < Weight(e, w)
      && Weight(Merge(e - {id}, kids), w) < Weight(e, w)
  {
    hide MkSchema, FirstChildId, ReadBlock, IndexWeight, SchemaFor, FitsAt, Weight, SeqWeight, Merge, RecordAll;
    var links, w := ReadBlock(block).links, IndexWeight(s);
    var kids := RecordAll(cfg.depths, map[], links, good);
    KidsLighter(cfg, s, len, block, good);
    RecordAllWeight(cfg.depths, map[], links, good, w);
    EmptyWeight(w);
    WeightRemove(e, id, w);
    WeightRestrict(e - {id}, ks, w);
    WeightMerge((e - {id}) - ks, kids, w);
    WeightMerge(e - {id}, kids, w);
    var tail := e[id][|good|..];
    assert e[id] == good + tail;
    SeqWeightAppend(good, tail, w);
    SeqWeightPositive(s, tail);
  }

  lemma RemoveShrinks(e: Entries, id: Link, ks: set<Link>)
    requires id in e && e[id] != []
    ensures Weight((e - {id}) - ks, One) <= Weight(e - {id}, One) < Weight(e, One)
  {
    WeightRemove(e, id, One);
    SeqWeightOne(e[id]);
    WeightRestrict(e - {id}, ks, One);
  }

  /** What `Judge` decided, for a root whose schema was already fixed. */
  lemma JudgeFixed(cfg: Config, r: Link, v: RootView, id: Link, block: seq<Byte>) returns (good: seq<Index>, len: nat)
    requires ValidConfig(cfg) && Indexed(cfg, r, v) && id in v.entries
    requires v.live.Some? && v.live.value.schema.Some?
    ensures SchemaFor(cfg, v.live.value.schema.value, len)
    ensures good <= v.entries[id]
    ensures var s, ixs := v.live.value.schema.value, v.entries[id]; var verdict := Judge(cfg, v.live.value, ixs, block);
      && !verdict.Ignored?
      && (verdict.Accepted? ==> verdict.schema == s)
      && (ReadBlock(block).Unreadable? ==> verdict == Malformed(map[]))
      && (ReadBlock(block).Parsed? ==>
            && (forall p :: 0 <= p < |good| ==> 0 <= good[p] && FitsAt(s, block, good[p]))
            && verdict.kids == RecordAll(cfg.depths, map[], ReadBlock(block).links, good))
  {
    hide ReadBlock, RecordAll, SchemaFor, FitsAt, ReadRootData;
    var s, ixs := v.live.value.schema.value, v.entries[id];
    len :| SchemaFor(cfg, s, len);
    assert !Lists(v.entries, id, 0);
    good := [];
    if ReadBlock(block).Parsed? {
      good := GoodPrefix(s, block, ixs);
      forall p | 0 <= p < |good| ensures 0 <= good[p] {
        assert good[p] == ixs[p];
        assert Lists(v.entries, id, ixs[p]);
      }
    }
  }

  lemma ConsumeShrinksFixed(cfg: Config, r: Link, v: RootView, id: Link, block: seq<Byte>)
    requires ValidConfig(cfg) && Indexed(cfg, r, v) && id in v.entries
    requires v.live.Some? && v.live.value.schema.Some?
    ensures Below(ConsumeView(cfg, v, id, block), v)
  {
    hide ReadBlock, RecordAll, SchemaFor, FitsAt, Judge, Weight, Merge, IndexWeight, Lists, Count;
    var rs, e := v.live.value, v.entries;
    var s := rs.schema.value;
    var good, len := JudgeFixed(cfg, r, v, id, block);
    NonEmptyAt(e, id);
    var verdict := Judge(cfg, rs, e[id], block);
    var rest := e - {id};
    if ReadBlock(block).Unreadable? {
      UnreadableShrinks(s, e, id, rs.allDescendants);
    } else {
      ReplaceShrinks(cfg, s, len, e, id, block, good, rs.allDescendants);
      OneIsLightest(s, Merge(rest - rs.allDescendants, verdict.kids));
      var merged := Merge(rest, verdict.kids);
      var ks := rs.allDescendants + verdict.kids.Keys;
      WeightRestrict(merged, ks, One);
      OneIsLightest(s, merged);
    }
  }

  lemma UnreadableShrinks(s: BlockSchema, e: Entries, id: Link, ks: set<Link>)
    requires id in e && e[id] != []
    ensures Weight(Merge((e - {id}) - ks, map[]), One) < Weight(e, IndexWeight(s))
  {
    RemoveShrinks(e, id, ks);
    MergeEmpty((e - {id}) - ks);
    OneIsLightest(s, e);
  }

  lemma ConsumeShrinksUnset(cfg: Config, r: Link, v: RootView, id: Link, block: seq<Byte>)
    requires ValidConfig(cfg) && Indexed(cfg, r, v) && id in v.entries
    requires v.live.None? || v.live.value.schema.None?
    ensures Below(ConsumeView(cfg, v, id, block), v)
  {
    hide ReadBlock, Judge, Weight, Merge, IndexWeight, Lists, Count;
    NonEmptyAt(v.entries, id);
    RemoveShrinks(v.entries, id, {});
  }

  /** Consuming a listed block strictly lowers the measure of the root. */
  lemma ConsumeShrinks(cfg: Config, r: Link, v: RootView, id: Link, block: seq<Byte>)
    requires ValidConfig(cfg) && Indexed(cfg, r, v)
    ensures id in v.entries ==> Below(ConsumeView(cfg, v, id, block), v)
    ensures id !in v.entries ==> ConsumeView(cfg, v, id, block) == v
  {
    hide Below, Judge, ReadBlock;
    if id in v.entries {
      if v.live.Some? && v.live.value.schema.Some? {
        ConsumeShrinksFixed(cfg, r, v, id, block);
      } else {
        ConsumeShrinksUnset(cfg, r, v, id, block);
      }
    }
  }

  // ----- the sanity invariant is kept by every action -----

  /** Children are never recorded at the root's index or below. */
  lemma KidsPositive(cfg: Config, s: BlockSchema, len: nat, block: seq<Byte>, good: seq<Index>, l: Link, j: Index)
    requires ValidConfig(cfg) && SchemaFor(cfg, s, len) && ReadBlock(block).Parsed?
    requires forall p :: 0 <= p < |good| ==> 0 <= good[p] && FitsAt(s, block, good[p])
    requires Lists(RecordAll(cfg.depths, map[], ReadBlock(block).links, good), l, j)
    ensures j > 0
  {
    hide MkSchema, WellFormed, FirstChildId, ReadBlock, RecordAll, FitsAt;
    var links := ReadBlock(block).links;
    RecordAllLists(cfg.depths, map[], links, good, l, j);
    var p :| 0 <= p < |good| && ChildOf(cfg.depths, links, good[p], l, j);
    FitsLinks(s, block, good[p]);
    TableGivesChildren(cfg, s, len, good[p]);
    LinksBeforeBounds(s, len, good[p]);
  }

  /** Whatever the verdict, the recorded children have positive indices and the schema is legal. */
  lemma VerdictSane(cfg: Config, r: Link, v: RootView, id: Link, block: seq<Byte>)
    requires ValidConfig(cfg) && Indexed(cfg, r, v) && id in v.entries && v.live.Some?
    ensures var verdict := Judge(cfg, v.live.value, v.entries[id], block);
      && (!verdict.Ignored? ==> forall l, j :: Lists(verdict.kids, l, j) ==> j > 0)
      && (verdict.Accepted? ==> exists len: nat :: SchemaFor(cfg, verdict.schema, len))
  {
    hide ReadBlock, RecordAll, SchemaFor, FitsAt, ReadRootData, WellFormed, FromBytes;
    var rs, ixs := v.live.value, v.entries[id];
    var verdict := Judge(cfg, rs, ixs, block);
    if !verdict.Ignored? && ReadBlock(block).Parsed? {
      var data, links := ReadBlock(block).data, ReadBlock(block).links;
      var schema := if 0 in ixs then ReadRootData(cfg, rs.tag, data) else rs.schema;
      if schema.Some? {
        var s := schema.value;
        var len: nat;
        if 0 in ixs {
          RootSchema(cfg, rs.tag, data, s);
          len := FromBytes(data[..4]) + 4;
        } else {
          len :| SchemaFor(cfg, s, len);
        }
        var good := GoodPrefix(s, block, ixs);
        forall p | 0 <= p < |good| ensures 0 <= good[p] {
          assert good[p] == ixs[p];
          assert Lists(v.entries, id, ixs[p]);
        }
        forall l, j | Lists(verdict.kids, l, j) ensures j > 0 {
          KidsPositive(cfg, s, len, block, good, l, j);
        }
      }
    }
  }

  lemma MergeSane(a: Entries, b: Entries, l: Link, j: Index, ks: set<Link>)
    ensures Lists(Merge(a, b), l, j) ==> Lists(a, l, j) || Lists(b, l, j)
    ensures Lists(Merge(a, b) - ks, l, j) ==> Lists(a, l, j) || Lists(b, l, j)
    ensures Lists(a - ks, l, j) ==> Lists(a, l, j) && l !in ks
  {}

  lemma IndexedConsume(cfg: Config, r: Link, m: Machine, a: Action)
    requires ValidConfig(cfg) && Indexed(cfg, r, m.view) && a.Consume? && a.id in m.view.entries && m.view.live.Some?
    ensures Indexed(cfg, r, Act(cfg, r, m, a).view)
  {
    hide ReadBlock, Judge, Merge, Count, Lists, NonEmpty, SchemaFor;
    var v, id := m.view, a.id;
    var v' := Act(cfg, r, m, a).view;
    var rs, e := v.live.value, v.entries;
    VerdictSane(cfg, r, v, id, a.block);
    NonEmptyStep(cfg, r, m, a);
    var verdict := Judge(cfg, rs, e[id], a.block);
    var kids: Entries := if verdict.Ignored? then map[] else verdict.kids;
    forall l, j | Lists(v'.entries, l, j)
      ensures j >= 0
      ensures j == 0 ==> l == r && v'.live.Some? && v'.live.value.schema.None?
    {
      MergeSane(e - {id}, kids, l, j, rs.allDescendants + kids.Keys);
      MergeSane((e - {id}) - rs.allDescendants, kids, l, j, {});
      MergeSane(e - {id}, kids, l, j, rs.allDescendants);
      MergeSane(e, kids, l, j, {id});
      IndexedKids(cfg, r, v, id, a.block, l, j);
    }
  }

  /** Where an index listed after the step comes from. */
  lemma IndexedKids(cfg: Config, r: Link, v: RootView, id: Link, block: seq<Byte>, l: Link, j: Index)
    requires ValidConfig(cfg) && Indexed(cfg, r, v) && id in v.entries && v.live.Some?
    requires var v' := ConsumeView(cfg, v, id, block); Lists(v'.entries, l, j)
    ensures var v' := ConsumeView(cfg, v, id, block);
      j >= 0 && (j == 0 ==> l == r && v'.live.Some? && v'.live.value.schema.None?)
  {
    hide ReadBlock, Judge, Merge, Count, NonEmpty, SchemaFor;
    var rs, e := v.live.value, v.entries;
    VerdictSane(cfg, r, v, id, block);
    var verdict := Judge(cfg, rs, e[id], block);
    if verdict.Ignored? {
      NeverRoot(cfg, r, v, id, block);
      assert Lists(e, l, j);
    } else {
      MergeSane(e - {id}, verdict.kids, l, j, rs.allDescendants + verdict.kids.Keys);
      MergeSane((e - {id}) - rs.allDescendants, verdict.kids, l, j, {});
      MergeSane(e - {id}, verdict.kids, l, j, rs.allDescendants);
      MergeSane(e, verdict.kids, l, j, {id});
      if j == 0 && Lists(e, l, 0) { NeverRoot(cfg, r, v, id, block); }
    }
  }

  /** An accepted block of a root without schema is its root block. */
  lemma NeverRoot(cfg: Config, r: Link, v: RootView, id: Link, block: seq<Byte>)
    requires ValidConfig(cfg) && Indexed(cfg, r, v) && id in v.entries && v.live.Some?
    ensures var verdict := Judge(cfg, v.live.value, v.entries[id], block);
      && (verdict.Accepted? && v.live.value.schema.None? ==> id == r)
      && (verdict.Ignored? ==> v.live.value.schema.None?)
  {
    hide ReadBlock, RecordAll, SchemaFor, FitsAt, ReadRootData, GoodPrefix;
    if 0 in v.entries[id] { assert Lists(v.entries, id, 0); }
  }

  lemma IndexedKick(cfg: Config, r: Link, m: Machine, a: Action)
    requires ValidConfig(cfg) && Indexed(cfg, r, m.view) && a.Kick?
    ensures Indexed(cfg, r, Act(cfg, r, m, a).view)
  {
    hide Count, SchemaFor;
    NonEmptyStep(cfg, r, m, a);
    var e, v' := m.view.entries, Act(cfg, r, m, a).view;
    forall l, j | Lists(v'.entries, l, j)
      ensures j >= 0
      ensures j == 0 ==> l == r && v'.live.Some? && v'.live.value.schema.None?
    {
      assert Lists(e, l, j) || (l == r && j == 0);
    }
  }

  lemma IndexedShrink(cfg: Config, r: Link, v: RootView, v': RootView, ks: set<Link>)
    requires cfg.maxBlockSize > 2 + LINK_SIZE && Indexed(cfg, r, v)
    requires v'.entries == v.entries - ks && (v'.live == v.live || (v'.live.None? && r in ks))
    ensures Indexed(cfg, r, v')
  {
    hide SchemaFor;
    forall l, j | Lists(v'.entries, l, j)
      ensures j >= 0
      ensures j == 0 ==> l == r && v'.live.Some? && v'.live.value.schema.None?
    {
      assert Lists(v.entries, l, j);
    }
  }

  lemma IndexedStep(cfg: Config, r: Link, m: Machine, a: Action)
    requires ValidConfig(cfg) && Indexed(cfg, r, m.view)
    ensures Indexed(cfg, r, Act(cfg, r, m, a).view)
  {
    hide ReadBlock, Judge, Merge, Count, Indexed;
    var v, v' := m.view, Act(cfg, r, m, a).view;
    match a {
      case Kick(_, _, _, _) => IndexedKick(cfg, r, m, a);
      case Expire(root) =>
        if root == r && v.live.Some? {
          LiveRootIsDescendant(cfg, r, v);
          IndexedShrink(cfg, r, v, v', v.live.value.allDescendants);
        }
      case Consume(id, _) =>
        if id in v.entries {
          if v.live.Some? { IndexedConsume(cfg, r, m, a); } else { IndexedShrink(cfg, r, v, v', {id}); }
        }
    }
  }

  lemma LiveRootIsDescendant(cfg: Config, r: Link, v: RootView)
    requires cfg.maxBlockSize > 2 + LINK_SIZE && Indexed(cfg, r, v) && v.live.Some?
    ensures r in v.live.value.allDescendants
  {}
}
