/** Safety of the download of one root over every run: the bookkeeping invariant, when exactly a
    step keeps it, and what a root's status Full means. */
module DownloadSafety {
  import opened Options
  import opened LittleEndian
  import opened Schema
  import opened DepthIndices
  import opened BlockCodec
  import opened BreadthFirst
  import opened BlockTree
  import opened Weights
  import opened RootMachine
  import opened TreeGrowth

  /** The root block is in the store and announces, with the right tag, a blob of shape `s`. */
  ghost predicate RootRead(cfg: Config, store: Blocks, r: Link, tag: Byte, s: BlockSchema)
    requires cfg.maxBlockSize > 2 + LINK_SIZE
  {
    && r in store
    && ReadBlock(store[r]).Parsed?
    && ReadRootData(cfg, tag, ReadBlock(store[r]).data) == Some(s)
  }

  /** Every block of the tree under `r` is in the store. */
  ghost predicate Downloaded(cfg: Config, store: Blocks, r: Link, tag: Byte)
    requires cfg.maxBlockSize > 2 + LINK_SIZE
  {
    exists s, tree ::
      RootRead(cfg, store, r, tag, s) && IsBlockTree(store, s, tree) && |tree| > 0 && tree[0] == r
  }

  ghost predicate Growing(cfg: Config, store: Blocks, r: Link, tag: Byte, s: BlockSchema, e: Entries)
    requires cfg.maxBlockSize > 2 + LINK_SIZE
  {
    && RootRead(cfg, store, r, tag, s)
    && (forall l :: !Lists(e, l, 0))
    && exists visited, tree :: Grown(store, s, r, e, visited, tree)
  }

  /** The bookkeeping of one root: nothing is listed for a root that is not live; a live root's
      counter is the number of its listed indices, all of them under its descendants, and these
      indices are exactly what its tree still lacks. */
  ghost predicate RootInv(cfg: Config, r: Link, m: Machine)
    requires cfg.maxBlockSize > 2 + LINK_SIZE
  {
    match m.view.live
    case None => m.view.entries == map[]
    case Some(rs) =>
      && m.view.status == Some(Partial)
      && rs.remainingNodeCounter == Count(m.view.entries)
      && rs.remainingNodeCounter > 0
      && m.view.entries.Keys <= rs.allDescendants
      && match rs.schema
         case None => m.view.entries == map[r := [0]]
         case Some(s) => Growing(cfg, m.store, r, rs.tag, s, m.view.entries)
  }

  /** The store holds one byte string per link. */
  predicate Consistent(m: Machine, a: Action) {
    a.Consume? && a.id in m.store ==> m.store[a.id] == a.block
  }

  /** A kick-start finds no live state to replace. */
  predicate KickFindsNoLiveState(r: Link, m: Machine, a: Action) {
    a.Kick? && a.root == r && !a.blocked && r !in m.view.entries ==> m.view.live.None?
  }

  /** No block fits this root, with links, at its first index and then fails to at a later one. */
  predicate NoLateMismatch(cfg: Config, m: Machine, a: Action)
    requires cfg.maxBlockSize > 2 + LINK_SIZE
  {
    a.Consume? && m.view.live.Some? && a.id in m.view.entries ==>
      !LateMismatch(cfg, m.view.live.value, m.view.entries[a.id], a.block)
  }

  predicate Permitted(cfg: Config, r: Link, m: Machine, a: Action)
    requires cfg.maxBlockSize > 2 + LINK_SIZE
  {
    Consistent(m, a) && KickFindsNoLiveState(r, m, a) && NoLateMismatch(cfg, m, a)
  }

  // ----- counting -----

  lemma CountAfter(e: Entries, id: Link, kids: Entries)
    requires id in e
    ensures Count(Merge(e - {id}, kids)) == Count(e) - |e[id]| + Count(kids)
    ensures Count(e - {id}) == Count(e) - |e[id]|
  {
    WeightRemove(e, id, One);
    SeqWeightOne(e[id]);
    WeightMerge(e - {id}, kids, One);
  }

  lemma CountSingle(r: Link)
    ensures Count(map[r := [0]]) == 1
  {
    var m: Entries := map[r := [0]];
    WeightRemove(m, r, One);
    SeqWeightOne([0]);
    assert m - {r} == map[];
    EmptyWeight(One);
  }

  lemma NothingListed(e: Entries)
    requires Count(e) == 0
    ensures forall l, j :: !Lists(e, l, j)
  {
    CountZero(e);
  }

  // ----- schemas -----

  lemma RootSchema(cfg: Config, tag: Byte, data: seq<Byte>, s: BlockSchema)
    requires ValidConfig(cfg) && ReadRootData(cfg, tag, data) == Some(s)
    ensures |data| >= 5 && data[4] == tag
    ensures tag in cfg.maxSizes && FromBytes(data[..4]) - 1 <= cfg.maxSizes[tag]
    ensures SchemaFor(cfg, s, FromBytes(data[..4]) + 4)
    ensures WellFormed(s, FromBytes(data[..4]) + 4)
  {
    hide MkSchema, WellFormed;
    SchemaWellFormed(cfg.maxBlockSize, FromBytes(data[..4]) + 4);
  }

  lemma KidsAreRecorded(cfg: Config, s: BlockSchema, len: nat, block: seq<Byte>, ixs: seq<Index>)
    requires ValidConfig(cfg) && SchemaFor(cfg, s, len) && ReadBlock(block).Parsed?
    requires forall p :: 0 <= p < |ixs| ==> 0 <= ixs[p] && FitsAt(s, block, ixs[p])
    ensures var links := ReadBlock(block).links;
      Recorded(cfg.depths, s, ixs, links, RecordAll(cfg.depths, map[], links, ixs))
  {
    hide ReadBlock, RecordAll, MkSchema, Child, FirstChildId;
    forall p | 0 <= p < |ixs| && ReadBlock(block).links != []
      ensures FirstChildId(cfg.depths, ixs[p]) == Child(s, ixs[p], 0)
    {
      TableGivesChildren(cfg, s, len, ixs[p]);
    }
  }

  // ----- growth, for a root whose block is accepted -----

  /** The tree before anything but its root is known. */
  function Blank(s: BlockSchema, r: Link): seq<Link> {
    if s.numTotalBlocks < 0 then [] else seq<Link>(s.numTotalBlocks, _ => r)
  }

  lemma GrownStart(store: Blocks, s: BlockSchema, len: nat, r: Link)
    requires WellFormed(s, len)
    ensures Grown(store, s, r, map[r := [0]], {}, Blank(s, r))
  {
    hide WellFormed, ReadBlock;
    AtLeastOneBlock(s, len);
    var e: Entries, tree := map[r := [0]], Blank(s, r);
    assert Lists(e, r, 0);
    forall l, j | Lists(e, l, j) ensures KnownAt(s, {}, tree, j) && tree[j] == l {}
  }

  lemma AcceptedGrows(cfg: Config, store: Blocks, r: Link, tag: Byte, s: BlockSchema, e: Entries,
                      visited: set<Index>, tree: seq<Link>, id: Link, block: seq<Byte>, kids: Entries)
    requires ValidConfig(cfg)
    requires Grown(store, s, r, e, visited, tree)
    requires id in store ==> store[id] == block
    requires RootRead(cfg, store[id := block], r, tag, s)
    requires id in e && ReadBlock(block).Parsed? && GoodPrefix(s, block, e[id]) == e[id]
    requires kids == RecordAll(cfg.depths, map[], ReadBlock(block).links, e[id])
    requires forall l :: l != id ==> !Lists(e, l, 0)
    ensures Growing(cfg, store[id := block], r, tag, s, Merge(e - {id}, kids))
  {
    hide ReadBlock, Child, FirstChildId, WellFormed, RecordAll, Merge, ReadRootData, FitsAt, SchemaFor, Recorded,
      FromBytes, Grown, Consumes, GoodPrefix;
    var data := ReadBlock(store[id := block][r]).data;
    RootSchema(cfg, tag, data, s);
    var len := FromBytes(data[..4]) + 4;
    FitsEverywhere(store, s, len, r, e, visited, tree, id, block);
    KidsAreRecorded(cfg, s, len, block, e[id]);
    GrowStep(store, s, len, r, e, visited, tree, cfg.depths, id, block, kids);
    forall l ensures !Lists(Merge(e - {id}, kids), l, 0) {
      MergeLists(e - {id}, kids, l, 0);
      assert Lists(e - {id}, l, 0) ==> Lists(e, l, 0);
    }
  }

  lemma FitsEverywhere(store: Blocks, s: BlockSchema, len: nat, r: Link, e: Entries,
                       visited: set<Index>, tree: seq<Link>, id: Link, block: seq<Byte>)
    requires WellFormed(s, len) && Grown(store, s, r, e, visited, tree)
    requires id in e && ReadBlock(block).Parsed? && GoodPrefix(s, block, e[id]) == e[id]
    ensures Consumes(s, len, e, tree, id, block)
    ensures forall p :: 0 <= p < |e[id]| ==> 0 <= e[id][p] && FitsAt(s, block, e[id][p])
  {
    hide ReadBlock, WellFormed, FitsAt, NodeAt, KnownAt, ReachedAt, Child;
    forall p | 0 <= p < |e[id]|
      ensures 0 <= e[id][p] < |tree| && tree[e[id][p]] == id && FitsAt(s, block, e[id][p])
    {
      assert Lists(e, id, e[id][p]);
      KnownRange(s, visited, tree, e[id][p]);
    }
  }

  lemma GrowingInLargerStore(cfg: Config, store: Blocks, r: Link, tag: Byte, s: BlockSchema, e: Entries, id: Link,
                             block: seq<Byte>)
    requires cfg.maxBlockSize > 2 + LINK_SIZE
    requires Growing(cfg, store, r, tag, s, e) && (id in store ==> store[id] == block)
    ensures Growing(cfg, store[id := block], r, tag, s, e)
  {
    hide ReadBlock, ReadRootData, Grown;
    var visited, tree :| Grown(store, s, r, e, visited, tree);
    GrownInLargerStore(store, s, r, e, visited, tree, id, block);
  }

  lemma JudgeAccepted(cfg: Config, rs: RootState, ixs: seq<Index>, block: seq<Byte>)
    requires cfg.maxBlockSize > 2 + LINK_SIZE && Judge(cfg, rs, ixs, block).Accepted?
    ensures var verdict := Judge(cfg, rs, ixs, block);
      && ReadBlock(block).Parsed?
      && (0 in ixs ==> ReadRootData(cfg, rs.tag, ReadBlock(block).data) == Some(verdict.schema))
      && (0 !in ixs ==> rs.schema == Some(verdict.schema))
      && GoodPrefix(verdict.schema, block, ixs) == ixs
      && verdict.kids == RecordAll(cfg.depths, map[], ReadBlock(block).links, ixs)
  {
    hide ReadBlock, RecordAll, ReadRootData, GoodPrefix;
  }

  /** Accepting a block keeps the tree of a live root growing as the bookkeeping says. */
  lemma AcceptedKeepsGrowing(cfg: Config, r: Link, m: Machine, id: Link, block: seq<Byte>)
    requires ValidConfig(cfg) && RootInv(cfg, r, m)
    requires id in m.store ==> m.store[id] == block
    requires m.view.live.Some? && id in m.view.entries
    requires Judge(cfg, m.view.live.value, m.view.entries[id], block).Accepted?
    ensures var verdict := Judge(cfg, m.view.live.value, m.view.entries[id], block);
      Growing(cfg, m.store[id := block], r, m.view.live.value.tag, verdict.schema,
              Merge(m.view.entries - {id}, verdict.kids))
  {
    hide ReadBlock, RecordAll, Merge, Growing, Grown, Count, WellFormed, FitsAt, Judge, ReadRootData, FromBytes,
      SchemaFor;
    var rs, e, store := m.view.live.value, m.view.entries, m.store;
    var verdict := Judge(cfg, rs, e[id], block);
    JudgeAccepted(cfg, rs, e[id], block);
    match rs.schema {
      case None =>
        assert id == r && e[id] == [0] && 0 in e[id];
        var s := verdict.schema;
        RootSchema(cfg, rs.tag, ReadBlock(block).data, s);
        GrownStart(store, s, FromBytes(ReadBlock(block).data[..4]) + 4, r);
        AcceptedGrows(cfg, store, r, rs.tag, s, e, {}, Blank(s, r), id, block, verdict.kids);
      case Some(s) =>
        var visited, tree := TreeSoFar(cfg, store, r, rs.tag, s, e, id, block);
        assert !Lists(e, id, 0);
        AcceptedGrows(cfg, store, r, rs.tag, s, e, visited, tree, id, block, verdict.kids);
    }
  }

  lemma TreeSoFar(cfg: Config, store: Blocks, r: Link, tag: Byte, s: BlockSchema, e: Entries, id: Link,
                  block: seq<Byte>)
    returns (visited: set<Index>, tree: seq<Link>)
    requires cfg.maxBlockSize > 2 + LINK_SIZE
    requires Growing(cfg, store, r, tag, s, e) && (id in store ==> store[id] == block)
    ensures Grown(store, s, r, e, visited, tree)
    ensures RootRead(cfg, store[id := block], r, tag, s)
    ensures forall l :: !Lists(e, l, 0)
  {
    hide ReadBlock, ReadRootData, Grown;
    visited, tree :| Grown(store, s, r, e, visited, tree);
  }

  /** A root awaiting nothing has its whole tree in the store. */
  lemma GrownToTheEnd(cfg: Config, store: Blocks, r: Link, tag: Byte, s: BlockSchema, e: Entries)
    requires ValidConfig(cfg) && Growing(cfg, store, r, tag, s, e) && Count(e) == 0
    ensures Downloaded(cfg, store, r, tag)
  {
    hide ReadBlock, ReadRootData, Grown, WellFormed, SchemaFor, Count, FromBytes, Lists;
    var data := ReadBlock(store[r]).data;
    RootSchema(cfg, tag, data, s);
    NothingListed(e);
    var visited, tree :| Grown(store, s, r, e, visited, tree);
    FullyGrown(store, s, FromBytes(data[..4]) + 4, r, e, visited, tree);
  }

  // ----- one action -----

  /** The action makes the root Full only when its whole tree is in the store. */
  ghost predicate FullMeansDownloaded(cfg: Config, r: Link, m: Machine, m': Machine)
    requires cfg.maxBlockSize > 2 + LINK_SIZE
  {
    m'.view.status == Some(Full) && m.view.status != Some(Full) ==>
      m.view.live.Some? && Downloaded(cfg, m'.store, r, m.view.live.value.tag)
  }

  lemma MergeKeys(a: Entries, b: Entries, keys: set<Link>)
    requires a.Keys + b.Keys <= keys
    ensures Merge(a, b) - keys == map[]
  {}

  /** An accepted block: the counter follows the entries, and Full is reached when it is zero. */
  lemma AcceptedStep(cfg: Config, r: Link, m: Machine, id: Link, block: seq<Byte>)
    requires ValidConfig(cfg) && RootInv(cfg, r, m)
    requires id in m.store ==> m.store[id] == block
    requires m.view.live.Some? && id in m.view.entries
    requires Judge(cfg, m.view.live.value, m.view.entries[id], block).Accepted?
    ensures var m' := Act(cfg, r, m, Consume(id, block)); RootInv(cfg, r, m') && FullMeansDownloaded(cfg, r, m, m')
  {
    hide ReadBlock, Judge, Merge, Growing, Count, Downloaded;
    var rs, e := m.view.live.value, m.view.entries;
    var verdict := Judge(cfg, rs, e[id], block);
    AcceptedKeepsGrowing(cfg, r, m, id, block);
    CountAfter(e, id, verdict.kids);
    var e', store' := Merge(e - {id}, verdict.kids), m.store[id := block];
    MergeKeys(e - {id}, verdict.kids, rs.allDescendants + verdict.kids.Keys);
    MergedKeys(e - {id}, verdict.kids);
    if Count(e') == 0 {
      GrownToTheEnd(cfg, store', r, rs.tag, verdict.schema, e');
    }
  }

  lemma MergedKeys(a: Entries, b: Entries)
    ensures Merge(a, b).Keys == a.Keys + b.Keys
  {}

  lemma NeverIgnored(cfg: Config, r: Link, m: Machine, id: Link, block: seq<Byte>)
    requires cfg.maxBlockSize > 2 + LINK_SIZE && RootInv(cfg, r, m)
    requires m.view.live.Some? && id in m.view.entries
    ensures !Judge(cfg, m.view.live.value, m.view.entries[id], block).Ignored?
  {
    hide ReadBlock, Growing, Count, GoodPrefix, RecordAll, ReadRootData;
    if m.view.live.value.schema.None? {
      assert m.view.entries[id] == [0] && 0 in m.view.entries[id];
    }
  }

  /** A malformed block: the root is dropped, and what remains listed for it are exactly the
      children recorded before the mismatch. */
  lemma MalformedStep(cfg: Config, r: Link, m: Machine, id: Link, block: seq<Byte>)
    requires cfg.maxBlockSize > 2 + LINK_SIZE && RootInv(cfg, r, m)
    requires m.view.live.Some? && id in m.view.entries
    requires Judge(cfg, m.view.live.value, m.view.entries[id], block).Malformed?
    ensures var m' := Act(cfg, r, m, Consume(id, block));
      && m'.view.live.None?
      && m'.view.entries == Judge(cfg, m.view.live.value, m.view.entries[id], block).kids
      && m'.view.status == m.view.status
  {
    hide ReadBlock, Growing, Count, Judge;
    var rs, e := m.view.live.value, m.view.entries;
    var kids := Judge(cfg, rs, e[id], block).kids;
    assert (e - {id}) - rs.allDescendants == map[];
    forall l | l in kids ensures Merge(map[], kids)[l] == kids[l] {
      assert [] + kids[l] == kids[l];
    }
    assert Merge(map[], kids) == kids;
  }

  /** Consuming a block keeps the bookkeeping exactly when the block is no late mismatch. */
  lemma ConsumeKeepsExactly(cfg: Config, r: Link, m: Machine, id: Link, block: seq<Byte>)
    requires ValidConfig(cfg) && RootInv(cfg, r, m) && Consistent(m, Consume(id, block))
    ensures RootInv(cfg, r, Act(cfg, r, m, Consume(id, block))) <==> NoLateMismatch(cfg, m, Consume(id, block))
    ensures FullMeansDownloaded(cfg, r, m, Act(cfg, r, m, Consume(id, block)))
  {
    hide ReadBlock, Growing, Count, Judge, Downloaded, Merge, LateMismatch, RecordsChildren;
    if m.view.live.Some? {
      var rs, e := m.view.live.value, m.view.entries;
      if id !in e {
        if rs.schema.Some? {
          GrowingInLargerStore(cfg, m.store, r, rs.tag, rs.schema.value, e, id, block);
        }
      } else {
        NeverIgnored(cfg, r, m, id, block);
        KidsExactly(cfg, rs, e[id], block);
        if Judge(cfg, rs, e[id], block).Accepted? {
          AcceptedStep(cfg, r, m, id, block);
        } else {
          MalformedStep(cfg, r, m, id, block);
        }
      }
    }
  }

  /** A kick-start keeps the bookkeeping exactly when it finds no live state to replace. */
  lemma KickKeepsExactly(cfg: Config, r: Link, m: Machine, a: Action)
    requires ValidConfig(cfg) && RootInv(cfg, r, m) && a.Kick?
    ensures RootInv(cfg, r, Act(cfg, r, m, a)) <==> KickFindsNoLiveState(r, m, a)
    ensures FullMeansDownloaded(cfg, r, m, Act(cfg, r, m, a))
  {
    hide ReadBlock, Growing, Count, Downloaded;
    var e := m.view.entries;
    CountSingle(r);
    if a.root == r && !a.blocked && r !in e {
      if m.view.live.Some? {
        CountPositive(e);
        var l :| l in e;
        assert l in e[r := [0]] && l != r;
        assert a.failed ==> l in e[r := [0]] - {r};
      } else {
        assert map[r := [0]] - {r} == map[];
        assert e[r := [0]] == map[r := [0]];
      }
    }
  }

  lemma ExpireKeeps(cfg: Config, r: Link, m: Machine, a: Action)
    requires ValidConfig(cfg) && RootInv(cfg, r, m) && a.Expire?
    ensures RootInv(cfg, r, Act(cfg, r, m, a))
    ensures Act(cfg, r, m, a).view.status == m.view.status
    ensures a.root == r ==> Act(cfg, r, m, a).view.live.None? && Act(cfg, r, m, a).view.entries == map[]
    ensures a.root != r ==> Act(cfg, r, m, a) == m
  {
    hide ReadBlock, Growing, Count;
    if m.view.live.Some? { assert m.view.entries - m.view.live.value.allDescendants == map[]; }
  }

  /** A kick-start whose request failed leaves the root idle, so that it can be asked for again. */
  lemma FailedKickLeavesNothing(cfg: Config, r: Link, m: Machine, tag: Byte)
    requires ValidConfig(cfg) && RootInv(cfg, r, m)
    requires m.view.live.None? && StatusTransitionAllowed(m.view.status, Partial)
    ensures var v := Act(cfg, r, m, Kick(r, tag, false, true)).view;
      && v.live.None? && v.entries == map[] && StatusTransitionAllowed(v.status, Partial)
      && v.added == m.view.added && v.broken == m.view.broken
  {
    assert map[r := [0]] - {r} == map[];
  }

  /** A root that is Full already is reported once more, and nothing is downloaded. */
  lemma FullRootIsReported(cfg: Config, r: Link, m: Machine, tag: Byte, failed: bool)
    requires cfg.maxBlockSize > 2 + LINK_SIZE && m.view.status == Some(Full) && r !in m.view.entries
    ensures Act(cfg, r, m, Kick(r, tag, false, failed)) == m.(view := m.view.(added := m.view.added + 1))
  {}

  /** A started download awaits exactly its root block. */
  lemma KickAwaitsRoot(cfg: Config, r: Link, m: Machine, tag: Byte)
    requires cfg.maxBlockSize > 2 + LINK_SIZE && m.view.live.None? && m.view.entries == map[]
    requires StatusTransitionAllowed(m.view.status, Partial)
    ensures var v := Act(cfg, r, m, Kick(r, tag, false, false)).view;
      && v.live.Some? && v.live.value.tag == tag && v.live.value.schema.None?
      && v.status == Some(Partial) && forall l, j :: Lists(v.entries, l, j) <==> l == r && j == 0
  {}

  lemma StepKeeps(cfg: Config, r: Link, m: Machine, a: Action)
    requires ValidConfig(cfg) && RootInv(cfg, r, m) && Permitted(cfg, r, m, a)
    ensures RootInv(cfg, r, Act(cfg, r, m, a))
    ensures FullMeansDownloaded(cfg, r, m, Act(cfg, r, m, a))
  {
    hide RootInv, Act, NoLateMismatch, KickFindsNoLiveState, Downloaded;
    match a
    case Kick(_, _, _, _) => KickKeepsExactly(cfg, r, m, a);
    case Consume(id, block) => ConsumeKeepsExactly(cfg, r, m, id, block);
    case Expire(_) => ExpireKeeps(cfg, r, m, a);
  }

  // ----- whole runs -----

  ghost predicate PermittedRun(cfg: Config, r: Link, m: Machine, acts: seq<Action>)
    requires cfg.maxBlockSize > 2 + LINK_SIZE
  {
    forall i :: 0 <= i < |acts| ==> Permitted(cfg, r, Run(cfg, r, m, acts[..i]), acts[i])
  }

  /** Some kick-start of the run asked for `r` with `tag`. */
  ghost predicate Requested(acts: seq<Action>, r: Link, tag: Byte) {
    exists i :: 0 <= i < |acts| && acts[i].Kick? && acts[i].root == r && acts[i].tag == tag
  }

  ghost predicate FullIsRequestedAndDownloaded(cfg: Config, r: Link, m: Machine, acts: seq<Action>)
    requires cfg.maxBlockSize > 2 + LINK_SIZE
  {
    && (m.view.live.Some? ==> Requested(acts, r, m.view.live.value.tag))
    && (m.view.status == Some(Full) ==>
          exists tag :: Requested(acts, r, tag) && Downloaded(cfg, m.store, r, tag))
  }

  lemma DownloadedInLargerStore(cfg: Config, store: Blocks, r: Link, tag: Byte, id: Link, block: seq<Byte>)
    requires cfg.maxBlockSize > 2 + LINK_SIZE
    requires Downloaded(cfg, store, r, tag) && (id in store ==> store[id] == block)
    ensures Downloaded(cfg, store[id := block], r, tag)
  {
    hide ReadBlock, ReadRootData, Child;
    var s, tree :| RootRead(cfg, store, r, tag, s) && IsBlockTree(store, s, tree) && |tree| > 0 && tree[0] == r;
    var store' := store[id := block];
    forall i | 0 <= i < |tree| ensures NodeAt(store', s, tree, i) {
      assert NodeAt(store, s, tree, i);
    }
    assert IsBlockTree(store', s, tree);
  }

  lemma RequestedGrows(acts: seq<Action>, r: Link, tag: Byte)
    requires acts != []
    ensures Requested(acts[..|acts| - 1], r, tag) ==> Requested(acts, r, tag)
    ensures acts[|acts| - 1].Kick? && acts[|acts| - 1].root == r ==> Requested(acts, r, acts[|acts| - 1].tag)
  {
    var init := acts[..|acts| - 1];
    if Requested(init, r, tag) {
      var i :| 0 <= i < |init| && init[i].Kick? && init[i].root == r && init[i].tag == tag;
      assert acts[i].tag == tag;
    }
  }

  /** Which tag a live root carries after an action. */
  lemma LiveTag(cfg: Config, r: Link, m: Machine, a: Action)
    requires cfg.maxBlockSize > 2 + LINK_SIZE
    ensures var m' := Act(cfg, r, m, a);
      m'.view.live.Some? ==>
        || (m.view.live.Some? && m'.view.live.value.tag == m.view.live.value.tag)
        || (a.Kick? && a.root == r && m'.view.live.value.tag == a.tag)
  {
    hide ReadBlock, Judge, Merge, Count;
  }

  lemma {:induction false} RunIsSafe(cfg: Config, r: Link, m: Machine, acts: seq<Action>)
    requires ValidConfig(cfg)
    requires m.view.live.None? && m.view.entries == map[] && m.view.status != Some(Full)
    requires PermittedRun(cfg, r, m, acts)
    ensures RootInv(cfg, r, Run(cfg, r, m, acts))
    ensures FullIsRequestedAndDownloaded(cfg, r, Run(cfg, r, m, acts), acts)
  {
    hide Act, Downloaded, Requested, Permitted;
    if acts != [] {
      var init, a := acts[..|acts| - 1], acts[|acts| - 1];
      forall i | 0 <= i < |init| ensures Permitted(cfg, r, Run(cfg, r, m, init[..i]), init[i]) {
        assert init[..i] == acts[..i];
      }
      RunIsSafe(cfg, r, m, init);
      var before, after := Run(cfg, r, m, init), Run(cfg, r, m, acts);
      assert init == acts[..|init|];
      StepKeeps(cfg, r, before, a);
      PermittedIsConsistent(cfg, r, before, a);
      SafeStep(cfg, r, before, acts);
    }
  }

  lemma PermittedIsConsistent(cfg: Config, r: Link, m: Machine, a: Action)
    requires cfg.maxBlockSize > 2 + LINK_SIZE && Permitted(cfg, r, m, a)
    ensures Consistent(m, a)
  {}

  lemma SafeStep(cfg: Config, r: Link, m: Machine, acts: seq<Action>)
    requires cfg.maxBlockSize > 2 + LINK_SIZE && acts != []
    requires var a := acts[|acts| - 1];
      Consistent(m, a) && FullMeansDownloaded(cfg, r, m, Act(cfg, r, m, a))
    requires FullIsRequestedAndDownloaded(cfg, r, m, acts[..|acts| - 1])
    ensures FullIsRequestedAndDownloaded(cfg, r, Act(cfg, r, m, acts[|acts| - 1]), acts)
  {
    hide Downloaded, Requested, KickFindsNoLiveState, NoLateMismatch, ConsumeView, KickView, Clear;
    var init, a := acts[..|acts| - 1], acts[|acts| - 1];
    var m' := Act(cfg, r, m, a);
    LiveTag(cfg, r, m, a);
    if m.view.live.Some? { RequestedGrows(acts, r, m.view.live.value.tag); }
    RequestedGrows(acts, r, 0);
    if m'.view.status == Some(Full) && m.view.status == Some(Full) {
      var tag :| Requested(init, r, tag) && Downloaded(cfg, m.store, r, tag);
      RequestedGrows(acts, r, tag);
      if a.Consume? { DownloadedInLargerStore(cfg, m.store, r, tag, a.id, a.block); }
    }
  }

  // ----- what Downloaded is worth: joining the tree -----

  /** The downloaded tree, taken alone out of the store, joins to a blob that starts with its own
      length and the requested tag, has exactly the announced number of bytes, and is within the
      limit configured for that tag. */
  lemma DownloadedJoins(cfg: Config, store: Blocks, r: Link, tag: Byte) returns (tree: seq<Link>)
    requires ValidConfig(cfg) && Downloaded(cfg, store, r, tag)
    ensures var blocks := Restrict(store, tree);
      && Ranked(Kids(blocks), TreeRank(tree))
      && CompleteTree(blocks, r, tree)
      && var blob := AllData(blocks, tree);
         && |blob| >= 5
         && |blob| == FromBytes(blob[..4]) + 4
         && blob[4] == tag
         && tag in cfg.maxSizes && |blob| - 5 <= cfg.maxSizes[tag]
  {
    hide ReadBlock, ReadRootData, WellFormed, FromBytes, NodeAt, Child, Listing, Ranked, Kids, TreeRank, SchemaFor;
    var s;
    s, tree :| RootRead(cfg, store, r, tag, s) && IsBlockTree(store, s, tree) && |tree| > 0 && tree[0] == r;
    var data := ReadBlock(store[r]).data;
    RootSchema(cfg, tag, data, s);
    var len := FromBytes(data[..4]) + 4;
    var blocks := Restrict(store, tree);
    RestrictIsTree(store, s, tree);
    TreeIsRanked(blocks, s, len, tree);
    TreeIsComplete(blocks, s, len, tree);
    TreeDataLength(blocks, s, len, tree, |tree|);
    OffsetTotal(s, len);
    assert tree[..|tree|] == tree;
    DataStartsWithRoot(blocks, tree);
    var blob := AllData(blocks, tree);
    assert DataOf(blocks, r) == data;
    assert blob[..4] == data[..4];
  }

  /** Soundness: over every permitted run of kick-starts, block arrivals and deadlines, a root that
      the downloader has set Full was requested with some tag, and its tree, all of it in the
      store, joins to a blob of the announced length carrying that tag. */
  lemma Soundness(cfg: Config, r: Link, m: Machine, acts: seq<Action>) returns (tag: Byte, tree: seq<Link>)
    requires ValidConfig(cfg)
    requires m.view.live.None? && m.view.entries == map[] && m.view.status != Some(Full)
    requires PermittedRun(cfg, r, m, acts)
    requires Run(cfg, r, m, acts).view.status == Some(Full)
    ensures Requested(acts, r, tag)
    ensures var blocks := Restrict(Run(cfg, r, m, acts).store, tree);
      && Ranked(Kids(blocks), TreeRank(tree))
      && CompleteTree(blocks, r, tree)
      && var blob := AllData(blocks, tree);
         && |blob| >= 5 && |blob| == FromBytes(blob[..4]) + 4 && blob[4] == tag
         && tag in cfg.maxSizes && |blob| - 5 <= cfg.maxSizes[tag]
  {
    hide Run, PermittedRun, Requested, Downloaded, Listing, Ranked, FromBytes, RootInv;
    RunIsSafe(cfg, r, m, acts);
    tag :| Requested(acts, r, tag) && Downloaded(cfg, Run(cfg, r, m, acts).store, r, tag);
    tree := DownloadedJoins(cfg, Run(cfg, r, m, acts).store, r, tag);
  }
}
