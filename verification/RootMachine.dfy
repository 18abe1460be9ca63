/** What the downloader does for ONE root. Every operation of the downloader treats the roots
    independently, so its whole behaviour is the product of these machines over one block store. */
module RootMachine {
  import opened Options
  import opened LittleEndian
  import opened Schema
  import opened TreeDepth
  import opened DepthIndices
  import opened BlockCodec
  import opened BlockTree
  import opened Weights

  datatype Status = Partial | Full | Deleting

  /** Whether the status database accepts the change from `prev` (None: no record) to `next`. */
  predicate StatusTransitionAllowed(prev: Option<Status>, next: Status) {
    match next
    case Partial => prev.None? || prev.value.Partial?
    case Full => prev.None? || !prev.value.Deleting?
    case Deleting => prev.Some?
  }

  /** A record only ever moves up. */
  function Rank(s: Status): (n: nat) {
    match s
    case Partial => 0
    case Full => 1
    case Deleting => 2
  }

  /** The record after a series of changes was tried on it. */
  function StatusAfter(prev: Option<Status>, tried: seq<Status>): (s: Option<Status>) {
    if tried == [] then prev
    else
      var before := StatusAfter(prev, tried[..|tried| - 1]);
      var next := tried[|tried| - 1];
      if StatusTransitionAllowed(before, next) then Some(next) else before
  }

  /** No record is made for deletion only; a record, once there, is the highest status tried since. */
  lemma {:induction false} StatusIsHighest(prev: Option<Status>, tried: seq<Status>)
    ensures StatusAfter(prev, tried).None? <==> prev.None? && forall i :: 0 <= i < |tried| ==> tried[i].Deleting?
    ensures prev.Some? ==> var s := StatusAfter(prev, tried).value;
      && Rank(prev.value) <= Rank(s) && (forall i :: 0 <= i < |tried| ==> Rank(tried[i]) <= Rank(s))
      && (s == prev.value || s in tried)
  {
    if tried != [] {
      var n := |tried| - 1;
      StatusIsHighest(prev, tried[..n]);
      assert tried == tried[..n] + [tried[n]];
    }
  }

  /** The first status but Deleting makes the record. */
  lemma FirstStatus(tried: seq<Status>, next: Status, more: seq<Status>)
    requires (forall i :: 0 <= i < |tried| ==> tried[i].Deleting?) && !next.Deleting?
    ensures StatusAfter(None, tried + [next] + more) == StatusAfter(Some(next), more)
  {
    StatusIsHighest(None, tried);
    assert (tried + [next])[..|tried|] == tried;
    StatusConcat(None, tried + [next], more);
  }

  lemma {:induction false} StatusConcat(prev: Option<Status>, a: seq<Status>, b: seq<Status>)
    ensures StatusAfter(prev, a + b) == StatusAfter(StatusAfter(prev, a), b)
  {
    if b == [] {
      assert a + b == a;
    } else {
      assert (a + b)[..|a + b| - 1] == a + b[..|b| - 1];
      StatusConcat(prev, a, b[..|b| - 1]);
    }
  }

  datatype Config = Config(maxBlockSize: int, maxSizes: map<Byte, nat>, depths: Depths)

  predicate IsValidMaxBlockSize(maxBlobSize: int) {
    maxBlobSize >= 7 + LINK_SIZE && (maxBlobSize - 2) % LINK_SIZE >= 5
  }

  /** A valid block size is one that leaves room for length and tag in every root block, as long as the
      links that fit a block can be counted in it; a larger one has room in any case. */
  lemma ValidSizesExactly(m: int)
    ensures m <= 2 + LINK_SIZE ==> !IsValidMaxBlockSize(m)
    ensures 2 + LINK_SIZE < m < 2 + LINK_SIZE * 65536 ==> (IsValidMaxBlockSize(m) <==> RootHasRoom(m, 5))
    ensures m >= 2 + LINK_SIZE * 65536 ==> RootHasRoom(m, 5)
  {
    hide RootHasRoom;
    if m > 2 + LINK_SIZE { RootRoomExactly(m, 5); }
  }

  /** The depth table was made for this block size and covers the trees of all permitted blobs. */
  ghost predicate ValidConfig(cfg: Config)
    ensures ValidConfig(cfg) ==> cfg.maxBlockSize > 2 + LINK_SIZE
  {
    && IsValidMaxBlockSize(cfg.maxBlockSize)
    && exists maxTotalBlocks ::
         && IsTable(cfg.depths, LinksPerBlock(cfg.maxBlockSize), maxTotalBlocks)
         && forall t :: t in cfg.maxSizes ==>
              RequiredBlockCount(cfg.maxBlockSize, cfg.maxSizes[t] + 5) <= maxTotalBlocks
  }

  datatype RootState = RootState(
    allDescendants: set<Link>,
    schema: Option<BlockSchema>,
    tag: Byte,
    remainingNodeCounter: int)

  /** Everything the downloader keeps about one root: its live state, the blocks awaited for it with
      the indices at which they stand, its recorded status, and how often it was reported. */
  datatype RootView = RootView(
    live: Option<RootState>,
    entries: Entries,
    status: Option<Status>,
    broken: nat,
    added: nat)

  datatype Machine = Machine(store: Blocks, view: RootView)

  // ----- judging one block for one root -----

  /** Length and tag at the start of a root block, checked; the schema they determine. */
  function ReadRootData(cfg: Config, tag: Byte, data: seq<Byte>): Option<BlockSchema>
    requires cfg.maxBlockSize > 2 + LINK_SIZE
  {
    if |data| < 4 then None
    else
      var dataLen := FromBytes(data[..4]);
      var blockData := data[4..];
      if |blockData| < 1 then None
      else if blockData[0] != tag then None
      else if tag !in cfg.maxSizes then None
      else if cfg.maxSizes[tag] < dataLen - 1 then None
      else Some(MkSchema(cfg.maxBlockSize, dataLen + 4))
  }

  /** The indices checked before the first one that the block does not fit. */
  function GoodPrefix(s: BlockSchema, block: seq<Byte>, ixs: seq<Index>): (good: seq<Index>)
    ensures good <= ixs
    ensures forall i :: 0 <= i < |good| ==> FitsAt(s, block, good[i])
    ensures |good| < |ixs| ==> !FitsAt(s, block, ixs[|good|])
  {
    if ixs == [] || !FitsAt(s, block, ixs[0]) then [] else [ixs[0]] + GoodPrefix(s, block, ixs[1..])
  }

  /** The first `c` links of a block, recorded from index `first` on. */
  function RecordLinks(m: Entries, links: seq<Link>, first: Index, c: nat): Entries
    requires c <= |links|
  {
    if c == 0 then m else AddIndex(RecordLinks(m, links, first, c - 1), links[c - 1], first + c - 1)
  }

  /** The children of a block that stands at the indices `ixs`. */
  function RecordAll(di: Depths, m: Entries, links: seq<Link>, ixs: seq<Index>): Entries {
    if ixs == [] then m
    else
      var before := RecordAll(di, m, links, ixs[..|ixs| - 1]);
      RecordLinks(before, links, FirstChildId(di, ixs[|ixs| - 1]), |links|)
  }

  datatype Verdict =
    | Ignored
    | Malformed(kids: Entries)
    | Accepted(schema: BlockSchema, kids: Entries)

  /** The schema a block is judged by: the one it announces as a root block, or the one already known. */
  function JudgingSchema(cfg: Config, rs: RootState, ixs: seq<Index>, data: seq<Byte>): Option<BlockSchema>
    requires cfg.maxBlockSize > 2 + LINK_SIZE
  {
    if 0 in ixs then ReadRootData(cfg, rs.tag, data) else rs.schema
  }

  /** Outcome of a block for a live root that awaits it at `ixs`. A block that fits at the first
      indices but not at a later one leaves the children recorded for the first ones behind. */
  function Judge(cfg: Config, rs: RootState, ixs: seq<Index>, block: seq<Byte>): Verdict
    requires cfg.maxBlockSize > 2 + LINK_SIZE
  {
    match ReadBlock(block)
    case Unreadable => Malformed(map[])
    case Parsed(links, data) =>
      var schema := JudgingSchema(cfg, rs, ixs, data);
      if schema.None? then
        if 0 in ixs then Malformed(map[]) else Ignored
      else
        var good := GoodPrefix(schema.value, block, ixs);
        var kids := RecordAll(cfg.depths, map[], links, good);
        if good == ixs then Accepted(schema.value, kids) else Malformed(kids)
  }

  // ----- which blocks leave children recorded -----

  /** The block has links, there is a schema to judge it by, and it fits at the first index checked. */
  predicate RecordsChildren(cfg: Config, rs: RootState, ixs: seq<Index>, block: seq<Byte>)
    requires cfg.maxBlockSize > 2 + LINK_SIZE
  {
    && ReadBlock(block).Parsed? && ReadBlock(block).links != []
    && ixs != []
    && var schema := JudgingSchema(cfg, rs, ixs, ReadBlock(block).data);
       schema.Some? && FitsAt(schema.value, block, ixs[0])
  }

  /** Such a block does not fit at some later index. */
  predicate LateMismatch(cfg: Config, rs: RootState, ixs: seq<Index>, block: seq<Byte>)
    requires cfg.maxBlockSize > 2 + LINK_SIZE
  {
    && RecordsChildren(cfg, rs, ixs, block)
    && var schema := JudgingSchema(cfg, rs, ixs, ReadBlock(block).data);
       exists p :: 0 < p < |ixs| && !FitsAt(schema.value, block, ixs[p])
  }

  // ----- the operations -----

  function Clear(v: RootView): RootView {
    match v.live
    case None => v
    case Some(rs) => v.(live := None, entries := v.entries - rs.allDescendants)
  }

  /** A root with nothing left to wait for becomes Full. */
  function Finish(v: RootView): RootView {
    if v.live.Some? && v.live.value.remainingNodeCounter == 0 then
      var status := if StatusTransitionAllowed(v.status, Full) then Some(Full) else v.status;
      Clear(v.(status := status)).(added := v.added + 1)
    else v
  }

  ghost function ConsumeView(cfg: Config, v: RootView, id: Link, block: seq<Byte>): RootView
    requires cfg.maxBlockSize > 2 + LINK_SIZE
  {
    if id !in v.entries then v
    else
      var ixs := v.entries[id];
      var rest := v.entries - {id};
      match v.live
      case None =>
        // entries left behind by a malformed root
        v.(entries := rest, broken := v.broken + if ReadBlock(block).Unreadable? then 1 else 0)
      case Some(rs) =>
        var remaining := rs.remainingNodeCounter - |ixs|;
        match Judge(cfg, rs, ixs, block)
        case Ignored =>
          Finish(v.(entries := rest, live := Some(rs.(remainingNodeCounter := remaining))))
        case Malformed(kids) =>
          v.(live := None, entries := Merge(rest - rs.allDescendants, kids), broken := v.broken + 1)
        case Accepted(schema, kids) =>
          var rs' := rs.(
            schema := Some(schema),
            allDescendants := rs.allDescendants + kids.Keys,
            remainingNodeCounter := remaining + Count(kids));
          Finish(v.(entries := Merge(rest, kids), live := Some(rs')))
  }

  /** Start of a download. `blocked`: some root already awaits the root block; `failed`: the root
      block is not in the store and asking the network for it failed. */
  function KickView(v: RootView, root: Link, tag: Byte, blocked: bool, failed: bool): RootView {
    if blocked || root in v.entries then v
    else if !StatusTransitionAllowed(v.status, Partial) then
      v.(added := v.added + if v.status == Some(Full) then 1 else 0)
    else
      var started := v.(
        status := Some(Partial),
        entries := v.entries[root := [0]],
        live := Some(RootState({root}, None, tag, 1)));
      if failed then Clear(started) else started
  }

  datatype Action =
    | Kick(root: Link, tag: Byte, blocked: bool, failed: bool)
    | Consume(id: Link, block: seq<Byte>)
    | Expire(root: Link)

  /** Effect of one action of the downloader on the machine of root `r`. */
  ghost function Act(cfg: Config, r: Link, m: Machine, a: Action): Machine
    requires cfg.maxBlockSize > 2 + LINK_SIZE
  {
    match a
    case Kick(root, tag, blocked, failed) =>
      if root == r then m.(view := KickView(m.view, r, tag, blocked, failed)) else m
    case Consume(id, block) => Machine(m.store[id := block], ConsumeView(cfg, m.view, id, block))
    case Expire(root) => if root == r then m.(view := Clear(m.view)) else m
  }

  ghost function Run(cfg: Config, r: Link, m: Machine, acts: seq<Action>): Machine
    requires cfg.maxBlockSize > 2 + LINK_SIZE
  {
    if acts == [] then m else Act(cfg, r, Run(cfg, r, m, acts[..|acts| - 1]), acts[|acts| - 1])
  }

  lemma {:induction false} RunConcat(cfg: Config, r: Link, m: Machine, a: seq<Action>, b: seq<Action>)
    requires cfg.maxBlockSize > 2 + LINK_SIZE
    ensures Run(cfg, r, m, a + b) == Run(cfg, r, Run(cfg, r, m, a), b)
  {
    if b == [] {
      assert a + b == a;
    } else {
      RunConcat(cfg, r, m, a, b[..|b| - 1]);
      assert (a + b)[..|a + b| - 1] == a + b[..|b| - 1];
    }
  }

  // ----- what a recorded child is -----

  /** `e` lists `j` under `l`. */
  predicate Lists(e: Entries, l: Link, j: Index) {
    l in e && j in e[l]
  }

  lemma {:induction false} RecordLinksLists(m: Entries, links: seq<Link>, first: Index, c: nat, l: Link, j: Index)
    requires c <= |links|
    ensures Lists(RecordLinks(m, links, first, c), l, j) <==>
      Lists(m, l, j) || (first <= j < first + c && links[j - first] == l)
    ensures l in RecordLinks(m, links, first, c) && RecordLinks(m, links, first, c)[l] == [] ==> l in m && m[l] == []
  {
    if c > 0 {
      RecordLinksLists(m, links, first, c - 1, l, j);
    }
  }

  /** `j` is the index of a child, with link `l`, of the block standing at `ix`. */
  predicate ChildOf(di: Depths, links: seq<Link>, ix: Index, l: Link, j: Index) {
    var first := FirstChildId(di, ix);
    first <= j < first + |links| && links[j - first] == l
  }

  predicate ChildOfAny(di: Depths, links: seq<Link>, ixs: seq<Index>, l: Link, j: Index) {
    exists p :: 0 <= p < |ixs| && ChildOf(di, links, ixs[p], l, j)
  }

  lemma ChildOfAnyStep(di: Depths, links: seq<Link>, ixs: seq<Index>, l: Link, j: Index)
    requires ixs != []
    ensures ChildOfAny(di, links, ixs, l, j) <==>
      ChildOfAny(di, links, ixs[..|ixs| - 1], l, j) || ChildOf(di, links, ixs[|ixs| - 1], l, j)
  {
    hide ChildOf;
    var init := ixs[..|ixs| - 1];
    if ChildOfAny(di, links, init, l, j) {
      var p :| 0 <= p < |init| && ChildOf(di, links, init[p], l, j);
      assert ChildOf(di, links, ixs[p], l, j);
    }
    if ChildOfAny(di, links, ixs, l, j) {
      var p :| 0 <= p < |ixs| && ChildOf(di, links, ixs[p], l, j);
      if p < |init| { assert ChildOf(di, links, init[p], l, j); }
    }
  }

  /** Exactly the children of the block at each of its indices are recorded. */
  lemma {:induction false} RecordAllLists(di: Depths, m: Entries, links: seq<Link>, ixs: seq<Index>, l: Link, j: Index)
    ensures Lists(RecordAll(di, m, links, ixs), l, j) <==> Lists(m, l, j) || ChildOfAny(di, links, ixs, l, j)
    ensures l in RecordAll(di, m, links, ixs) && RecordAll(di, m, links, ixs)[l] == [] ==> l in m && m[l] == []
  {
    hide FirstChildId, RecordLinks, ChildOfAny;
    if ixs == [] {
      NoChild(di, links, l, j);
    } else {
      var before := RecordAll(di, m, links, ixs[..|ixs| - 1]);
      RecordAllLists(di, m, links, ixs[..|ixs| - 1], l, j);
      RecordLinksLists(before, links, FirstChildId(di, ixs[|ixs| - 1]), |links|, l, j);
      ChildOfAnyStep(di, links, ixs, l, j);
    }
  }

  /** Wherever a block with links is recorded, all its links are, and nothing else. */
  lemma RecordedKeys(di: Depths, links: seq<Link>, ixs: seq<Index>)
    requires ixs != []
    ensures forall l :: l in RecordAll(di, map[], links, ixs) <==> l in links
  {
    hide RecordAll;
    var kids := RecordAll(di, map[], links, ixs);
    forall l ensures l in kids <==> l in links {
      if l in kids {
        RecordAllLists(di, map[], links, ixs, l, 0);
        var j := kids[l][0];
        RecordAllLists(di, map[], links, ixs, l, j);
        assert Lists(kids, l, j);
      }
      if l in links {
        var c :| 0 <= c < |links| && links[c] == l;
        var j := FirstChildId(di, ixs[0]) + c;
        RecordAllLists(di, map[], links, ixs, l, j);
        assert ChildOf(di, links, ixs[0], l, j);
      }
    }
  }

  /** Exactly which blocks leave children recorded, and which of them are malformed after all. */
  lemma KidsExactly(cfg: Config, rs: RootState, ixs: seq<Index>, block: seq<Byte>)
    requires cfg.maxBlockSize > 2 + LINK_SIZE
    ensures var verdict := Judge(cfg, rs, ixs, block);
      && (RecordsChildren(cfg, rs, ixs, block) <==> !verdict.Ignored? && verdict.kids != map[])
      && (RecordsChildren(cfg, rs, ixs, block) ==> forall l :: l in verdict.kids <==> l in ReadBlock(block).links)
      && (LateMismatch(cfg, rs, ixs, block) <==> verdict.Malformed? && verdict.kids != map[])
  {
    hide ReadBlock, ReadRootData, FitsAt, RecordAll;
    var parsed := ReadBlock(block);
    if parsed.Parsed? {
      var schema := JudgingSchema(cfg, rs, ixs, parsed.data);
      if schema.Some? {
        var good := GoodPrefix(schema.value, block, ixs);
        if good == [] {
          NothingRecorded(cfg.depths, parsed.links);
        } else {
          RecordedKeys(cfg.depths, parsed.links, good);
          assert good[0] == ixs[0];
          EmptyOrNot(RecordAll(cfg.depths, map[], parsed.links, good), parsed.links);
        }
      }
    }
  }

  /** Exactly when a block awaited as the root block is malformed. */
  lemma RootMalformedExactly(cfg: Config, rs: RootState, ixs: seq<Index>, block: seq<Byte>)
    requires cfg.maxBlockSize > 2 + LINK_SIZE && 0 in ixs
    ensures Judge(cfg, rs, ixs, block).Malformed? <==>
      || ReadBlock(block).Unreadable?
      || |ReadBlock(block).data| < 5
      || ReadBlock(block).data[4] != rs.tag
      || rs.tag !in cfg.maxSizes
      || FromBytes(ReadBlock(block).data[..4]) - 1 > cfg.maxSizes[rs.tag]
      || exists p :: 0 <= p < |ixs|
           && !FitsAt(MkSchema(cfg.maxBlockSize, FromBytes(ReadBlock(block).data[..4]) + 4), block, ixs[p])
    ensures Judge(cfg, rs, ixs, block).Accepted? <==> !Judge(cfg, rs, ixs, block).Malformed?
  {
    hide ReadBlock, FitsAt, RecordAll, MkSchema, FromBytes;
    var parsed := ReadBlock(block);
    if parsed.Parsed? && |parsed.data| >= 5 {
      assert parsed.data[4..][0] == parsed.data[4];
      var s := MkSchema(cfg.maxBlockSize, FromBytes(parsed.data[..4]) + 4);
      GoodIsAll(s, block, ixs);
    }
  }

  lemma GoodIsAll(s: BlockSchema, block: seq<Byte>, ixs: seq<Index>)
    ensures GoodPrefix(s, block, ixs) == ixs <==> forall p :: 0 <= p < |ixs| ==> FitsAt(s, block, ixs[p])
  {
    hide FitsAt;
    var good := GoodPrefix(s, block, ixs);
    if good == ixs {
      assert forall p :: 0 <= p < |ixs| ==> FitsAt(s, block, good[p]);
    } else {
      assert |good| < |ixs|;
    }
  }

  lemma NothingRecorded(di: Depths, links: seq<Link>)
    ensures RecordAll(di, map[], links, []) == map[]
  {}

  lemma EmptyOrNot(kids: Entries, links: seq<Link>)
    requires forall l :: l in kids <==> l in links
    ensures kids == map[] <==> links == []
  {
    if links != [] { var l := links[0]; assert l in links && l in kids; }
    if kids != map[] { var l :| l in kids; assert l in links; }
  }

  lemma NoChild(di: Depths, links: seq<Link>, l: Link, j: Index)
    ensures !ChildOfAny(di, links, [], l, j)
  {}

  /** Sum of the weights of the first `c` children from index `first` on. */
  function ChildWeight(first: Index, c: nat, w: Index -> nat): nat {
    if c == 0 then 0 else ChildWeight(first, c - 1, w) + w(first + c - 1)
  }

  function ChildrenWeight(di: Depths, ixs: seq<Index>, c: nat, w: Index -> nat): nat {
    if ixs == [] then 0
    else ChildrenWeight(di, ixs[..|ixs| - 1], c, w) + ChildWeight(FirstChildId(di, ixs[|ixs| - 1]), c, w)
  }

  lemma {:induction false} RecordLinksWeight(m: Entries, links: seq<Link>, first: Index, c: nat, w: Index -> nat)
    requires c <= |links|
    ensures Weight(RecordLinks(m, links, first, c), w) == Weight(m, w) + ChildWeight(first, c, w)
  {
    if c > 0 {
      RecordLinksWeight(m, links, first, c - 1, w);
      WeightAddIndex(RecordLinks(m, links, first, c - 1), links[c - 1], first + c - 1, w);
    }
  }

  lemma {:induction false} RecordAllWeight(di: Depths, m: Entries, links: seq<Link>, ixs: seq<Index>, w: Index -> nat)
    ensures Weight(RecordAll(di, m, links, ixs), w) == Weight(m, w) + ChildrenWeight(di, ixs, |links|, w)
  {
    if ixs != [] {
      RecordAllWeight(di, m, links, ixs[..|ixs| - 1], w);
      var before := RecordAll(di, m, links, ixs[..|ixs| - 1]);
      RecordLinksWeight(before, links, FirstChildId(di, ixs[|ixs| - 1]), |links|, w);
    }
  }

  // ----- child indices, exactly -----

  lemma RequiredBlockCountMonotone(max: int, a: nat, b: nat)
    requires max > 2 + LINK_SIZE && a <= b
    ensures RequiredBlockCount(max, a) <= RequiredBlockCount(max, b)
  {
    var n2 := max - LINK_SIZE - 2;
    if b > max - 2 {
      CeilingBounds(b - LINK_SIZE, n2);
      if a > max - 2 {
        CeilingBounds(a - LINK_SIZE, n2);
        var na, nb := RequiredBlockCount(max, a), RequiredBlockCount(max, b);
        if nb < na { MulMono(n2, nb, na - 1); }
      }
    }
  }

  /** Schemas the downloader works with: of a blob of `len` bytes, small enough for the depth table. */
  ghost predicate SchemaFor(cfg: Config, s: BlockSchema, len: nat)
    requires cfg.maxBlockSize > 2 + LINK_SIZE
  {
    && s == MkSchema(cfg.maxBlockSize, len)
    && exists t :: t in cfg.maxSizes && len <= cfg.maxSizes[t] + 5
  }

  /** Within such a tree the depth table gives the children of every block that has any. */
  lemma TableGivesChildren(cfg: Config, s: BlockSchema, len: nat, i: nat)
    requires ValidConfig(cfg) && SchemaFor(cfg, s, len)
    requires s.LinkCount(i) > 0
    ensures WellFormed(s, len) && i < s.numTotalBlocks
    ensures FirstChildId(cfg.depths, i) == Child(s, i, 0)
  {
    hide WellFormed, MkSchema, RequiredBlockCount, LinksPerBlock, IsTable;
    SchemaFields(cfg.maxBlockSize, len);
    SchemaWellFormed(cfg.maxBlockSize, len);
    BranchInTree(s, len, i);
    ChildrenInTree(s, len, i);
    ChildIsMultiple(s, len, i, 0);
    var t :| t in cfg.maxSizes && len <= cfg.maxSizes[t] + 5;
    var maxTotalBlocks :|
      && IsTable(cfg.depths, LinksPerBlock(cfg.maxBlockSize), maxTotalBlocks)
      && forall t :: t in cfg.maxSizes ==>
           RequiredBlockCount(cfg.maxBlockSize, cfg.maxSizes[t] + 5) <= maxTotalBlocks;
    RequiredBlockCountMonotone(cfg.maxBlockSize, len, cfg.maxSizes[t] + 5);
    FirstChildIdCorrect(cfg.depths, s.maxLinksPerBlock, maxTotalBlocks, i);
    assert Child(s, i, 0) < s.numTotalBlocks;
  }

  lemma SchemaFields(max: int, len: nat)
    requires max > 2 + LINK_SIZE
    ensures var s := MkSchema(max, len);
      && s.maxLinksPerBlock == LinksPerBlock(max)
      && s.numTotalBlocks == RequiredBlockCount(max, len)
      && s.maxBlockDataSize == max
  {}

  lemma BranchInTree(s: BlockSchema, len: nat, i: nat)
    requires WellFormed(s, len) && s.LinkCount(i) > 0
    ensures i < s.numTotalBlocks
  {
    MulMono(s.numFullBranchBlocks, 1, s.maxLinksPerBlock);
  }
}
