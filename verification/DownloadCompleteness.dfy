/** Completeness of the download of one root: the blocks that the encoder made from a tagged blob
    are never found malformed, and once all of them have arrived the root is Full. */
module DownloadCompleteness {
  import opened Options
  import opened LittleEndian
  import opened Schema
  import opened BlockCodec
  import opened BlockTree
  import opened BlockSplit
  import opened Weights
  import opened RootMachine
  import opened TreeGrowth
  import opened DownloadSafety

  /** The bytes that are split for a tagged blob: length, tag, data. */
  function Prefixed(tag: Byte, data: seq<Byte>): (b: seq<Byte>)
    ensures |b| == |data| + 5
  {
    ToBytes(|data| + 1, 4) + ([tag] + data)
  }

  /** One blob on its way: the schema and the encoder's blocks for it. */
  datatype Upload = Upload(cfg: Config, hash: HashF, tag: Byte, data: seq<Byte>)
  {
    /** The blob is within the limits of its tag and its length fits its 4-byte prefix. */
    ghost predicate Legal() {
      && ValidConfig(cfg)
      && tag in cfg.maxSizes && |data| <= cfg.maxSizes[tag]
      && |data| + 1 < Pow256(4)
    }

    function Bytes(): seq<Byte> { Prefixed(tag, data) }

    function Shape(): (s: BlockSchema)
      requires cfg.maxBlockSize > 2 + LINK_SIZE
      ensures WellFormed(s, |Bytes()|)
    {
      SchemaWellFormed(cfg.maxBlockSize, |Bytes()|);
      MkSchema(cfg.maxBlockSize, |Bytes()|)
    }

    function Size(): int
      requires cfg.maxBlockSize > 2 + LINK_SIZE
    {
      Shape().numTotalBlocks
    }

    function LinkOf(i: nat): Link
      requires cfg.maxBlockSize > 2 + LINK_SIZE && i < Size()
    {
      LinkAt(Shape(), hash, Bytes(), i)
    }

    function BlockOf(i: nat): seq<Byte>
      requires cfg.maxBlockSize > 2 + LINK_SIZE && i < Size()
    {
      BlockAt(Shape(), hash, Bytes(), i)
    }

    function Root(): Link
      requires cfg.maxBlockSize > 2 + LINK_SIZE
    {
      AtLeastOneBlock(Shape(), |Bytes()|);
      LinkOf(0)
    }

    /** `content` gives the one byte string of every link, and agrees with the encoder. */
    ghost predicate Genuine(content: Link -> seq<Byte>)
      requires cfg.maxBlockSize > 2 + LINK_SIZE
    {
      forall i :: 0 <= i < Size() ==> content(LinkOf(i)) == BlockOf(i)
    }
  }

  // ----- the root block announces its own blob -----

  lemma RootSliceIsLongEnough(u: Upload)
    requires u.Legal()
    ensures u.Size() >= 1 && u.Shape().DataSize(0) >= 5
  {
    var s := u.Shape();
    AtLeastOneBlock(s, |u.Bytes()|);
    if s.numTotalBlocks == 1 {
      OffsetTotal(s, |u.Bytes()|);
      assert Offset(s, 1) == Offset(s, 0) + s.DataSize(0);
    } else {
      RootSliceOfBranch(u.cfg.maxBlockSize, |u.Bytes()|);
    }
  }

  lemma RootSliceOfBranch(max: int, len: nat)
    requires IsValidMaxBlockSize(max)
    requires MkSchema(max, len).numTotalBlocks > 1
    ensures MkSchema(max, len).DataSize(0) >= 5
  {
    var s := MkSchema(max, len);
    SchemaWellFormed(max, len);
    assert s.LinkCount(0) <= s.maxLinksPerBlock;
    assert max - 2 == 32 * ((max - 2) / 32) + (max - 2) % 32;
  }

  lemma RootAnnounces(u: Upload)
    requires u.Legal()
    ensures u.Size() >= 1
    ensures var b := u.BlockOf(0);
      ReadBlock(b).Parsed? && ReadRootData(u.cfg, u.tag, ReadBlock(b).data) == Some(u.Shape())
  {
    hide WellFormed, ReadBlock, MkSchema, BlockAt;
    RootSliceIsLongEnough(u);
    var s, bytes := u.Shape(), u.Bytes();
    BlockLayout(s, u.hash, bytes, 0);
    var slice := Slice(s, bytes, 0);
    assert ReadBlock(u.BlockOf(0)).data == slice;
    OffsetBounds(s, |bytes|, 1);
    assert slice == bytes[..s.DataSize(0)];
    assert slice[..4] == bytes[..4] == ToBytes(|u.data| + 1, 4);
    assert slice[4..][0] == bytes[4] == u.tag;
    FromToBytes(|u.data| + 1, 4);
  }

  // ----- what is awaited is what the encoder made -----

  /** Index `j`, awaited under `l`, is a block of the upload with that link. */
  ghost predicate Expected(u: Upload, e: Entries)
    requires u.cfg.maxBlockSize > 2 + LINK_SIZE
  {
    forall l, j :: Lists(e, l, j) ==> 0 <= j < u.Size() && l == u.LinkOf(j)
  }

  ghost predicate OnTrack(u: Upload, m: Machine, broken: nat)
    requires u.cfg.maxBlockSize > 2 + LINK_SIZE
  {
    && RootInv(u.cfg, u.Root(), m)
    && m.view.broken == broken
    && match m.view.live
       case None => m.view.status == Some(Full)
       case Some(rs) =>
         && rs.tag == u.tag
         && (rs.schema.Some? ==> rs.schema.value == u.Shape())
         && Expected(u, m.view.entries)
  }

  lemma BlocksFit(u: Upload, e: Entries, id: Link, block: seq<Byte>)
    requires u.Legal() && Expected(u, e) && id in e
    requires forall i :: 0 <= i < u.Size() && u.LinkOf(i) == id ==> block == u.BlockOf(i)
    ensures forall p :: 0 <= p < |e[id]| ==>
      0 <= e[id][p] < u.Size() && FitsAt(u.Shape(), block, e[id][p]) && block == u.BlockOf(e[id][p])
    ensures GoodPrefix(u.Shape(), block, e[id]) == e[id]
  {
    hide WellFormed, ReadBlock, MkSchema, BlockAt, FitsAt;
    forall p | 0 <= p < |e[id]|
      ensures 0 <= e[id][p] < u.Size() && FitsAt(u.Shape(), block, e[id][p]) && block == u.BlockOf(e[id][p])
    {
      assert Lists(e, id, e[id][p]);
      BlockLayout(u.Shape(), u.hash, u.Bytes(), e[id][p]);
    }
    var good := GoodPrefix(u.Shape(), block, e[id]);
    assert good == e[id][..|good|];
  }

  lemma UploadSchemaFor(u: Upload)
    requires u.Legal()
    ensures SchemaFor(u.cfg, u.Shape(), |u.Bytes()|)
  {}

  /** The children recorded from a genuine block are the encoder's blocks at their indices. */
  lemma KidsExpected(u: Upload, e: Entries, id: Link, block: seq<Byte>)
    requires u.Legal() && Expected(u, e) && id in e && ReadBlock(block).Parsed?
    requires forall p :: 0 <= p < |e[id]| ==>
      0 <= e[id][p] < u.Size() && FitsAt(u.Shape(), block, e[id][p]) && block == u.BlockOf(e[id][p])
    ensures Expected(u, RecordAll(u.cfg.depths, map[], ReadBlock(block).links, e[id]))
  {
    hide WellFormed, ReadBlock, MkSchema, BlockAt, FitsAt, RecordAll, SchemaFor, Child, Recorded, Lists;
    var links, ixs, s := ReadBlock(block).links, e[id], u.Shape();
    var kids := RecordAll(u.cfg.depths, map[], links, ixs);
    UploadSchemaFor(u);
    KidsAreRecorded(u.cfg, s, |u.Bytes()|, block, ixs);
    forall l, j | Lists(kids, l, j) ensures 0 <= j < u.Size() && l == u.LinkOf(j) {
      RecordedLists(u.cfg.depths, s, ixs, links, kids, l, j);
      KidExpected(u, ixs, block, l, j);
    }
  }

  /** A child of the block at one of its indices is the encoder's block there. */
  lemma KidExpected(u: Upload, ixs: seq<Index>, block: seq<Byte>, l: Link, j: Index)
    requires u.Legal() && ReadBlock(block).Parsed?
    requires forall p :: 0 <= p < |ixs| ==> 0 <= ixs[p] < u.Size() && block == u.BlockOf(ixs[p])
    requires var links := ReadBlock(block).links;
      exists p ::
        0 <= p < |ixs| && 0 <= ixs[p] && 0 <= j - Child(u.Shape(), ixs[p], 0) < |links|
        && links[j - Child(u.Shape(), ixs[p], 0)] == l
    ensures 0 <= j < u.Size() && l == u.LinkOf(j)
  {
    hide WellFormed, ReadBlock, MkSchema, BlockAt, Child;
    var links, s := ReadBlock(block).links, u.Shape();
    var p :| 0 <= p < |ixs| && 0 <= ixs[p] && 0 <= j - Child(s, ixs[p], 0) < |links|
      && links[j - Child(s, ixs[p], 0)] == l;
    ChildOffset(s, ixs[p], j - Child(s, ixs[p], 0));
    ChildLink(u, block, ixs[p], j - Child(s, ixs[p], 0));
  }

  lemma ChildLink(u: Upload, block: seq<Byte>, i: nat, c: nat)
    requires u.Legal() && i < u.Size() && block == u.BlockOf(i)
    requires ReadBlock(block).Parsed? && c < |ReadBlock(block).links|
    ensures 0 <= Child(u.Shape(), i, c) < u.Size()
    ensures ReadBlock(block).links[c] == u.LinkOf(Child(u.Shape(), i, c))
  {
    hide WellFormed, ReadBlock, MkSchema, BlockAt, Child;
    BlockLayout(u.Shape(), u.hash, u.Bytes(), i);
    FitsLinks(u.Shape(), block, i);
  }

  lemma FitsLinks(s: BlockSchema, block: seq<Byte>, i: int)
    requires FitsAt(s, block, i)
    ensures |ReadBlock(block).links| == s.LinkCount(i)
  {}

  lemma MergeExpected(u: Upload, a: Entries, b: Entries, id: Link)
    requires u.cfg.maxBlockSize > 2 + LINK_SIZE
    requires Expected(u, a) && Expected(u, b)
    ensures Expected(u, Merge(a - {id}, b))
  {
    hide WellFormed, MkSchema, BlockAt;
    forall l, j | Lists(Merge(a - {id}, b), l, j) ensures 0 <= j < u.Size() && l == u.LinkOf(j) {
      MergeLists(a - {id}, b, l, j);
      if !Lists(b, l, j) { assert Lists(a, l, j); }
    }
  }

  /** A genuine block is always accepted, with the upload's own schema. */
  lemma GenuineIsAccepted(u: Upload, rs: RootState, e: Entries, id: Link, block: seq<Byte>)
    requires u.Legal() && Expected(u, e) && id in e && e[id] != []
    requires rs.tag == u.tag
    requires if 0 in e[id] then rs.schema.None? else rs.schema == Some(u.Shape())
    requires forall i :: 0 <= i < u.Size() && u.LinkOf(i) == id ==> block == u.BlockOf(i)
    ensures var verdict := Judge(u.cfg, rs, e[id], block);
      verdict.Accepted? && verdict.schema == u.Shape() && Expected(u, verdict.kids)
  {
    hide WellFormed, MkSchema, BlockAt, RecordAll, GoodPrefix, ReadRootData, ReadBlock, Expected;
    var ixs := e[id];
    BlocksFit(u, e, id, block);
    RootAnnounces(u);
    assert FitsAt(u.Shape(), block, ixs[0]);
    KidsExpected(u, e, id, block);
    if 0 in ixs {
      var p :| 0 <= p < |ixs| && ixs[p] == 0;
      assert block == u.BlockOf(0);
    }
  }

  // ----- steps and runs -----

  /** Actions during which the one kick-start of the root stays in force: blocks arrive, and other
      roots are started and expire. */
  ghost predicate Undisturbed(r: Link, content: Link -> seq<Byte>, a: Action) {
    match a
    case Kick(root, _, _, _) => root != r
    case Expire(root) => root != r
    case Consume(id, block) => block == content(id)
  }

  ghost predicate StoreHolds(content: Link -> seq<Byte>, store: Blocks) {
    forall l :: l in store ==> store[l] == content(l)
  }

  lemma ListedUnderId(u: Upload, m: Machine, broken: nat, id: Link)
    requires u.Legal() && OnTrack(u, m, broken) && m.view.live.Some? && id in m.view.entries && m.view.entries[id] != []
    ensures var rs, ixs := m.view.live.value, m.view.entries[id];
      if 0 in ixs then rs.schema.None? else rs.schema == Some(u.Shape())
  {
    hide ReadBlock, Grown, Count, MkSchema, WellFormed, BlockAt, RootRead, Expected;
    var rs, e := m.view.live.value, m.view.entries;
    if rs.schema.None? {
      assert e[id] == [0] && 0 in e[id];
    } else {
      assert !Lists(e, id, 0);
    }
  }

  lemma ArrivalStaysOnTrack(u: Upload, m: Machine, broken: nat, content: Link -> seq<Byte>, id: Link)
    requires u.Legal() && OnTrack(u, m, broken) && u.Genuine(content) && StoreHolds(content, m.store)
    requires m.view.live.Some? && id in m.view.entries
    requires m.view.entries[id] != []
    ensures OnTrack(u, Act(u.cfg, u.Root(), m, Consume(id, content(id))), broken)
  {
    hide ReadBlock, Growing, Count, MkSchema, WellFormed, BlockAt, Judge, Merge, Expected;
    var block := content(id);
    var rs, e := m.view.live.value, m.view.entries;
    ListedUnderId(u, m, broken, id);
    GenuineIsAccepted(u, rs, e, id, block);
    AcceptedStep(u.cfg, u.Root(), m, id, block);
    var kids := Judge(u.cfg, rs, e[id], block).kids;
    MergeExpected(u, e, kids, id);
  }

  lemma StepStaysOnTrack(u: Upload, m: Machine, broken: nat, content: Link -> seq<Byte>, a: Action)
    requires u.Legal() && OnTrack(u, m, broken) && NonEmpty(m.view.entries)
    requires u.Genuine(content) && StoreHolds(content, m.store)
    requires Undisturbed(u.Root(), content, a)
    ensures var m' := Act(u.cfg, u.Root(), m, a);
      OnTrack(u, m', broken) && NonEmpty(m'.view.entries) && StoreHolds(content, m'.store)
  {
    hide ReadBlock, Growing, Count, MkSchema, WellFormed, BlockAt, Judge, Merge, Expected, NonEmpty;
    if a.Consume? {
      NonEmptyStep(u.cfg, u.Root(), m, a);
      if m.view.live.Some? && a.id in m.view.entries {
        NonEmptyAt(m.view.entries, a.id);
        ArrivalStaysOnTrack(u, m, broken, content, a.id);
      } else {
        NotListed(u, m, broken, content, a);
      }
    }
  }

  lemma NotListed(u: Upload, m: Machine, broken: nat, content: Link -> seq<Byte>, a: Action)
    requires u.Legal() && OnTrack(u, m, broken) && StoreHolds(content, m.store)
    requires a.Consume? && a.block == content(a.id)
    requires m.view.live.None? || a.id !in m.view.entries
    ensures OnTrack(u, Act(u.cfg, u.Root(), m, a), broken)
  {
    hide ReadBlock, Growing, Count, MkSchema, WellFormed, BlockAt, Judge, Merge, Expected, RootInv;
    ConsumeKeepsExactly(u.cfg, u.Root(), m, a.id, a.block);
    NotListedView(u.cfg, u.Root(), m, a);
  }

  lemma NotListedView(cfg: Config, r: Link, m: Machine, a: Action)
    requires cfg.maxBlockSize > 2 + LINK_SIZE && RootInv(cfg, r, m) && a.Consume?
    requires m.view.live.None? || a.id !in m.view.entries
    ensures Act(cfg, r, m, a).view == m.view
  {
    hide ReadBlock, Growing, Count, Judge, Merge;
  }

  /** No link is listed without an index. */
  ghost predicate NonEmpty(e: Entries) {
    forall l :: l in e ==> e[l] != []
  }

  lemma NonEmptyAt(e: Entries, l: Link)
    requires NonEmpty(e) && l in e
    ensures e[l] != []
  {}

  lemma NonEmptyMerge(a: Entries, b: Entries, ks: set<Link>)
    requires NonEmpty(a) && NonEmpty(b)
    ensures NonEmpty(Merge(a, b)) && NonEmpty(a - ks) && NonEmpty(Merge(a, b) - ks)
  {}

  lemma KidsNonEmpty(cfg: Config, rs: RootState, ixs: seq<Index>, block: seq<Byte>)
    requires cfg.maxBlockSize > 2 + LINK_SIZE
    ensures var v := Judge(cfg, rs, ixs, block); !v.Ignored? ==> NonEmpty(v.kids)
  {
    hide ReadBlock, ReadRootData, RecordAll;
    var v := Judge(cfg, rs, ixs, block);
    if !v.Ignored? && ReadBlock(block).Parsed? {
      var links := ReadBlock(block).links;
      forall good: seq<Index>, l | l in RecordAll(cfg.depths, map[], links, good)
        ensures RecordAll(cfg.depths, map[], links, good)[l] != []
      {
        RecordAllLists(cfg.depths, map[], links, good, l, 0);
      }
    }
  }

  lemma NonEmptyStep(cfg: Config, r: Link, m: Machine, a: Action)
    requires cfg.maxBlockSize > 2 + LINK_SIZE && NonEmpty(m.view.entries)
    ensures NonEmpty(Act(cfg, r, m, a).view.entries)
  {
    hide ReadBlock, Judge, Merge, Count;
    if a.Consume? && a.id in m.view.entries && m.view.live.Some? {
      var rs, e := m.view.live.value, m.view.entries;
      var verdict := Judge(cfg, rs, e[a.id], a.block);
      KidsNonEmpty(cfg, rs, e[a.id], a.block);
      if !verdict.Ignored? {
        NonEmptyMerge(e - {a.id}, verdict.kids, rs.allDescendants + verdict.kids.Keys);
        NonEmptyMerge((e - {a.id}) - rs.allDescendants, verdict.kids, {});
      }
    }
  }

  lemma {:induction false} RunStaysOnTrack(u: Upload, m: Machine, broken: nat, content: Link -> seq<Byte>,
                                           acts: seq<Action>)
    requires u.Legal() && OnTrack(u, m, broken) && NonEmpty(m.view.entries)
    requires u.Genuine(content) && StoreHolds(content, m.store)
    requires forall i :: 0 <= i < |acts| ==> Undisturbed(u.Root(), content, acts[i])
    ensures var m' := Run(u.cfg, u.Root(), m, acts);
      OnTrack(u, m', broken) && NonEmpty(m'.view.entries) && StoreHolds(content, m'.store)
  {
    hide OnTrack, Act, MkSchema, WellFormed, BlockAt, NonEmpty;
    if acts != [] {
      RunStaysOnTrack(u, m, broken, content, acts[..|acts| - 1]);
      StepStaysOnTrack(u, Run(u.cfg, u.Root(), m, acts[..|acts| - 1]), broken, content, acts[|acts| - 1]);
    }
  }

  /** Right after its kick-start a root with no earlier trace is on track. */
  lemma KickGetsOnTrack(u: Upload, m: Machine)
    requires u.Legal()
    requires m.view.live.None? && m.view.entries == map[] && StatusTransitionAllowed(m.view.status, Partial)
    ensures var m' := Act(u.cfg, u.Root(), m, Kick(u.Root(), u.tag, false, false));
      OnTrack(u, m', m.view.broken) && NonEmpty(m'.view.entries) && m'.store == m.store
  {
    hide ReadBlock, Growing, Count, MkSchema, WellFormed, BlockAt;
    var a := Kick(u.Root(), u.tag, false, false);
    KickKeepsExactly(u.cfg, u.Root(), m, a);
    AtLeastOneBlock(u.Shape(), |u.Bytes()|);
    var e := Act(u.cfg, u.Root(), m, a).view.entries;
    assert e == map[u.Root() := [0]];
    forall l, j | Lists(e, l, j) ensures 0 <= j < u.Size() && l == u.LinkOf(j) {}
  }

  /** Nothing awaited for the root is in the store: the downloader never rests otherwise. */
  ghost predicate Quiet(m: Machine) {
    forall l :: l in m.view.entries ==> l !in m.store
  }

  /** Completeness: after one kick-start, whatever blocks arrive in whatever order, with repeats
      and unsolicited ones, and whatever happens to other roots, the root is never reported
      malformed; and once the downloader is at rest with all blocks stored, it is Full. */
  lemma Completeness(u: Upload, m: Machine, content: Link -> seq<Byte>, acts: seq<Action>)
    requires u.Legal() && u.Genuine(content) && StoreHolds(content, m.store)
    requires m.view.live.None? && m.view.entries == map[] && StatusTransitionAllowed(m.view.status, Partial)
    requires forall i :: 0 <= i < |acts| ==> Undisturbed(u.Root(), content, acts[i])
    ensures var m' := Run(u.cfg, u.Root(), m, [Kick(u.Root(), u.tag, false, false)] + acts);
      && m'.view.broken == m.view.broken
      && (Quiet(m') && (forall i :: 0 <= i < u.Size() ==> u.LinkOf(i) in m'.store) ==>
            m'.view.status == Some(Full) && m'.view.live.None?)
  {
    hide Act, MkSchema, WellFormed, BlockAt, Growing, Count;
    OnTrackAfter(u, m, content, acts);
    var m' := Run(u.cfg, u.Root(), m, [Kick(u.Root(), u.tag, false, false)] + acts);
    if m'.view.live.Some? {
      CountPositive(m'.view.entries);
      var l :| l in m'.view.entries && m'.view.entries[l] != [];
      assert Lists(m'.view.entries, l, m'.view.entries[l][0]);
    }
  }

  /** From its kick-start on, the root is on track. */
  lemma OnTrackAfter(u: Upload, m: Machine, content: Link -> seq<Byte>, acts: seq<Action>)
    requires u.Legal() && u.Genuine(content) && StoreHolds(content, m.store)
    requires m.view.live.None? && m.view.entries == map[] && StatusTransitionAllowed(m.view.status, Partial)
    requires forall i :: 0 <= i < |acts| ==> Undisturbed(u.Root(), content, acts[i])
    ensures var m' := Run(u.cfg, u.Root(), m, [Kick(u.Root(), u.tag, false, false)] + acts);
      OnTrack(u, m', m.view.broken) && NonEmpty(m'.view.entries) && StoreHolds(content, m'.store)
  {
    hide Act, MkSchema, WellFormed, BlockAt, OnTrack, NonEmpty;
    var kick := Kick(u.Root(), u.tag, false, false);
    KickGetsOnTrack(u, m);
    RunStaysOnTrack(u, Act(u.cfg, u.Root(), m, kick), m.view.broken, content, acts);
    RunConcat(u.cfg, u.Root(), m, [kick], acts);
    RunOne(u.cfg, u.Root(), m, kick);
  }

  /** A root on track meets no late mismatch. */
  lemma OnTrackNoMismatch(u: Upload, m: Machine, broken: nat, content: Link -> seq<Byte>, id: Link)
    requires u.Legal() && OnTrack(u, m, broken) && NonEmpty(m.view.entries) && u.Genuine(content)
    ensures NoLateMismatch(u.cfg, m, Consume(id, content(id)))
  {
    hide ReadBlock, Growing, Count, MkSchema, WellFormed, BlockAt, Judge, Expected, LateMismatch, RecordsChildren;
    if m.view.live.Some? && id in m.view.entries {
      NonEmptyAt(m.view.entries, id);
      ListedUnderId(u, m, broken, id);
      GenuineIsAccepted(u, m.view.live.value, m.view.entries, id, content(id));
      KidsExactly(u.cfg, m.view.live.value, m.view.entries[id], content(id));
    }
  }

  lemma RunOne(cfg: Config, r: Link, m: Machine, a: Action)
    requires cfg.maxBlockSize > 2 + LINK_SIZE
    ensures Run(cfg, r, m, [a]) == Act(cfg, r, m, a)
  {
    assert [a][..0] == [];
  }
}
