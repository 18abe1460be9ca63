/** Where the bookkeeping of a download breaks: runs of the downloader, allowed by its code, that
    leave what the two premises of the safety theorem exclude. */
module DownloadLimits {
  import opened Options
  import opened LittleEndian
  import opened Schema
  import opened DepthIndices
  import opened BlockCodec
  import opened BlockTree
  import opened BlockSplit
  import opened Weights
  import opened RootMachine
  import opened TreeGrowth
  import opened DownloadSafety
  import opened DownloadCompleteness
  import opened DownloadPanic

  // ----- a second kick-start -----

  /** For every blob of at least two blocks: once its root block has been consumed, the guard of the
      kick-start no longer sees the download, and a second kick-start breaks the bookkeeping. */
  lemma RestartBreaksBookkeeping(u: Upload, m: Machine, content: Link -> seq<Byte>)
    requires u.Legal() && u.Size() >= 2 && u.Genuine(content) && StoreHolds(content, m.store)
    requires m.view.live.None? && m.view.entries == map[] && StatusTransitionAllowed(m.view.status, Partial)
    requires forall i :: 0 < i < u.Size() ==> u.LinkOf(i) != u.Root()
    ensures var kick := Kick(u.Root(), u.tag, false, false);
      var m1 := Act(u.cfg, u.Root(), m, kick);
      var m2 := Act(u.cfg, u.Root(), m1, Consume(u.Root(), content(u.Root())));
      RootInv(u.cfg, u.Root(), m2) && !RootInv(u.cfg, u.Root(), Act(u.cfg, u.Root(), m2, kick))
  {
    hide ReadBlock, Growing, Count, MkSchema, WellFormed, BlockAt, Judge, Merge, Expected, RecordAll;
    var r := u.Root();
    var kick := Kick(r, u.tag, false, false);
    var m1 := Act(u.cfg, r, m, kick);
    KickGetsOnTrack(u, m);
    var block := content(r);
    assert m1.view.entries == map[r := [0]] && m1.view.live.Some?;
    ArrivalStaysOnTrack(u, m1, m.view.broken, content, r);
    var m2 := Act(u.cfg, r, m1, Consume(r, block));
    GenuineIsAccepted(u, m1.view.live.value, m1.view.entries, r, block);
    var verdict := Judge(u.cfg, m1.view.live.value, [0], block);
    FirstChildAwaited(u, m1.view.live.value, block);
    CountAfter(m1.view.entries, r, verdict.kids);
    CountSingle(r);
    assert m2.view.live.Some?;
    RootNotAwaited(u, verdict.kids);
    assert m1.view.entries - {r} == map[];
    MergeLists(m1.view.entries - {r}, verdict.kids, r, 0);
    MergedKeys(m1.view.entries - {r}, verdict.kids);
    KickKeepsExactly(u.cfg, r, m2, kick);
  }

  lemma RootNotAwaited(u: Upload, kids: Entries)
    requires u.Legal() && Expected(u, kids) && NonEmpty(kids)
    requires forall i :: 0 < i < u.Size() ==> u.LinkOf(i) != u.Root()
    requires forall l, j :: Lists(kids, l, j) ==> j > 0
    ensures u.Root() !in kids
  {
    hide MkSchema, WellFormed, BlockAt;
    forall l | l in kids ensures l != u.Root() {
      assert Lists(kids, l, kids[l][0]);
    }
  }

  lemma FirstChildAwaited(u: Upload, rs: RootState, block: seq<Byte>)
    requires u.Legal() && u.Size() >= 2 && block == u.BlockOf(0)
    requires Judge(u.cfg, rs, [0], block).Accepted? && Judge(u.cfg, rs, [0], block).schema == u.Shape()
    ensures var kids := Judge(u.cfg, rs, [0], block).kids;
      Count(kids) > 0 && NonEmpty(kids) && forall l, j :: Lists(kids, l, j) ==> j > 0
  {
    hide ReadBlock, MkSchema, WellFormed, BlockAt, Judge, RecordAll, SchemaFor, Weight, FirstChildId, Child;
    var kids := Judge(u.cfg, rs, [0], block).kids;
    JudgeAccepted(u.cfg, rs, [0], block);
    KidsNonEmpty(u.cfg, rs, [0], block);
    var links := ReadBlock(block).links;
    RootLinks(u, block);
    forall l, j | Lists(kids, l, j) ensures j > 0 {
      RecordAllLists(u.cfg.depths, map[], links, [0], l, j);
      var p :| 0 <= p < |[0]| && ChildOf(u.cfg.depths, links, [0][p], l, j);
    }
    RecordAllLists(u.cfg.depths, map[], links, [0], links[0], 1);
    assert ChildOf(u.cfg.depths, links, [0][0], links[0], 1);
    if Count(kids) == 0 { NothingListed(kids); }
  }

  lemma RootLinks(u: Upload, block: seq<Byte>)
    requires u.Legal() && u.Size() >= 2 && block == u.BlockOf(0) && ReadBlock(block).Parsed?
    ensures ReadBlock(block).links != [] && FirstChildId(u.cfg.depths, 0) == 1
  {
    hide ReadBlock, MkSchema, WellFormed, BlockAt, SchemaFor, FirstChildId;
    var s := u.Shape();
    BlockLayout(s, u.hash, u.Bytes(), 0);
    RootHasLinks(s, |u.Bytes()|);
    UploadSchemaFor(u);
    TableGivesChildren(u.cfg, s, |u.Bytes()|, 0);
    FitsLinks(s, block, 0);
  }

  lemma RootHasLinks(s: BlockSchema, len: nat)
    requires WellFormed(s, len) && s.numTotalBlocks >= 2
    ensures s.LinkCount(0) > 0
  {
    if s.numFullBranchBlocks == 0 { assert s.numFullBranchBlocks * s.maxLinksPerBlock == 0; }
  }

  // ----- a block that fits at one index but not at a later one -----

  /** A root block announcing 146 bytes, whose two links are the same block. */
  function TwinRoot(tag: Byte, c: Link): seq<Byte> {
    EncodeBlock([c, c], [146, 0, 0, 0, tag])
  }

  /** A full block with one link: right for index 1 of that tree, wrong for index 2. */
  function TwinChild(g: Link): seq<Byte> {
    EncodeBlock([g], ToBytes(0, 37))
  }

  lemma TwinSchema()
    ensures MkSchema(71, 150) == BlockSchema(4, 1, 1, 39, 71, 2)
  {}

  lemma TwinRootReads(cfg: Config, tag: Byte, c: Link)
    requires cfg.maxBlockSize == 71 && tag in cfg.maxSizes && cfg.maxSizes[tag] >= 145
    ensures ReadBlock(TwinRoot(tag, c)) == Parsed([c, c], [146, 0, 0, 0, tag])
    ensures ReadRootData(cfg, tag, [146, 0, 0, 0, tag]) == Some(MkSchema(71, 150))
    ensures FitsAt(MkSchema(71, 150), TwinRoot(tag, c), 0)
  {
    ReadEncode([c, c], [146, 0, 0, 0, tag]);
    TwinSchema();
    var data: seq<Byte> := [146, 0, 0, 0, tag];
    assert data[..4] == [146, 0, 0, 0];
    var b: seq<Byte> := [146, 0, 0, 0];
    assert FromBytes(b) == 146 by {
      assert b[1..] == [0, 0, 0] && b[1..][1..] == [0, 0] && b[1..][1..][1..] == [0] && b[1..][1..][1..][1..] == [];
    }
  }

  lemma TwinTable(cfg: Config, tag: Byte)
    requires ValidConfig(cfg) && cfg.maxBlockSize == 71 && tag in cfg.maxSizes && cfg.maxSizes[tag] >= 145
    ensures FirstChildId(cfg.depths, 0) == 1 && FirstChildId(cfg.depths, 1) == 3
  {
    hide FirstChildId;
    TwinSchema();
    var s := MkSchema(71, 150);
    assert SchemaFor(cfg, s, 150);
    TableGivesChildren(cfg, s, 150, 0);
    TableGivesChildren(cfg, s, 150, 1);
    assert LinksBefore(s, 1) == 2;
  }

  function Single(l: Link, ixs: seq<Index>): Entries { map[l := ixs] }

  lemma RecordTwice(c: Link)
    ensures RecordLinks(map[], [c, c], 1, 2) == Single(c, [1, 2])
  {
    var e: Entries := map[];
    var links: seq<Link> := [c, c];
    assert RecordLinks(e, links, 1, 0) == e;
    assert RecordLinks(e, links, 1, 1) == AddIndex(e, c, 1) == Single(c, [1]) by { assert [] + [1] == [1]; }
    assert RecordLinks(e, links, 1, 2) == AddIndex(Single(c, [1]), c, 2);
    assert [1] + [2] == [1, 2];
  }

  lemma RecordOnce(g: Link)
    ensures RecordLinks(map[], [g], 3, 1) == Single(g, [3])
  {
    var e: Entries := map[];
    assert RecordLinks(e, [g], 3, 0) == e;
    assert [] + [3] == [3];
  }

  lemma GoodOne(s: BlockSchema, block: seq<Byte>, i: Index, rest: seq<Index>)
    requires FitsAt(s, block, i) && (rest != [] ==> !FitsAt(s, block, rest[0]))
    ensures GoodPrefix(s, block, [i] + rest) == [i]
  {
    hide FitsAt;
    assert ([i] + rest)[1..] == rest;
  }

  lemma RecordAtOne(di: Depths, links: seq<Link>, i: Index)
    ensures RecordAll(di, map[], links, [i]) == RecordLinks(map[], links, FirstChildId(di, i), |links|)
  {
    hide FirstChildId;
    assert [i][..0] == [];
  }

  lemma TwinRootVerdict(cfg: Config, rs: RootState, tag: Byte, c: Link)
    requires ValidConfig(cfg) && cfg.maxBlockSize == 71 && tag in cfg.maxSizes && cfg.maxSizes[tag] >= 145
    requires rs.tag == tag
    ensures Judge(cfg, rs, [0], TwinRoot(tag, c)) == Accepted(MkSchema(71, 150), Single(c, [1, 2]))
  {
    hide ReadBlock, ReadRootData, MkSchema, FirstChildId, FitsAt, TwinRoot, Single, GoodPrefix, RecordAll, RecordLinks;
    TwinRootReads(cfg, tag, c);
    TwinTable(cfg, tag);
    GoodOne(MkSchema(71, 150), TwinRoot(tag, c), 0, []);
    assert [0] + [] == [0];
    RecordAtOne(cfg.depths, [c, c], 0);
    RecordTwice(c);
  }

  lemma TwinChildVerdict(cfg: Config, rs: RootState, tag: Byte, g: Link)
    requires ValidConfig(cfg) && cfg.maxBlockSize == 71 && tag in cfg.maxSizes && cfg.maxSizes[tag] >= 145
    requires rs.schema == Some(MkSchema(71, 150))
    ensures Judge(cfg, rs, [1, 2], TwinChild(g)) == Malformed(Single(g, [3]))
  {
    hide ReadBlock, ReadRootData, FirstChildId, TwinChild, MkSchema, GoodPrefix, RecordAll, RecordLinks, Single;
    TwinTable(cfg, tag);
    TwinSchema();
    TwinChildReads(g);
    var block, s := TwinChild(g), MkSchema(71, 150);
    assert FitsAt(s, block, 1) && !FitsAt(s, block, 2);
    GoodOne(s, block, 1, [2]);
    assert [1] + [2] == [1, 2];
    RecordAtOne(cfg.depths, [g], 1);
    RecordOnce(g);
  }

  lemma TwinChildReads(g: Link)
    ensures ReadBlock(TwinChild(g)) == Parsed([g], ToBytes(0, 37)) && |TwinChild(g)| == 71
  {
    ReadEncode([g], ToBytes(0, 37));
  }

  /** A concrete run: a kick-start and two block arrivals, the second a late mismatch. If no other root
      awaits the mismatching block, its child cannot be requested and, unless stored, ends the process;
      if the process goes on, the child stays awaited for a root that is not live any more. */
  lemma LateMismatchLeavesEntries(cfg: Config, r: Link, c: Link, g: Link, tag: Byte)
    requires ValidConfig(cfg) && cfg.maxBlockSize == 71 && tag in cfg.maxSizes && cfg.maxSizes[tag] >= 145
    requires r != c
    ensures var start := Machine(map[], RootView(None, map[], None, 0, 0));
      var m1 := Act(cfg, r, start, Kick(r, tag, false, false));
      var m2 := Act(cfg, r, m1, Consume(r, TwinRoot(tag, c)));
      var m3 := Act(cfg, r, m2, Consume(c, TwinChild(g)));
      && RootInv(cfg, r, m2)
      && (forall w: World | w(r) == m2 && forall q :: q != r ==> c !in w(q).view.entries ::
            Panics(cfg, w, c, TwinChild(g)) <==> g != r && g != c)
      && m3.view == RootView(None, Single(g, [3]), Some(Partial), 1, 0)
      && !RootInv(cfg, r, m3)
  {
    hide ReadBlock, ReadRootData, Judge, Count, Growing, Merge, TwinRoot, TwinChild, Panics;
    var start := Machine(map[], RootView(None, map[], None, 0, 0));
    var a1, a2, a3 := Kick(r, tag, false, false), Consume(r, TwinRoot(tag, c)), Consume(c, TwinChild(g));
    var m1 := Act(cfg, r, start, a1);
    KickKeepsExactly(cfg, r, start, a1);
    assert m1.view == RootView(Some(RootState({r}, None, tag, 1)), Single(r, [0]), Some(Partial), 0, 0);
    TwinRootVerdict(cfg, m1.view.live.value, tag, c);
    AcceptedStep(cfg, r, m1, r, TwinRoot(tag, c));
    TwinCounts(r, c);
    var m2 := Act(cfg, r, m1, a2);
    TwinRootConsumed(cfg, r, m1, tag, c);
    TwinChildVerdict(cfg, m2.view.live.value, tag, g);
    MalformedStep(cfg, r, m2, c, TwinChild(g));
    MalformedCounts(cfg, r, m2, c, TwinChild(g));
    assert g in Single(g, [3]);
    assert m2.store.Keys == {r};
    forall w: World | w(r) == m2 && forall q :: q != r ==> c !in w(q).view.entries
      ensures Panics(cfg, w, c, TwinChild(g)) <==> g != r && g != c
    {
      TwinPanics(cfg, w, r, c, g);
    }
  }

  lemma TwinPanics(cfg: Config, w: World, r: Link, c: Link, g: Link)
    requires cfg.maxBlockSize > 2 + LINK_SIZE && (forall q :: q != r ==> c !in w(q).view.entries)
    requires w(r).store.Keys == {r} && w(r).view.live.Some? && c in w(r).view.entries
    requires Judge(cfg, w(r).view.live.value, w(r).view.entries[c], TwinChild(g)) == Malformed(Single(g, [3]))
    ensures Panics(cfg, w, c, TwinChild(g)) <==> g != r && g != c
  {
    hide ReadBlock, Judge, RecordsChildren, LateMismatch, TwinChild;
    TwinChildReads(g);
    assert g in Single(g, [3]);
    KidsExactly(cfg, w(r).view.live.value, w(r).view.entries[c], TwinChild(g));
    assert MismatchesFor(cfg, w(r), c, TwinChild(g)) && RecordsFor(cfg, w(r), c, TwinChild(g));
    if g != r && g != c {
      assert Requests(cfg, w(r), c, TwinChild(g), g);
    }
  }

  lemma MalformedCounts(cfg: Config, r: Link, m: Machine, id: Link, block: seq<Byte>)
    requires cfg.maxBlockSize > 2 + LINK_SIZE && m.view.live.Some? && id in m.view.entries
    requires Judge(cfg, m.view.live.value, m.view.entries[id], block).Malformed?
    ensures var v := Act(cfg, r, m, Consume(id, block)).view; v.broken == m.view.broken + 1 && v.added == m.view.added
  {
    hide Judge, Merge, Count;
  }

  lemma TwinRootConsumed(cfg: Config, r: Link, m1: Machine, tag: Byte, c: Link)
    requires cfg.maxBlockSize == 71
    requires m1.view == RootView(Some(RootState({r}, None, tag, 1)), Single(r, [0]), Some(Partial), 0, 0)
    requires Judge(cfg, m1.view.live.value, [0], TwinRoot(tag, c)) == Accepted(MkSchema(71, 150), Single(c, [1, 2]))
    ensures var v := Act(cfg, r, m1, Consume(r, TwinRoot(tag, c))).view;
      && v.live.Some? && v.live.value.schema == Some(MkSchema(71, 150))
      && v.entries == Single(c, [1, 2]) && v.status == Some(Partial) && v.broken == 0 && v.added == 0
  {
    hide Judge, MkSchema, TwinRoot, Merge, Count;
    TwinCounts(r, c);
  }

  lemma TwinCounts(r: Link, c: Link)
    ensures Count(Single(c, [1, 2])) == 2 && Merge(Single(r, [0]) - {r}, Single(c, [1, 2])) == Single(c, [1, 2])
  {
    var kids := Single(c, [1, 2]);
    WeightRemove(kids, c, One);
    SeqWeightOne([1, 2]);
    assert kids - {c} == map[];
    EmptyWeight(One);
    assert Single(r, [0]) - {r} == map[];
    MergeIntoNothing(kids, c);
  }

  lemma MergeIntoNothing(kids: Entries, c: Link)
    requires kids.Keys == {c}
    ensures Merge(map[], kids) == kids
  {
    assert [] + kids[c] == kids[c];
  }
}
