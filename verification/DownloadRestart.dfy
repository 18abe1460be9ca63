/** A restarted download: the event loop, run on a tree of one root block and three leaves, sets the
    root Full although one leaf never arrived. */
module DownloadRestart {
  import opened Options
  import opened LittleEndian
  import opened Schema
  import opened DepthIndices
  import opened BlockCodec
  import opened BlockTree
  import opened Weights
  import opened RootMachine
  import opened DownloadSafety
  import opened DownloadCompleteness
  import opened DownloaderState
  import opened DownloadPanic
  import opened DownloadEpisodes
  import opened Downloader
  import opened DownloadLoop
  import opened DownloadGuarantees
  import opened RestartLaw

  // ----- the blocks -----

  /** A tree of four blocks for a blob of 236 bytes: its links and the data of its first two leaves. */
  datatype Fan = Fan(cfg: Config, tag: Byte, r: Link, c1: Link, c2: Link, c3: Link, d1: seq<Byte>, d2: seq<Byte>) {
    ghost predicate Legal()
      ensures Legal() ==> cfg.maxBlockSize > 2 + LINK_SIZE
    {
      && ValidConfig(cfg) && cfg.maxBlockSize == 103 && tag in cfg.maxSizes && cfg.maxSizes[tag] >= 235
      && r != c1 && r != c2 && r != c3 && c1 != c2 && c1 != c3 && c2 != c3
      && |d1| == 101 && |d2| == 101
    }

    function RootBlock(): seq<Byte> { EncodeBlock([c1, c2, c3], [236, 0, 0, 0, tag]) }

    function Leaf(d: seq<Byte>): seq<Byte> { EncodeBlock([], d) }
  }

  function FanShape(): BlockSchema { BlockSchema(4, 1, 0, 33, 103, 3) }

  lemma FanSchema()
    ensures MkSchema(103, 240) == FanShape()
  {}

  lemma RootReads(t: Fan)
    requires t.Legal()
    ensures ReadBlock(t.RootBlock()) == Parsed([t.c1, t.c2, t.c3], [236, 0, 0, 0, t.tag])
    ensures ReadRootData(t.cfg, t.tag, [236, 0, 0, 0, t.tag]) == Some(FanShape())
    ensures FitsAt(FanShape(), t.RootBlock(), 0)
  {
    hide ReadBlock;
    ReadEncode([t.c1, t.c2, t.c3], [236, 0, 0, 0, t.tag]);
    FanSchema();
    var data: seq<Byte> := [236, 0, 0, 0, t.tag];
    assert data[..4] == [236, 0, 0, 0];
    var b: seq<Byte> := [236, 0, 0, 0];
    assert FromBytes(b) == 236 by {
      assert b[1..] == [0, 0, 0] && b[1..][1..] == [0, 0] && b[1..][1..][1..] == [0] && b[1..][1..][1..][1..] == [];
    }
  }

  lemma LeafReads(t: Fan, d: seq<Byte>, i: Index)
    requires t.Legal() && |d| == 101 && 1 <= i <= 2
    ensures ReadBlock(t.Leaf(d)) == Parsed([], d) && FitsAt(FanShape(), t.Leaf(d), i)
  {
    hide ReadBlock;
    ReadEncode([], d);
  }

  // ----- the verdicts -----

  /** What is awaited once the root block is consumed: each leaf at its own index. */
  function Leaves(t: Fan): Entries {
    map[t.c1 := [1], t.c2 := [2], t.c3 := [3]]
  }

  lemma RecordLeaves(t: Fan)
    requires t.Legal()
    ensures RecordLinks(map[], [t.c1, t.c2, t.c3], 1, 3) == Leaves(t)
  {
    var e: Entries := map[];
    var links: seq<Link> := [t.c1, t.c2, t.c3];
    assert [] + [1] == [1] && [] + [2] == [2] && [] + [3] == [3];
    assert RecordLinks(e, links, 1, 0) == e;
    assert RecordLinks(e, links, 1, 1) == AddIndex(e, t.c1, 1) == map[t.c1 := [1]];
    assert RecordLinks(e, links, 1, 2) == AddIndex(map[t.c1 := [1]], t.c2, 2) == map[t.c1 := [1], t.c2 := [2]];
    assert RecordLinks(e, links, 1, 3) == AddIndex(map[t.c1 := [1], t.c2 := [2]], t.c3, 3);
  }

  lemma RootFirstChild(t: Fan)
    requires t.Legal()
    ensures FirstChildId(t.cfg.depths, 0) == 1
  {
    hide FirstChildId;
    FanSchema();
    assert SchemaFor(t.cfg, FanShape(), 240);
    TableGivesChildren(t.cfg, FanShape(), 240, 0);
  }

  lemma RootVerdict(t: Fan, rs: RootState)
    requires t.Legal() && rs.tag == t.tag
    ensures Judge(t.cfg, rs, [0], t.RootBlock()) == Accepted(FanShape(), Leaves(t))
  {
    hide ReadBlock, ReadRootData, FirstChildId, FitsAt, RecordLinks, Leaves;
    RootReads(t);
    RootFirstChild(t);
    RecordLeaves(t);
    assert [0][1..] == [] && [0][..0] == [];
    assert GoodPrefix(FanShape(), t.RootBlock(), []) == [];
    assert GoodPrefix(FanShape(), t.RootBlock(), [0]) == [0] + [] == [0];
    var links: seq<Link> := [t.c1, t.c2, t.c3];
    assert RecordAll(t.cfg.depths, map[], links, []) == map[];
    assert RecordAll(t.cfg.depths, map[], links, [0]) == RecordLinks(map[], links, 1, 3);
  }

  lemma LeafVerdict(t: Fan, rs: RootState, d: seq<Byte>, ixs: seq<Index>)
    requires t.Legal() && |d| == 101 && rs.schema == Some(FanShape())
    requires ixs == [1] || ixs == [2, 2]
    ensures Judge(t.cfg, rs, ixs, t.Leaf(d)) == Accepted(FanShape(), map[])
    ensures !RecordsChildren(t.cfg, rs, ixs, t.Leaf(d))
  {
    hide ReadBlock, ReadRootData, FirstChildId, FitsAt, RecordLinks, RecordAll;
    LeafReads(t, d, 1);
    LeafReads(t, d, 2);
    var s, b := FanShape(), t.Leaf(d);
    assert GoodPrefix(s, b, []) == [];
    if ixs == [1] {
      assert ixs[1..] == [] && [1] + [] == [1];
    } else {
      assert ixs[1..] == [2] && [2][1..] == [] && [2] + [] == [2];
      assert GoodPrefix(s, b, [2]) == [2];
      assert [2] + [2] == [2, 2];
    }
    KidsExactly(t.cfg, rs, ixs, b);
  }

  // ----- the stages of the download -----

  function All(t: Fan): set<Link> { {t.r, t.c1, t.c2, t.c3} }

  function Live(t: Fan, entries: Entries, known: bool, counter: int): RootView {
    var rs := if known then RootState(All(t), Some(FanShape()), t.tag, counter) else RootState({t.r}, None, t.tag, 1);
    RootView(Some(rs), entries, Some(Partial), 0, 0)
  }

  /** Kicked; root block consumed; first leaf consumed. */
  function Stage1(t: Fan): RootView { Live(t, map[t.r := [0]], false, 1) }
  function Stage2(t: Fan): RootView { Live(t, Leaves(t), true, 3) }
  function Stage3(t: Fan): RootView { Live(t, map[t.c2 := [2], t.c3 := [3]], true, 2) }

  /** Kicked again: what the first download awaits stays listed and is listed once more. */
  function Stage4(t: Fan): RootView { Live(t, map[t.r := [0], t.c2 := [2], t.c3 := [3]], false, 1) }
  function Stage5(t: Fan): RootView { Live(t, map[t.c1 := [1], t.c2 := [2, 2], t.c3 := [3, 3]], true, 3) }
  function Stage6(t: Fan): RootView { Live(t, map[t.c2 := [2, 2], t.c3 := [3, 3]], true, 2) }

  /** Reported Full once the second leaf is consumed. */
  function Stage7(): RootView { RootView(None, map[], Some(Full), 0, 1) }

  lemma CountOf(e: Entries, l: Link, ixs: seq<Index>)
    requires l !in e
    ensures Count(e[l := ixs]) == Count(e) + |ixs|
  {
    WeightUpdate(e, l, ixs, One);
    SeqWeightOne(ixs);
  }

  lemma CountLeaves(t: Fan)
    requires t.Legal()
    ensures Count(Leaves(t)) == 3
  {
    hide Weight;
    var e: Entries := map[];
    EmptyWeight(One);
    CountOf(e, t.c1, [1]);
    CountOf(map[t.c1 := [1]], t.c2, [2]);
    CountOf(map[t.c1 := [1], t.c2 := [2]], t.c3, [3]);
    assert Leaves(t) == map[t.c1 := [1], t.c2 := [2]][t.c3 := [3]];
  }

  /** The root block is accepted and lists the leaves behind what is listed already. */
  lemma RootConsumed(t: Fan, e: Entries)
    requires t.Legal() && t.r in e && e[t.r] == [0]
    ensures ConsumeView(t.cfg, Live(t, e, false, 1), t.r, t.RootBlock()) ==
      Live(t, Merge(e - {t.r}, Leaves(t)), true, 3)
  {
    hide Judge, Merge, Weight, Leaves;
    RootVerdict(t, Live(t, e, false, 1).live.value);
    CountLeaves(t);
    LeafKeys(t);
    assert {t.r} + {t.c1, t.c2, t.c3} == All(t);
  }

  lemma LeafKeys(t: Fan)
    ensures Leaves(t).Keys == {t.c1, t.c2, t.c3}
  {}

  /** A leaf is accepted and lists nothing. */
  lemma LeafConsumed(t: Fan, e: Entries, counter: int, c: Link, d: seq<Byte>)
    requires t.Legal() && |d| == 101 && c in e && (e[c] == [1] || e[c] == [2, 2])
    ensures var v := Live(t, e - {c}, true, counter - |e[c]|);
      ConsumeView(t.cfg, Live(t, e, true, counter), c, t.Leaf(d)) ==
        if counter == |e[c]| then RootView(None, (e - {c}) - All(t), Some(Full), 0, 1) else v
  {
    hide Judge, Merge, Weight;
    LeafVerdict(t, Live(t, e, true, counter).live.value, d, e[c]);
    MergeEmpty(e - {c});
    EmptyWeight(One);
    var none: Entries := map[];
    assert none.Keys == {} && All(t) + none.Keys == All(t);
    assert Count(none) == 0;
  }

  lemma LeavesAlone(t: Fan)
    ensures Merge(map[], Leaves(t)) == Leaves(t)
  {
    var e := Leaves(t);
    forall l | l in e ensures Merge(map[], e)[l] == e[l] { assert [] + e[l] == e[l]; }
  }

  lemma LeavesTwice(t: Fan)
    requires t.Legal()
    ensures Merge(map[t.c2 := [2], t.c3 := [3]], Leaves(t)) == map[t.c1 := [1], t.c2 := [2, 2], t.c3 := [3, 3]]
  {
    var rest: Entries := map[t.c2 := [2], t.c3 := [3]];
    var twice: Entries := map[t.c1 := [1], t.c2 := [2, 2], t.c3 := [3, 3]];
    var both := Merge(rest, Leaves(t));
    forall l ensures (l in both <==> l in twice) && (l in twice ==> both[l] == twice[l]) {
      LeafTwice(t.c1, t.c2, t.c3, rest, Leaves(t), twice, l);
    }
  }

  lemma LeafTwice(c1: Link, c2: Link, c3: Link, rest: Entries, leaves: Entries, twice: Entries, l: Link)
    requires c1 != c2 && c1 != c3 && c2 != c3
    requires rest == map[c2 := [2], c3 := [3]] && leaves == map[c1 := [1], c2 := [2], c3 := [3]]
    requires twice == map[c1 := [1], c2 := [2, 2], c3 := [3, 3]]
    ensures l in Merge(rest, leaves) <==> l in twice
    ensures l in twice ==> Merge(rest, leaves)[l] == twice[l]
  {
    hide Merge;
    MergeAt(rest, leaves, l);
    if l == c1 {
      assert Part(rest, l) == [] && Part(leaves, l) == [1] && [] + [1] == [1];
    } else if l == c2 {
      assert Part(rest, l) == [2] && Part(leaves, l) == [2] && [2] + [2] == [2, 2];
    } else if l == c3 {
      assert Part(rest, l) == [3] && Part(leaves, l) == [3] && [3] + [3] == [3, 3];
    }
  }

  lemma Step12(t: Fan)
    requires t.Legal()
    ensures ConsumeView(t.cfg, Stage1(t), t.r, t.RootBlock()) == Stage2(t)
  {
    hide ConsumeView, Leaves, Merge;
    RootConsumed(t, map[t.r := [0]]);
    var none: Entries := map[];
    assert map[t.r := [0]] - {t.r} == none;
    LeavesAlone(t);
  }

  lemma Step23(t: Fan)
    requires t.Legal()
    ensures ConsumeView(t.cfg, Stage2(t), t.c1, t.Leaf(t.d1)) == Stage3(t)
  {
    hide ConsumeView;
    LeafConsumed(t, Leaves(t), 3, t.c1, t.d1);
    assert Leaves(t) - {t.c1} == map[t.c2 := [2], t.c3 := [3]];
  }

  lemma Step34(t: Fan)
    requires t.Legal()
    ensures KickView(Stage3(t), t.r, t.tag, false, false) == Stage4(t)
  {
    assert map[t.c2 := [2], t.c3 := [3]][t.r := [0]] == map[t.r := [0], t.c2 := [2], t.c3 := [3]];
  }

  lemma WithoutRoot(r: Link, c2: Link, c3: Link)
    requires r != c2 && r != c3
    ensures map[r := [0], c2 := [2], c3 := [3]] - {r} == map[c2 := [2], c3 := [3]]
  {}

  lemma Step45(t: Fan)
    requires t.Legal()
    ensures ConsumeView(t.cfg, Stage4(t), t.r, t.RootBlock()) == Stage5(t)
  {
    hide ConsumeView, Leaves, Merge;
    RootConsumed(t, map[t.r := [0], t.c2 := [2], t.c3 := [3]]);
    WithoutRoot(t.r, t.c2, t.c3);
    LeavesTwice(t);
  }

  lemma Step56(t: Fan)
    requires t.Legal()
    ensures ConsumeView(t.cfg, Stage5(t), t.c1, t.Leaf(t.d1)) == Stage6(t)
  {
    hide ConsumeView;
    var e: Entries := map[t.c1 := [1], t.c2 := [2, 2], t.c3 := [3, 3]];
    LeafConsumed(t, e, 3, t.c1, t.d1);
    assert e - {t.c1} == map[t.c2 := [2, 2], t.c3 := [3, 3]];
  }

  lemma Step67(t: Fan)
    requires t.Legal()
    ensures ConsumeView(t.cfg, Stage6(t), t.c2, t.Leaf(t.d2)) == Stage7()
  {
    hide ConsumeView;
    var e: Entries := map[t.c2 := [2, 2], t.c3 := [3, 3]];
    LeafConsumed(t, e, 2, t.c2, t.d2);
    assert (e - {t.c2}) - All(t) == map[];
  }

  // ----- what the law of restarts says of it -----

  lemma CountTwo(c2: Link, c3: Link, x: seq<Index>, y: seq<Index>)
    requires c2 != c3
    ensures Count(map[c2 := x, c3 := y]) == |x| + |y| && Count(map[c3 := y]) == |y|
  {
    hide Weight;
    var e: Entries := map[];
    EmptyWeight(One);
    CountOf(e, c3, y);
    assert e[c3 := y] == map[c3 := y];
    CountOf(map[c3 := y], c2, x);
    assert map[c3 := y][c2 := x] == map[c2 := x, c3 := y];
  }

  /** The second kick-start finds two indices listed, and falls short by them. */
  lemma RestartIsShort(t: Fan)
    requires t.Legal()
    ensures Short(Stage4(t), 2)
  {
    hide Weight;
    CountTwo(t.c2, t.c3, [2], [3]);
    KickFallsShort(Stage3(t), t.r, t.tag);
    Step34(t);
  }

  /** The second leaf leaves two indices listed, those of the third. */
  lemma SecondLeafFinishes(t: Fan)
    requires t.Legal()
    ensures Short(Stage6(t), 2) && Finishes(t.cfg, Stage6(t), t.c2, t.Leaf(t.d2), 2)
  {
    hide Weight, Judge, Merge;
    CountTwo(t.c2, t.c3, [2, 2], [3, 3]);
    LeafVerdict(t, Stage6(t).live.value, t.d2, [2, 2]);
    var rest: Entries := map[t.c3 := [3, 3]];
    assert Stage6(t).entries - {t.c2} == rest;
    MergeEmpty(rest);
  }

  function RootArrives(t: Fan): Action { Consume(t.r, t.RootBlock()) }
  function Leaf1Arrives(t: Fan): Action { Consume(t.c1, t.Leaf(t.d1)) }
  function Leaf2Arrives(t: Fan): Action { Consume(t.c2, t.Leaf(t.d2)) }

  function FirstTwo(t: Fan): Blocks { map[t.r := t.RootBlock(), t.c1 := t.Leaf(t.d1)] }

  lemma RunThree(cfg: Config, r: Link, m: Machine, a: Action, b: Action, c: Action)
    requires cfg.maxBlockSize > 2 + LINK_SIZE
    ensures Run(cfg, r, m, [a, b, c][..2]) == Act(cfg, r, Act(cfg, r, m, a), b)
    ensures Run(cfg, r, m, [a, b, c]) == Act(cfg, r, Act(cfg, r, Act(cfg, r, m, a), b), c)
  {
    hide Act;
    assert [a, b, c][..2] == [a, b] && [a, b][..1] == [a];
    RunOne(cfg, r, m, a);
  }

  /** The first download, up to its first leaf. */
  lemma FirstLife(t: Fan)
    requires t.Legal()
    ensures Run(t.cfg, t.r, Machine(map[], RootView(None, map[], None, 0, 0)),
                [Kick(t.r, t.tag, false, false), RootArrives(t), Leaf1Arrives(t)]) == Machine(FirstTwo(t), Stage3(t))
  {
    hide ConsumeView, Leaves;
    RunThree(t.cfg, t.r, Machine(map[], RootView(None, map[], None, 0, 0)),
             Kick(t.r, t.tag, false, false), RootArrives(t), Leaf1Arrives(t));
    Step12(t);
    Step23(t);
    var none: Entries := map[];
    assert none[t.r := [0]] == map[t.r := [0]];
  }

  /** The second download, from its kick-start on. */
  lemma SecondLife(t: Fan)
    requires t.Legal()
    ensures var m := Machine(FirstTwo(t), Stage4(t)); var acts := [RootArrives(t), Leaf1Arrives(t), Leaf2Arrives(t)];
      && Run(t.cfg, t.r, m, acts[..2]).view == Stage6(t)
      && Run(t.cfg, t.r, m, acts) == Machine(FirstTwo(t)[t.c2 := t.Leaf(t.d2)], Stage7())
  {
    hide ConsumeView, Leaves;
    var m := Machine(FirstTwo(t), Stage4(t));
    RunThree(t.cfg, t.r, m, RootArrives(t), Leaf1Arrives(t), Leaf2Arrives(t));
    Step45(t);
    Step56(t);
    Step67(t);
    assert FirstTwo(t)[t.r := t.RootBlock()] == FirstTwo(t) && FirstTwo(t)[t.c1 := t.Leaf(t.d1)] == FirstTwo(t);
  }

  /** By the law of restarts the second leaf, which leaves as many indices as the kick-start fell short
      by, makes the root Full. */
  lemma SecondLifeIsFull(t: Fan)
    requires t.Legal()
    ensures var m := Machine(FirstTwo(t), Stage4(t)); var acts := [RootArrives(t), Leaf1Arrives(t), Leaf2Arrives(t)];
      && Short(m.view, 2) && FinishesAt(t.cfg, t.r, m, acts, 2, 2)
      && Run(t.cfg, t.r, m, acts).view.status == Some(Full)
  {
    hide Run, Short, Finishes, Stage6;
    var m, acts := Machine(FirstTwo(t), Stage4(t)), [RootArrives(t), Leaf1Arrives(t), Leaf2Arrives(t)];
    RestartIsShort(t);
    SecondLife(t);
    SecondLeafFinishes(t);
    assert FinishesAt(t.cfg, t.r, m, acts, 2, 2);
    FullExactlyWhenLeft(t.cfg, t.r, m, acts, 2);
  }

  /** A run of one root's machine, with a second kick-start, that sets the root Full with the third
      leaf never seen: what soundness says of a Full root is false of it. The kick-start falls short
      by two, and the second leaf leaves two indices. */
  lemma RestartReportsFull(t: Fan)
    requires t.Legal()
    ensures var kick := Kick(t.r, t.tag, false, false);
      var start := Machine(map[], RootView(None, map[], None, 0, 0));
      var m4 := Act(t.cfg, t.r, Run(t.cfg, t.r, start, [kick, RootArrives(t), Leaf1Arrives(t)]), kick);
      var acts := [RootArrives(t), Leaf1Arrives(t), Leaf2Arrives(t)];
      var m7 := Run(t.cfg, t.r, m4, acts);
      && Short(m4.view, 2) && FinishesAt(t.cfg, t.r, m4, acts, 2, 2)
      && m7.view == Stage7() && t.c3 !in m7.store && !Downloaded(t.cfg, m7.store, t.r, t.tag)
  {
    hide Run, Downloaded, Short, Finishes, Stage3, Stage4, Stage6;
    FirstLife(t);
    Step34(t);
    SecondLifeIsFull(t);
    SecondLife(t);
    LeafMissing(t, FirstTwo(t)[t.c2 := t.Leaf(t.d2)]);
  }

  /** The root block links to the third leaf, so without it the tree is not there. */
  lemma LeafMissing(t: Fan, store: Blocks)
    requires t.Legal() && t.r in store && store[t.r] == t.RootBlock() && t.c3 !in store
    ensures !Downloaded(t.cfg, store, t.r, t.tag)
  {
    hide ReadBlock, ReadRootData;
    RootReads(t);
    if Downloaded(t.cfg, store, t.r, t.tag) {
      var s, tree :| RootRead(t.cfg, store, t.r, t.tag, s)
        && IsBlockTree(store, s, tree) && |tree| > 0 && tree[0] == t.r;
      ChildIsStored(store, s, tree, 0, 2);
    }
  }

  lemma ChildIsStored(store: Blocks, s: BlockSchema, tree: seq<Link>, i: nat, c: nat)
    requires IsBlockTree(store, s, tree) && i < |tree| && c < s.LinkCount(i)
    ensures tree[i] in store && FitsAt(s, store[tree[i]], i) && ReadBlock(store[tree[i]]).links[c] in store
  {
    hide ReadBlock, Child;
    assert NodeAt(store, s, tree, i);
    assert NodeAt(store, s, tree, Child(s, i, c));
  }

  // ----- the same through the event loop -----

  /** The store, and what a run does with blocks that are in it. */
  ghost predicate Holds(t: Fan, store: Blocks, known: set<Link>) {
    && store.Keys == known
    && (t.r in known ==> store[t.r] == t.RootBlock())
    && (t.c1 in known ==> store[t.c1] == t.Leaf(t.d1))
    && (t.c2 in known ==> store[t.c2] == t.Leaf(t.d2))
  }

  /** Stored blocks that are not awaited change nothing. */
  lemma {:induction false} NothingAwaited(cfg: Config, r: Link, m: Machine, acts: seq<Action>)
    requires cfg.maxBlockSize > 2 + LINK_SIZE && AllStored(acts, m.store) && Quiet(m)
    ensures Run(cfg, r, m, acts) == m
  {
    if acts != [] {
      var n := |acts| - 1;
      NothingAwaited(cfg, r, m, acts[..n]);
      NotListedHere(cfg, r, m, acts[n].id);
    }
  }

  /** After the second kick-start, the stored root block and first leaf lead on, in whatever order. */
  lemma {:induction false} Restarted(t: Fan, m: Machine, acts: seq<Action>)
    requires t.Legal() && m.view == Stage4(t) && Holds(t, m.store, {t.r, t.c1}) && AllStored(acts, m.store)
    ensures var m' := Run(t.cfg, t.r, m, acts);
      m'.store == m.store && (m'.view == Stage4(t) || m'.view == Stage5(t) || m'.view == Stage6(t))
  {
    hide ConsumeView, Stage4, Stage5, Stage6;
    if acts != [] {
      var n := |acts| - 1;
      Restarted(t, m, acts[..n]);
      var at, a := Run(t.cfg, t.r, m, acts[..n]), acts[n];
      assert m.store[a.id := a.block] == m.store;
      assert a.id in m.store.Keys;
      Step45(t);
      Step56(t);
      RestartedKeys(t);
      if a.id !in at.view.entries { NotListedHere(t.cfg, t.r, at, a.id); }
    }
  }

  lemma RestartedKeys(t: Fan)
    requires t.Legal()
    ensures t.c1 !in Stage4(t).entries && t.r !in Stage5(t).entries
    ensures t.c1 !in Stage6(t).entries && t.r !in Stage6(t).entries
    ensures t.r in Stage4(t).entries && t.c1 in Stage5(t).entries
  {}

  /** No stage of the download has a late mismatch. */
  ghost predicate Stage(t: Fan, v: RootView) {
    || v == Stage1(t) || v == Stage2(t) || v == Stage3(t)
    || v == Stage4(t) || v == Stage5(t) || v == Stage6(t) || v == Stage7()
  }

  lemma StageHasNoMismatch(t: Fan, m: Machine, id: Link, block: seq<Byte>)
    requires t.Legal() && Stage(t, m.view) && (id == t.c2 ==> block == t.Leaf(t.d2)) && id != t.c3
    ensures !MismatchesFor(t.cfg, m, id, block)
  {
    hide ReadBlock, ReadRootData, FitsAt;
    if m.view.live.Some? && id in m.view.entries && |m.view.entries[id]| > 1 {
      assert id == t.c2 && m.view.entries[id] == [2, 2];
      LeafVerdict(t, m.view.live.value, t.d2, [2, 2]);
    }
  }

  /** The downloader at rest, with only this root awaiting anything. */
  ghost predicate At(t: Fan, st: State, v: RootView, known: set<Link>) {
    && ViewOf(st, t.r) == v && Holds(t, st.store, known) && t.c3 !in known
    && (forall q :: q != t.r ==> EntriesOf(st.params, q) == map[])
  }

  /** One action on the root's behalf, then blocks of the store. */
  ghost predicate Begun(t: Fan, first: Action, acts: seq<Action>, store: Blocks) {
    acts != [] && acts[0] == first && (first.Kick? ==> first.root == t.r) && AllStored(acts[1..], store)
  }

  lemma OthersStayIdle(t: Fan, s0: State, first: Action, acts: seq<Action>, store: Blocks, s1: State)
    requires t.Legal() && Acted(t.cfg, s0, acts, s1) && Begun(t, first, acts, store)
    requires forall q :: q != t.r ==> EntriesOf(s0.params, q) == map[]
    ensures forall q :: q != t.r ==> EntriesOf(s1.params, q) == map[]
  {
    hide EntriesOf, Run;
    forall q | q != t.r ensures EntriesOf(s1.params, q) == map[] {
      forall i | 1 <= i < |acts| ensures !acts[i].Kick? { assert acts[i] == acts[1..][i - 1]; }
      StaysIdle(t.cfg, q, MachineOf(s0, q), acts);
      ActedAt(t.cfg, s0, acts, s1, q);
    }
  }

  lemma RunAfterFirst(cfg: Config, r: Link, m: Machine, acts: seq<Action>)
    requires cfg.maxBlockSize > 2 + LINK_SIZE && acts != []
    ensures Run(cfg, r, m, acts) == Run(cfg, r, Act(cfg, r, m, acts[0]), acts[1..])
  {
    hide Act;
    assert acts == [acts[0]] + acts[1..];
    RunConcat(cfg, r, m, [acts[0]], acts[1..]);
    RunOne(cfg, r, m, acts[0]);
  }

  /** If nothing stored is awaited after the first action, that is all that happens. */
  lemma Settles(t: Fan, s0: State, first: Action, acts: seq<Action>, s1: State, v: RootView, known: set<Link>)
    requires t.Legal() && Acted(t.cfg, s0, acts, s1) && Begun(t, first, acts, s1.store)
    requires forall q :: q != t.r ==> EntriesOf(s0.params, q) == map[]
    requires Act(t.cfg, t.r, MachineOf(s0, t.r), first) == Machine(s1.store, v) && Quiet(Machine(s1.store, v))
    requires Holds(t, s1.store, known) && t.c3 !in known
    ensures At(t, s1, v, known)
  {
    hide EntriesOf, Run, Act;
    OthersStayIdle(t, s0, first, acts, s1.store, s1);
    ActedAt(t.cfg, s0, acts, s1, t.r);
    RunAfterFirst(t.cfg, t.r, MachineOf(s0, t.r), acts);
    NothingAwaited(t.cfg, t.r, Machine(s1.store, v), acts[1..]);
  }

  /** A block that is no late mismatch for this root does not end the process. */
  lemma CannotPanic(t: Fan, s0: State, first: Action, acts: seq<Action>, reached: State, out: Outcome, s1: State,
                    known: set<Link>)
    requires t.Legal() && Interrupted(t.cfg, s0, first, acts, reached, out, s1)
    requires first.Kick? ==> first.root == t.r
    requires first.Consume? ==> first.id in s1.store && s1.store[first.id] == first.block
    requires forall q :: q != t.r ==> EntriesOf(s0.params, q) == map[]
    requires Holds(t, s1.store, known) && t.c3 !in known
    ensures !Stage(t, ViewOf(reached, t.r))
  {
    hide EntriesOf, Run, Stage, Acted, Panics, LateMismatch;
    var all := WithLast(acts, out);
    assert out.id in s1.store && s1.store[out.id] == out.block by {
      if acts != [] { assert all[|acts|] == all[1..][|acts| - 1]; }
    }
    if acts == [] {
      Unmoved(t, s0, reached);
    } else {
      StoredPrefix(acts, all, s1.store);
      OthersStayIdle(t, s0, first, acts, s1.store, reached);
    }
    assert out.id in known;
    PanicNeedsMismatch(t.cfg, WorldOf(reached), out.id, out.block);
    var q :| MismatchesFor(t.cfg, WorldOf(reached)(q), out.id, out.block);
    if Stage(t, ViewOf(reached, t.r)) {
      StageHasNoMismatch(t, MachineOf(reached, t.r), out.id, out.block);
    }
  }

  lemma Unmoved(t: Fan, s0: State, s1: State)
    requires t.Legal() && Acted(t.cfg, s0, [], s1)
    ensures forall q :: EntriesOf(s1.params, q) == EntriesOf(s0.params, q)
  {
    forall q ensures EntriesOf(s1.params, q) == EntriesOf(s0.params, q) {
      ActedAt(t.cfg, s0, [], s1, q);
      assert MachineOf(s1, q) == MachineOf(s0, q);
    }
  }

  /** A kick-start ends the process only while it processes a stored block. */
  lemma PanicNeedsStored(t: Fan, s0: State, acts: seq<Action>, reached: State, out: Outcome, s1: State)
    requires t.Legal() && Interrupted(t.cfg, s0, Kick(t.r, t.tag, false, false), acts, reached, out, s1)
    ensures s1.store != map[]
  {
    hide Acted, Panics;
    var all := WithLast(acts, out);
    assert all[|acts|] == all[1..][|acts| - 1];
    assert out.id in s1.store;
  }

  /** A kick-start with nothing stored. */
  method FirstKick(ctx: BitswapCtx, t: Fan) returns (out: Outcome)
    requires t.Legal() && ctx.cfg == t.cfg && ctx.Valid()
    requires At(t, ctx.St(), RootView(None, map[], None, 0, 0), {}) && t.r !in ctx.nodeDownloadParams
    modifies ctx
    ensures out.Returned? && ctx.Valid() && At(t, ctx.St(), Stage1(t), {})
  {
    hide Sane, ValidConfig, Acted, EntriesOf, Panics, Run;
    ghost var s0, acts, reached := ctx.St(), [], ctx.St();
    out, acts, reached := ctx.KickStartRootDownload(t.r, t.tag, true);
    if out.Returned? {
      var none: Entries := map[];
      assert none[t.r := [0]] == map[t.r := [0]];
      Settles(t, s0, Kick(t.r, t.tag, false, false), acts, ctx.St(), Stage1(t), {});
    } else {
      PanicNeedsStored(t, s0, acts, reached, out, ctx.St());
      assert false;
    }
  }

  /** An arrival that leads from one stage to the next. */
  method Arrive(ctx: BitswapCtx, t: Fan, id: Link, block: seq<Byte>, ghost v: RootView, ghost v': RootView,
                ghost known: set<Link>)
    returns (out: Outcome)
    requires t.Legal() && ctx.cfg == t.cfg && ctx.Valid() && At(t, ctx.St(), v, known)
    requires Stage(t, v) && Stage(t, v') && ConsumeView(t.cfg, v, id, block) == v'
    requires Holds(t, ctx.store[id := block], known + {id}) && id != t.c3
    requires forall l :: l in v'.entries ==> l !in known + {id}
    modifies ctx
    ensures out.Returned? && ctx.Valid() && At(t, ctx.St(), v', known + {id})
  {
    hide Sane, ValidConfig, Acted, EntriesOf, Panics, Run, ConsumeView, Stage;
    ghost var s0, acts, reached := ctx.St(), [], ctx.St();
    out, acts, reached := ctx.ProcessDownloadedBlock(id, block);
    ghost var first := Consume(id, block);
    if out.Returned? {
      Settles(t, s0, first, acts, ctx.St(), v', known + {id});
    } else {
      if acts == [] {
        StandsStill(t, s0, reached);
      } else {
        StoredPrefix(acts, WithLast(acts, out), ctx.store);
        SettledPrefix(t, s0, first, acts, reached, ctx.store, v');
      }
      CannotPanic(t, s0, first, acts, reached, out, ctx.St(), known + {id});
      assert false;
    }
  }

  lemma StandsStill(t: Fan, s0: State, s1: State)
    requires t.Legal() && Acted(t.cfg, s0, [], s1)
    ensures ViewOf(s1, t.r) == ViewOf(s0, t.r)
  {
    ActedAt(t.cfg, s0, [], s1, t.r);
    assert MachineOf(s1, t.r) == MachineOf(s0, t.r);
  }

  lemma SettledPrefix(t: Fan, s0: State, first: Action, acts: seq<Action>, reached: State, store: Blocks, v: RootView)
    requires t.Legal() && Acted(t.cfg, s0, acts, reached) && acts != [] && acts[0] == first
    requires AllStored(acts[1..], store)
    requires Act(t.cfg, t.r, MachineOf(s0, t.r), first) == Machine(store, v) && Quiet(Machine(store, v))
    ensures ViewOf(reached, t.r) == v
  {
    hide EntriesOf, Run, Act;
    ActedAt(t.cfg, s0, acts, reached, t.r);
    RunAfterFirst(t.cfg, t.r, MachineOf(s0, t.r), acts);
    NothingAwaited(t.cfg, t.r, Machine(store, v), acts[1..]);
  }

  /** The second kick-start, with the root block and the first leaf stored. */
  method SecondKick(ctx: BitswapCtx, t: Fan) returns (out: Outcome)
    requires t.Legal() && ctx.cfg == t.cfg && ctx.Valid() && ctx.AtRest() && t.r !in ctx.nodeDownloadParams
    requires At(t, ctx.St(), Stage3(t), {t.r, t.c1})
    modifies ctx
    ensures out.Returned? && ctx.Valid() && At(t, ctx.St(), Stage6(t), {t.r, t.c1})
  {
    hide Sane, ValidConfig, Acted, EntriesOf, Panics, Run, Stage3, Stage4, Stage5, Stage6;
    ghost var s0, acts, reached := ctx.St(), [], ctx.St();
    out, acts, reached := ctx.KickStartRootDownload(t.r, t.tag, true);
    ghost var kick := Kick(t.r, t.tag, false, false);
    Step34(t);
    if out.Returned? {
      RestartedRun(t, s0, acts, reached);
      OthersStayIdle(t, s0, kick, acts, ctx.store, reached);
      RestIsQuiet(ctx.St(), t.r);
      RestartedKeys(t);
    } else {
      assert acts != [];
      StoredPrefix(acts, WithLast(acts, out), ctx.store);
      RestartedRun(t, s0, acts, reached);
      CannotPanic(t, s0, kick, acts, reached, out, ctx.St(), {t.r, t.c1});
      assert false;
    }
  }

  lemma RestartedRun(t: Fan, s0: State, acts: seq<Action>, reached: State)
    requires t.Legal() && At(t, s0, Stage3(t), {t.r, t.c1}) && Acted(t.cfg, s0, acts, reached)
    requires acts != [] && acts[0] == Kick(t.r, t.tag, false, false) && AllStored(acts[1..], s0.store)
    ensures reached.store == s0.store
    ensures var v := ViewOf(reached, t.r); v == Stage4(t) || v == Stage5(t) || v == Stage6(t)
  {
    hide EntriesOf, Run, Stage3, Stage4, Stage5, Stage6;
    Step34(t);
    ActedAt(t.cfg, s0, acts, reached, t.r);
    RunAfterFirst(t.cfg, t.r, MachineOf(s0, t.r), acts);
    Restarted(t, Machine(s0.store, Stage4(t)), acts[1..]);
  }

  /** With everything of the root awaited under blocks not stored, the downloader is at rest. */
  lemma AtRestHere(t: Fan, st: State, v: RootView, known: set<Link>)
    requires t.Legal() && Sane(t.cfg, st) && At(t, st, v, known) && forall l :: l in v.entries ==> l !in known
    ensures Overdue(st) == {} && forall l :: l in st.params ==> l in v.entries
  {
    forall l | l in st.params ensures l in v.entries {
      var q :| q in st.params[l];
      assert l in EntriesOf(st.params, q);
    }
  }

  /** Download, root block, first leaf. */
  method FirstDownload(t: Fan) returns (ctx: BitswapCtx)
    requires t.Legal()
    ensures fresh(ctx) && ctx.cfg == t.cfg && ctx.Valid() && ctx.AtRest() && t.r !in ctx.nodeDownloadParams
    ensures At(t, ctx.St(), Stage3(t), {t.r, t.c1})
  {
    hide ConsumeView, Sane, ValidConfig, Run, Stage1, Stage2, Stage3, Holds, EntriesOf;
    ctx := new BitswapCtx(t.cfg, map[], map[]);
    NewIsAtStart(t, ctx.St());
    AtRestHere(t, ctx.St(), RootView(None, map[], None, 0, 0), {});
    var out := FirstKick(ctx, t);
    Step12(t);
    StageKeys(t);
    HoldsMore(t, ctx.store, {}, t.r, t.RootBlock());
    out := Arrive(ctx, t, t.r, t.RootBlock(), Stage1(t), Stage2(t), {});
    Step23(t);
    HoldsMore(t, ctx.store, {} + {t.r}, t.c1, t.Leaf(t.d1));
    out := Arrive(ctx, t, t.c1, t.Leaf(t.d1), Stage2(t), Stage3(t), {} + {t.r});
    assert {} + {t.r} + {t.c1} == {t.r, t.c1};
    AtRestHere(t, ctx.St(), Stage3(t), {t.r, t.c1});
  }

  lemma StageKeys(t: Fan)
    ensures Stage2(t).entries.Keys == {t.c1, t.c2, t.c3} && Stage3(t).entries.Keys == {t.c2, t.c3}
  {}

  lemma HoldsMore(t: Fan, store: Blocks, known: set<Link>, id: Link, block: seq<Byte>)
    requires t.Legal() && Holds(t, store, known)
    requires
      || (id == t.r && block == t.RootBlock())
      || (id == t.c1 && block == t.Leaf(t.d1))
      || (id == t.c2 && block == t.Leaf(t.d2))
    ensures Holds(t, store[id := block], known + {id})
  {}

  lemma NewIsAtStart(t: Fan, st: State)
    requires t.Legal()
    requires forall r :: MachineOf(st, r) == Machine(map[], RootView(None, map[], None, 0, 0))
    ensures At(t, st, RootView(None, map[], None, 0, 0), {})
  {
    forall q ensures EntriesOf(st.params, q) == map[] {
      assert MachineOf(st, q).view.entries == EntriesOf(st.params, q);
    }
    assert MachineOf(st, t.r).view == ViewOf(st, t.r) && MachineOf(st, t.r).store == st.store;
  }

  /** Download, root block, first leaf, download again, second leaf: the downloader reports the root
      and records it Full, and the third leaf is not in the store. */
  method RestartedDownload(t: Fan) returns (ctx: BitswapCtx)
    requires t.Legal()
    ensures ctx.Valid() && Lookup(ctx.statuses, t.r) == Some(Full) && ctx.added[t.r] == 1
    ensures t.c3 !in ctx.store && !Downloaded(t.cfg, ctx.store, t.r, t.tag)
  {
    hide ConsumeView, Sane, ValidConfig, Run, EntriesOf, Downloaded, Stage6;
    ctx := FirstDownload(t);
    var out := SecondKick(ctx, t);
    Step67(t);
    HoldsMore(t, ctx.store, {t.r, t.c1}, t.c2, t.Leaf(t.d2));
    out := Arrive(ctx, t, t.c2, t.Leaf(t.d2), Stage6(t), Stage7(), {t.r, t.c1});
    assert ViewOf(ctx.St(), t.r) == Stage7();
    LeafMissing(t, ctx.store);
  }
}
