/** Safety of one root over the runs the event loop makes: episodes that start and end at rest, each a
    command or an arrival followed by whatever stored blocks it sets off. In such runs a root that met
    a late mismatch is doomed: no later download of it can come to an end. */
module DownloadEpisodes {
  import opened Options
  import opened LittleEndian
  import opened Schema
  import opened BlockCodec
  import opened BlockTree
  import opened Weights
  import opened RootMachine
  import opened TreeGrowth
  import opened DownloadSafety
  import opened DownloadCompleteness

  // ----- a root that cannot be downloaded -----

  /** Somewhere below the root, at an index reached through stored blocks, a stored block does not fit. */
  ghost predicate Doomed(cfg: Config, store: Blocks, r: Link)
    requires cfg.maxBlockSize > 2 + LINK_SIZE
  {
    exists tag, s, e, visited, tree, i :: DoomedBy(cfg, store, r, tag, s, e, visited, tree, i)
  }

  ghost predicate DoomedBy(cfg: Config, store: Blocks, r: Link, tag: Byte, s: BlockSchema, e: Entries,
                           visited: set<Index>, tree: seq<Link>, i: Index)
    requires cfg.maxBlockSize > 2 + LINK_SIZE
  {
    && RootRead(cfg, store, r, tag, s)
    && Grown(store, s, r, e, visited, tree)
    && KnownAt(s, visited, tree, i)
    && tree[i] in store && !FitsAt(s, store[tree[i]], i)
  }

  lemma DoomedInLargerStore(cfg: Config, store: Blocks, r: Link, id: Link, block: seq<Byte>)
    requires cfg.maxBlockSize > 2 + LINK_SIZE && Doomed(cfg, store, r) && (id in store ==> store[id] == block)
    ensures Doomed(cfg, store[id := block], r)
  {
    hide Grown, FitsAt, KnownAt, ReadBlock, ReadRootData;
    var tag, s, e, visited, tree, i :| DoomedBy(cfg, store, r, tag, s, e, visited, tree, i);
    GrownInLargerStore(store, s, r, e, visited, tree, id, block);
    KnownRange(s, visited, tree, i);
    assert DoomedBy(cfg, store[id := block], r, tag, s, e, visited, tree, i);
  }

  /** A late mismatch dooms the root, once its block is stored. */
  lemma LateMismatchDooms(cfg: Config, r: Link, m: Machine, id: Link, block: seq<Byte>)
    requires ValidConfig(cfg) && RootInv(cfg, r, m) && m.view.live.Some? && id in m.view.entries
    requires LateMismatch(cfg, m.view.live.value, m.view.entries[id], block)
    requires id in m.store ==> m.store[id] == block
    ensures Doomed(cfg, m.store[id := block], r)
  {
    hide Count, FitsAt, ReadBlock, ReadRootData, ValidConfig, NodeAt, Child, KnownAt, ReachedAt, RootRead;
    var rs, e := m.view.live.value, m.view.entries;
    var ixs := e[id];
    assert rs.schema.None? ==> e == map[r := [0]];
    assert rs.schema.Some?;
    var s := rs.schema.value;
    var visited, tree := TreeSoFar(cfg, m.store, r, rs.tag, s, e, id, block);
    assert !Lists(e, id, 0);
    var p :| 0 < p < |ixs| && !FitsAt(s, block, ixs[p]);
    assert Lists(e, id, ixs[p]);
    GrownInLargerStore(m.store, s, r, e, visited, tree, id, block);
    KnownRange(s, visited, tree, ixs[p]);
    assert DoomedBy(cfg, m.store[id := block], r, rs.tag, s, e, visited, tree, ixs[p]);
  }

  /** Two growths of one tree agree wherever stored blocks lead, if the second awaits no stored block. */
  lemma {:induction false} Follows(store: Blocks, s: BlockSchema, len: nat, r: Link,
                                   e: Entries, visited: set<Index>, tree: seq<Link>,
                                   e': Entries, visited': set<Index>, tree': seq<Link>, j: nat)
    requires WellFormed(s, len) && Grown(store, s, r, e, visited, tree) && Grown(store, s, r, e', visited', tree')
    requires forall l, i :: Lists(e', l, i) ==> l !in store
    requires KnownAt(s, visited, tree, j) && tree[j] in store
    ensures j in visited' && tree'[j] == tree[j]
    decreases j
  {
    hide WellFormed, Child, FitsAt, ReadBlock;
    if j == 0 {
      assert tree[0] == r == tree'[0];
    } else {
      var p, c :| ParentAt(s, visited, tree, p, c, j);
      assert NodeAt(store, s, tree, p);
      ChildrenInTree(s, len, p);
      Follows(store, s, len, r, e, visited, tree, e', visited', tree', p);
      assert NodeAt(store, s, tree', p);
      assert ReachedAt(e', visited', tree', Child(s, p, c));
    }
  }

  /** What is announced by a stored root block has one tag and one shape. */
  lemma OneAnnouncement(cfg: Config, store: Blocks, r: Link, tag: Byte, s: BlockSchema, tag': Byte, s': BlockSchema)
    requires ValidConfig(cfg) && RootRead(cfg, store, r, tag, s) && RootRead(cfg, store, r, tag', s')
    ensures tag' == tag && s' == s && exists len: nat :: WellFormed(s, len)
  {
    hide ReadBlock, WellFormed, FromBytes, MkSchema;
    RootSchema(cfg, tag, ReadBlock(store[r]).data, s);
    RootSchema(cfg, tag', ReadBlock(store[r]).data, s');
  }

  /** A doomed root is not at rest while it is downloaded. */
  lemma DoomedCannotRest(cfg: Config, store: Blocks, r: Link, tag: Byte, s: BlockSchema, e: Entries)
    requires ValidConfig(cfg) && Growing(cfg, store, r, tag, s, e)
    requires forall l :: l in e ==> l !in store
    ensures !Doomed(cfg, store, r)
  {
    hide WellFormed, RootRead, ValidConfig, FitsAt, KnownAt;
    if Doomed(cfg, store, r) {
      var tag0, s0, e0, visited0, tree0, i :| DoomedBy(cfg, store, r, tag0, s0, e0, visited0, tree0, i);
      OneAnnouncement(cfg, store, r, tag, s, tag0, s0);
      var len: nat :| WellFormed(s, len);
      var visited, tree :| Grown(store, s, r, e, visited, tree);
      KnownRange(s, visited0, tree0, i);
      Follows(store, s, len, r, e0, visited0, tree0, e, visited, tree, i);
    }
  }

  /** Nor is its tree ever wholly stored. */
  lemma DoomedIsNotDownloaded(cfg: Config, store: Blocks, r: Link, tag: Byte)
    requires ValidConfig(cfg) && Downloaded(cfg, store, r, tag)
    ensures !Doomed(cfg, store, r)
  {
    hide WellFormed, RootRead, ValidConfig, FitsAt, KnownAt;
    if Doomed(cfg, store, r) {
      var tag0, s0, e0, visited0, tree0, i :| DoomedBy(cfg, store, r, tag0, s0, e0, visited0, tree0, i);
      var s, tree :| RootRead(cfg, store, r, tag, s) && IsBlockTree(store, s, tree) && |tree| > 0 && tree[0] == r;
      OneAnnouncement(cfg, store, r, tag, s, tag0, s0);
      var len: nat :| WellFormed(s, len);
      KnownRange(s, visited0, tree0, i);
      FollowsTree(store, s, len, r, e0, visited0, tree0, tree, i);
    }
  }

  lemma {:induction false} FollowsTree(store: Blocks, s: BlockSchema, len: nat, r: Link,
                                       e: Entries, visited: set<Index>, tree: seq<Link>, tree': seq<Link>, j: nat)
    requires WellFormed(s, len) && Grown(store, s, r, e, visited, tree)
    requires IsBlockTree(store, s, tree') && |tree'| > 0 && tree'[0] == r
    requires KnownAt(s, visited, tree, j)
    ensures tree'[j] == tree[j] && NodeAt(store, s, tree', j)
    decreases j
  {
    hide WellFormed, Child, FitsAt, ReadBlock;
    assert NodeAt(store, s, tree', j);
    if j > 0 {
      var p, c :| ParentAt(s, visited, tree, p, c, j);
      assert NodeAt(store, s, tree, p);
      ChildrenInTree(s, len, p);
      FollowsTree(store, s, len, r, e, visited, tree, tree', p);
      assert NodeAt(store, s, tree', p);
    }
  }

  // ----- the states of a root within an episode -----

  /** Dropped after a late mismatch: some of its children may stay listed. */
  ghost predicate Dead(cfg: Config, r: Link, m: Machine)
    requires cfg.maxBlockSize > 2 + LINK_SIZE
  {
    m.view.live.None? && m.view.status != Some(Full) && Doomed(cfg, m.store, r)
  }

  /** The machine without what an earlier download of the root left listed. */
  ghost function Afresh(m: Machine, begun: Entries): Machine {
    m.(view := m.view.(entries := begun))
  }

  /** Started again although doomed: besides the bookkeeping of the new download, entries of the old
      one are listed, all under blocks that are not stored. */
  ghost predicate Revived(cfg: Config, r: Link, m: Machine, left: Entries, begun: Entries)
    requires cfg.maxBlockSize > 2 + LINK_SIZE
  {
    && m.view.live.Some? && Doomed(cfg, m.store, r)
    && m.view.entries == Merge(left, begun)
    && (forall l :: l in left ==> l !in m.store)
    && RootInv(cfg, r, Afresh(m, begun))
  }

  ghost predicate Tracked(cfg: Config, r: Link, m: Machine)
    requires cfg.maxBlockSize > 2 + LINK_SIZE
  {
    RootInv(cfg, r, m) || Dead(cfg, r, m) || exists left, begun :: Revived(cfg, r, m, left, begun)
  }

  /** At rest a root is either sound or dead. */
  lemma RestIsSoundOrDead(cfg: Config, r: Link, m: Machine)
    requires ValidConfig(cfg) && Tracked(cfg, r, m) && Quiet(m)
    ensures RootInv(cfg, r, m) || Dead(cfg, r, m)
  {
    hide Growing, Count, ValidConfig, Doomed, Merge;
    if !RootInv(cfg, r, m) && !Dead(cfg, r, m) {
      var left, begun :| Revived(cfg, r, m, left, begun);
      MergedKeys(left, begun);
      var rs := m.view.live.value;
      RootIsStored(cfg, m.store, r);
      assert rs.schema.None? ==> r in begun;
      if rs.schema.Some? {
        DoomedCannotRest(cfg, m.store, r, rs.tag, rs.schema.value, begun);
      }
    }
  }

  lemma RootIsStored(cfg: Config, store: Blocks, r: Link)
    requires cfg.maxBlockSize > 2 + LINK_SIZE && Doomed(cfg, store, r)
    ensures r in store
  {
    hide Grown, KnownAt, FitsAt;
    var tag, s, e, visited, tree, i :| DoomedBy(cfg, store, r, tag, s, e, visited, tree, i);
  }

  // ----- one step -----

  /** A sound root stays sound or, by a late mismatch, dies. */
  lemma SoundConsumes(cfg: Config, r: Link, m: Machine, id: Link, block: seq<Byte>)
    requires ValidConfig(cfg) && RootInv(cfg, r, m) && Consistent(m, Consume(id, block))
    ensures var m' := Act(cfg, r, m, Consume(id, block));
      (RootInv(cfg, r, m') || Dead(cfg, r, m')) && FullMeansDownloaded(cfg, r, m, m')
  {
    hide Growing, Count, ValidConfig, Doomed, Judge, LateMismatch, Downloaded, Merge;
    ConsumeKeepsExactly(cfg, r, m, id, block);
    if !NoLateMismatch(cfg, m, Consume(id, block)) {
      KidsExactly(cfg, m.view.live.value, m.view.entries[id], block);
      MalformedStep(cfg, r, m, id, block);
      LateMismatchDooms(cfg, r, m, id, block);
    }
  }

  lemma DeadStaysDead(cfg: Config, r: Link, m: Machine, id: Link, block: seq<Byte>)
    requires cfg.maxBlockSize > 2 + LINK_SIZE && Dead(cfg, r, m) && Consistent(m, Consume(id, block))
    ensures Dead(cfg, r, Act(cfg, r, m, Consume(id, block)))
  {
    hide Doomed, Judge, Merge, ReadBlock;
    DoomedInLargerStore(cfg, m.store, r, id, block);
  }

  lemma OnlyBegun(left: Entries, begun: Entries, id: Link)
    requires id !in left && id in begun
    ensures id in Merge(left, begun) && Merge(left, begun)[id] == begun[id]
  {
    assert [] + begun[id] == begun[id];
  }

  lemma RemoveBegunAt(left: Entries, begun: Entries, kids: Entries, id: Link, l: Link)
    requires id !in left && id in begun
    ensures var a, b := Merge(Merge(left, begun) - {id}, kids), Merge(left, Merge(begun - {id}, kids));
      (l in a <==> l in b) && (l in a ==> a[l] == b[l])
  {
    var x, y, z := Part(left, l), Part(begun - {id}, l), Part(kids, l);
    assert (x + y) + z == x + (y + z);
    assert Part(Merge(begun - {id}, kids), l) == y + z;
    assert Part(Merge(left, begun) - {id}, l) == x + y by {
      if l == id { assert x == [] && y == []; }
    }
  }

  lemma RemoveBegun(left: Entries, begun: Entries, kids: Entries, id: Link)
    requires id !in left && id in begun
    ensures Merge(Merge(left, begun) - {id}, kids) == Merge(left, Merge(begun - {id}, kids))
  {
    var a, b := Merge(Merge(left, begun) - {id}, kids), Merge(left, Merge(begun - {id}, kids));
    forall l ensures (l in a <==> l in b) && (l in a ==> a[l] == b[l]) {
      RemoveBegunAt(left, begun, kids, id, l);
    }
  }

  /** A revived root consumes stored blocks until one of them is malformed: it is never finished. */
  lemma RevivedConsumes(cfg: Config, r: Link, m: Machine, left: Entries, begun: Entries, id: Link)
    requires ValidConfig(cfg) && Revived(cfg, r, m, left, begun) && id in m.store
    ensures var m' := Act(cfg, r, m, Consume(id, m.store[id]));
      Tracked(cfg, r, m') && FullMeansDownloaded(cfg, r, m, m') && m'.store == m.store
  {
    hide RootInv, ValidConfig, Doomed, Judge, Downloaded, Merge, Dead, ConsumeView;
    var a := Consume(id, m.store[id]);
    assert m.store[id := m.store[id]] == m.store;
    MergedKeys(left, begun);
    if id !in begun {
      NotListedHere(cfg, r, m, id);
      assert Revived(cfg, r, Act(cfg, r, m, a), left, begun);
    } else {
      OnlyBegun(left, begun, id);
      NeverIgnored(cfg, r, Afresh(m, begun), id, m.store[id]);
      if Judge(cfg, m.view.live.value, begun[id], m.store[id]).Malformed? {
        RevivedDies(cfg, r, m, left, begun, id);
      } else {
        RevivedGrows(cfg, r, m, left, begun, id);
      }
    }
  }

  lemma NotListedHere(cfg: Config, r: Link, m: Machine, id: Link)
    requires cfg.maxBlockSize > 2 + LINK_SIZE && id in m.store && id !in m.view.entries
    ensures Act(cfg, r, m, Consume(id, m.store[id])) == m
  {
    assert m.store[id := m.store[id]] == m.store;
  }

  lemma RevivedGrows(cfg: Config, r: Link, m: Machine, left: Entries, begun: Entries, id: Link)
    requires ValidConfig(cfg) && Revived(cfg, r, m, left, begun) && id in m.store && id in begun && id !in left
    requires m.view.entries[id] == begun[id]
    requires Judge(cfg, m.view.live.value, begun[id], m.store[id]).Accepted?
    ensures var m' := Act(cfg, r, m, Consume(id, m.store[id]));
      Tracked(cfg, r, m') && FullMeansDownloaded(cfg, r, m, m') && m'.store == m.store
  {
    hide Growing, Count, ValidConfig, Doomed, Judge, Downloaded, Merge, Dead;
    var block, a := m.store[id], Consume(id, m.store[id]);
    assert m.store[id := block] == m.store;
    var f, rs := Afresh(m, begun), m.view.live.value;
    var kids := Judge(cfg, rs, begun[id], block).kids;
    RemoveBegun(left, begun, kids, id);
    AcceptedStep(cfg, r, f, id, block);
    var f', m' := Act(cfg, r, f, a), Act(cfg, r, m, a);
    assert f'.view.live.None? ==> Downloaded(cfg, m.store, r, rs.tag) by {
      if f'.view.live.None? { FinishedIsFull(cfg, r, f, id, block); }
    }
    assert !Downloaded(cfg, m.store, r, rs.tag) by {
      if Downloaded(cfg, m.store, r, rs.tag) { DoomedIsNotDownloaded(cfg, m.store, r, rs.tag); }
    }
    assert Revived(cfg, r, m', left, Merge(begun - {id}, kids));
  }

  lemma RevivedDies(cfg: Config, r: Link, m: Machine, left: Entries, begun: Entries, id: Link)
    requires cfg.maxBlockSize > 2 + LINK_SIZE && Revived(cfg, r, m, left, begun) && id in m.store && id in begun
    requires m.view.entries[id] == begun[id]
    requires Judge(cfg, m.view.live.value, begun[id], m.store[id]).Malformed?
    ensures var m' := Act(cfg, r, m, Consume(id, m.store[id]));
      Dead(cfg, r, m') && FullMeansDownloaded(cfg, r, m, m') && m'.store == m.store
  {
    hide Growing, Count, Doomed, Judge, Downloaded, Merge;
    assert m.store[id := m.store[id]] == m.store;
    MergedKeys(left, begun);
  }

  /** An accepted block after which the root is not live has finished it. */
  lemma FinishedIsFull(cfg: Config, r: Link, m: Machine, id: Link, block: seq<Byte>)
    requires ValidConfig(cfg) && RootInv(cfg, r, m) && m.view.live.Some? && id in m.view.entries
    requires id in m.store ==> m.store[id] == block
    requires Judge(cfg, m.view.live.value, m.view.entries[id], block).Accepted?
    requires Act(cfg, r, m, Consume(id, block)).view.live.None?
    ensures Downloaded(cfg, m.store[id := block], r, m.view.live.value.tag)
  {
    hide Growing, Count, Judge, Downloaded, Merge, ValidConfig;
    AcceptedStep(cfg, r, m, id, block);
  }

  /** Within an episode: a block that is stored is processed. */
  lemma StoredStep(cfg: Config, r: Link, m: Machine, id: Link)
    requires ValidConfig(cfg) && Tracked(cfg, r, m) && id in m.store
    ensures var m' := Act(cfg, r, m, Consume(id, m.store[id]));
      Tracked(cfg, r, m') && FullMeansDownloaded(cfg, r, m, m') && m'.store == m.store
  {
    hide RootInv, Dead, Revived, ValidConfig, ConsumeView, Downloaded;
    assert m.store[id := m.store[id]] == m.store;
    if RootInv(cfg, r, m) {
      SoundConsumes(cfg, r, m, id, m.store[id]);
    } else if Dead(cfg, r, m) {
      DeadStaysDead(cfg, r, m, id, m.store[id]);
      NotFull(cfg, r, Act(cfg, r, m, Consume(id, m.store[id])));
    } else {
      var left, begun :| Revived(cfg, r, m, left, begun);
      RevivedConsumes(cfg, r, m, left, begun, id);
    }
  }

  lemma NotFull(cfg: Config, r: Link, m: Machine)
    requires cfg.maxBlockSize > 2 + LINK_SIZE && Dead(cfg, r, m)
    ensures m.view.status != Some(Full)
  {}

  /** A kick-start fails only for want of the root block. */
  predicate Begins(m: Machine, a: Action) {
    a.Kick? && a.failed ==> a.root !in m.store
  }

  /** The action an episode begins with brings no second content for a stored block, and replaces no
      live state of the root. */
  predicate Orderly(r: Link, m: Machine, a: Action) {
    Consistent(m, a) && KickFindsNoLiveState(r, m, a)
  }

  /** An episode begins, at rest. */
  lemma FirstStep(cfg: Config, r: Link, m: Machine, a: Action)
    requires ValidConfig(cfg) && (RootInv(cfg, r, m) || Dead(cfg, r, m)) && Quiet(m)
    requires Begins(m, a) && Orderly(r, m, a)
    ensures var m' := Act(cfg, r, m, a); Tracked(cfg, r, m') && FullMeansDownloaded(cfg, r, m, m')
  {
    hide RootInv, Dead, ValidConfig, ConsumeView, KickView, Downloaded, Clear;
    if RootInv(cfg, r, m) {
      match a
      case Kick(_, _, _, _) => KickKeepsExactly(cfg, r, m, a);
      case Consume(id, block) => SoundConsumes(cfg, r, m, id, block);
      case Expire(_) => ExpireKeeps(cfg, r, m, a);
    } else {
      match a
      case Kick(_, _, _, _) => DeadIsKicked(cfg, r, m, a);
      case Consume(id, block) =>
        DeadStaysDead(cfg, r, m, id, block);
        NotFull(cfg, r, Act(cfg, r, m, a));
      case Expire(_) =>
        DeadExpires(cfg, r, m, a);
    }
  }

  lemma DeadExpires(cfg: Config, r: Link, m: Machine, a: Action)
    requires cfg.maxBlockSize > 2 + LINK_SIZE && Dead(cfg, r, m) && a.Expire?
    ensures Act(cfg, r, m, a) == m
  {}

  lemma DeadIsKicked(cfg: Config, r: Link, m: Machine, a: Action)
    requires ValidConfig(cfg) && Dead(cfg, r, m) && Quiet(m) && a.Kick? && Begins(m, a)
    ensures var m' := Act(cfg, r, m, a); Tracked(cfg, r, m') && FullMeansDownloaded(cfg, r, m, m')
  {
    hide Growing, Count, Doomed, Downloaded, Merge, ValidConfig;
    var m' := Act(cfg, r, m, a);
    RootIsStored(cfg, m.store, r);
    if m'.view.live.Some? {
      var left, begun: Entries := m.view.entries, map[r := [0]];
      CountSingle(r);
      KickedEntries(left, r);
      assert Revived(cfg, r, m', left, begun);
    } else {
      assert Dead(cfg, r, m');
    }
  }

  lemma KickedEntries(left: Entries, r: Link)
    requires r !in left
    ensures Merge(left, map[r := [0]]) == left[r := [0]]
  {
    var begun: Entries := map[r := [0]];
    assert [] + begun[r] == [0];
    forall l | l in left ensures Merge(left, begun)[l] == left[l] { assert left[l] + [] == left[l]; }
  }

  // ----- episodes -----

  /** Every action consumes a block as the store holds it. */
  ghost predicate AllStored(acts: seq<Action>, store: Blocks) {
    forall i :: 0 <= i < |acts| ==> acts[i].Consume? && acts[i].id in store && store[acts[i].id] == acts[i].block
  }

  /** One action, then stored blocks. */
  ghost predicate Unfolds(cfg: Config, r: Link, m: Machine, g: seq<Action>)
    requires cfg.maxBlockSize > 2 + LINK_SIZE
  {
    g != [] && Begins(m, g[0]) && AllStored(g[1..], Act(cfg, r, m, g[0]).store)
  }

  ghost function Flat(gs: seq<seq<Action>>): seq<Action> {
    if gs == [] then [] else Flat(gs[..|gs| - 1]) + gs[|gs| - 1]
  }

  ghost predicate EpisodeAt(cfg: Config, r: Link, m: Machine, gs: seq<seq<Action>>, i: int)
    requires cfg.maxBlockSize > 2 + LINK_SIZE && 0 <= i < |gs|
  {
    var at := Run(cfg, r, m, Flat(gs[..i]));
    Unfolds(cfg, r, at, gs[i]) && Quiet(Run(cfg, r, at, gs[i]))
  }

  /** Every group unfolds from rest to rest. */
  ghost predicate Episodes(cfg: Config, r: Link, m: Machine, gs: seq<seq<Action>>)
    requires cfg.maxBlockSize > 2 + LINK_SIZE
  {
    forall i :: 0 <= i < |gs| ==> EpisodeAt(cfg, r, m, gs, i)
  }

  ghost predicate AllOrderly(cfg: Config, r: Link, m: Machine, gs: seq<seq<Action>>)
    requires cfg.maxBlockSize > 2 + LINK_SIZE
  {
    forall i :: 0 <= i < |gs| && gs[i] != [] ==> Orderly(r, Run(cfg, r, m, Flat(gs[..i])), gs[i][0])
  }

  /** What holds of the root, and of its status, at every point of an episode. */
  lemma {:induction false} AlongEpisode(cfg: Config, r: Link, m: Machine, past: seq<Action>, g: seq<Action>, k: nat)
    requires ValidConfig(cfg) && (RootInv(cfg, r, m) || Dead(cfg, r, m)) && Quiet(m)
    requires FullIsRequestedAndDownloaded(cfg, r, m, past)
    requires Unfolds(cfg, r, m, g) && Orderly(r, m, g[0]) && 1 <= k <= |g|
    ensures var m' := Run(cfg, r, m, g[..k]);
      && Tracked(cfg, r, m') && m'.store == Act(cfg, r, m, g[0]).store
      && FullIsRequestedAndDownloaded(cfg, r, m', past + g[..k])
  {
    hide RootInv, Dead, Tracked, ValidConfig, Act, FullIsRequestedAndDownloaded, FullMeansDownloaded, Quiet;
    var a := g[k - 1];
    var acts := past + g[..k];
    assert g[..k][..k - 1] == g[..k - 1] && acts[..|acts| - 1] == past + g[..k - 1];
    var before := Run(cfg, r, m, g[..k - 1]);
    if k == 1 {
      assert g[..0] == [] && past + [] == past && before == m;
      FirstStep(cfg, r, m, a);
    } else {
      AlongEpisode(cfg, r, m, past, g, k - 1);
      assert a == g[1..][k - 2];
      StoredStep(cfg, r, before, a.id);
    }
    SafeStep(cfg, r, before, acts);
  }

  /** Over every sequence of episodes without a restart, late mismatches or not, a root that is Full
      was requested and its whole tree is in the store. */
  lemma {:induction false} EpisodesAreSound(cfg: Config, r: Link, m: Machine, gs: seq<seq<Action>>)
    requires ValidConfig(cfg)
    requires m.view.live.None? && m.view.entries == map[] && m.view.status != Some(Full)
    requires Episodes(cfg, r, m, gs) && AllOrderly(cfg, r, m, gs)
    ensures var m' := Run(cfg, r, m, Flat(gs));
      && (RootInv(cfg, r, m') || Dead(cfg, r, m')) && Quiet(m')
      && FullIsRequestedAndDownloaded(cfg, r, m', Flat(gs))
  {
    hide Dead, ValidConfig, Act, Tracked, Flat, Unfolds, FullIsRequestedAndDownloaded;
    if gs == [] {
      NothingHappened(cfg, r, m);
    } else {
      var n := |gs| - 1;
      var init := gs[..n];
      InitEpisodes(cfg, r, m, gs);
      EpisodesAreSound(cfg, r, m, init);
      var at := Run(cfg, r, m, Flat(init));
      assert EpisodeAt(cfg, r, m, gs, n);
      UnfoldsSome(cfg, r, at, gs[n]);
      EpisodeEnds(cfg, r, at, Flat(init), gs[n]);
      FlatLast(gs);
      RunConcat(cfg, r, m, Flat(init), gs[n]);
    }
  }

  lemma EpisodeEnds(cfg: Config, r: Link, m: Machine, past: seq<Action>, g: seq<Action>)
    requires ValidConfig(cfg) && (RootInv(cfg, r, m) || Dead(cfg, r, m)) && Quiet(m)
    requires FullIsRequestedAndDownloaded(cfg, r, m, past)
    requires Unfolds(cfg, r, m, g) && Orderly(r, m, g[0]) && Quiet(Run(cfg, r, m, g))
    ensures var m' := Run(cfg, r, m, g);
      && (RootInv(cfg, r, m') || Dead(cfg, r, m'))
      && FullIsRequestedAndDownloaded(cfg, r, m', past + g)
  {
    hide RootInv, Dead, Tracked, ValidConfig, Act, FullIsRequestedAndDownloaded, Quiet;
    AlongEpisode(cfg, r, m, past, g, |g|);
    assert g[..|g|] == g;
    RestIsSoundOrDead(cfg, r, Run(cfg, r, m, g));
  }

  lemma NothingHappened(cfg: Config, r: Link, m: Machine)
    requires cfg.maxBlockSize > 2 + LINK_SIZE
    requires m.view.live.None? && m.view.entries == map[] && m.view.status != Some(Full)
    ensures Run(cfg, r, m, Flat([])) == m && RootInv(cfg, r, m) && Quiet(m)
    ensures FullIsRequestedAndDownloaded(cfg, r, m, Flat([]))
  {}

  lemma FlatLast(gs: seq<seq<Action>>)
    requires gs != []
    ensures Flat(gs) == Flat(gs[..|gs| - 1]) + gs[|gs| - 1]
  {}

  lemma InitEpisodes(cfg: Config, r: Link, m: Machine, gs: seq<seq<Action>>)
    requires cfg.maxBlockSize > 2 + LINK_SIZE && gs != []
    requires Episodes(cfg, r, m, gs) && AllOrderly(cfg, r, m, gs)
    ensures Episodes(cfg, r, m, gs[..|gs| - 1]) && AllOrderly(cfg, r, m, gs[..|gs| - 1])
  {
    hide Run, Flat, Unfolds, Quiet, Orderly;
    var init := gs[..|gs| - 1];
    forall i | 0 <= i < |init| ensures EpisodeAt(cfg, r, m, init, i) {
      assert EpisodeAt(cfg, r, m, gs, i);
      assert init[..i] == gs[..i];
    }
    forall i | 0 <= i < |init| && init[i] != []
      ensures Orderly(r, Run(cfg, r, m, Flat(init[..i])), init[i][0])
    {
      assert init[..i] == gs[..i] && init[i] == gs[i];
    }
  }

  /** The same when the process ended within the last episode. */
  lemma SoundToTheEnd(cfg: Config, r: Link, m: Machine, gs: seq<seq<Action>>, g: seq<Action>)
    requires ValidConfig(cfg)
    requires m.view.live.None? && m.view.entries == map[] && m.view.status != Some(Full)
    requires Episodes(cfg, r, m, gs) && AllOrderly(cfg, r, m, gs)
    requires g != [] ==>
      var at := Run(cfg, r, m, Flat(gs)); Unfolds(cfg, r, at, g) && Orderly(r, at, g[0])
    ensures FullIsRequestedAndDownloaded(cfg, r, Run(cfg, r, m, Flat(gs) + g), Flat(gs) + g)
  {
    hide RootInv, Dead, Tracked, ValidConfig, Act, FullIsRequestedAndDownloaded, Flat, Unfolds, Run, Quiet;
    EpisodesAreSound(cfg, r, m, gs);
    var at := Run(cfg, r, m, Flat(gs));
    RunConcat(cfg, r, m, Flat(gs), g);
    if g == [] {
      assert Flat(gs) + g == Flat(gs);
    } else {
      UnfoldsSome(cfg, r, at, g);
      AlongEpisode(cfg, r, at, Flat(gs), g, |g|);
      assert g[..|g|] == g;
    }
  }

  lemma {:induction false} FlatConcat(a: seq<seq<Action>>, b: seq<seq<Action>>)
    ensures Flat(a + b) == Flat(a) + Flat(b)
  {
    if b == [] {
      assert a + b == a && Flat(a) + [] == Flat(a);
    } else {
      var init, last := b[..|b| - 1], b[|b| - 1];
      FlatConcat(a, init);
      assert (a + b)[..|a + b| - 1] == a + init && (a + b)[|a + b| - 1] == last;
      assert (Flat(a) + Flat(init)) + last == Flat(a) + (Flat(init) + last);
    }
  }

  lemma EpisodesConcat(cfg: Config, r: Link, m: Machine, a: seq<seq<Action>>, b: seq<seq<Action>>)
    requires cfg.maxBlockSize > 2 + LINK_SIZE
    requires Episodes(cfg, r, m, a) && Episodes(cfg, r, Run(cfg, r, m, Flat(a)), b)
    ensures Episodes(cfg, r, m, a + b)
  {
    hide Run, Flat, Unfolds, Quiet;
    forall i | 0 <= i < |a + b| ensures EpisodeAt(cfg, r, m, a + b, i) {
      if i < |a| {
        assert EpisodeAt(cfg, r, m, a, i);
        assert (a + b)[..i] == a[..i];
      } else {
        var k := i - |a|;
        assert EpisodeAt(cfg, r, Run(cfg, r, m, Flat(a)), b, k);
        assert (a + b)[..i] == a + b[..k];
        FlatConcat(a, b[..k]);
        RunConcat(cfg, r, m, Flat(a), Flat(b[..k]));
      }
    }
  }

  lemma FlatOne(g: seq<Action>)
    ensures Flat([g]) == g && Flat([]) == []
  {
    assert [g][..0] == [];
  }

  lemma UnfoldsSome(cfg: Config, r: Link, m: Machine, g: seq<Action>)
    requires cfg.maxBlockSize > 2 + LINK_SIZE && Unfolds(cfg, r, m, g)
    ensures |g| >= 1
  {}
}
