/** The downloader itself: shared maps updated in place, for all roots at once. Each operation is
    proved to act on every root as that root's own machine does. */
module Downloader {
  import opened Options
  import opened LittleEndian
  import opened Schema
  import opened DepthIndices
  import opened BlockCodec
  import opened BlockTree
  import opened Weights
  import opened RootMachine
  import opened DownloadSafety
  import opened DownloadCompleteness
  import opened DownloadTermination
  import opened DownloaderState
  import opened BlockStep
  import opened DownloadPanic
  import opened DownloadEpisodes

  // ----- the phases of processing one block, for one root -----

  function Charge(v: RootView, ixs: seq<Index>): RootView {
    if v.live.None? then v
    else v.(live := Some(v.live.value.(remainingNodeCounter := v.live.value.remainingNodeCounter - |ixs|)))
  }

  function FixSchema(v: RootView, schema: Option<BlockSchema>): RootView {
    if v.live.None? || schema.None? then v else v.(live := Some(v.live.value.(schema := schema)))
  }

  function Drop(v: RootView): RootView {
    Clear(v).(broken := v.broken + 1)
  }

  function Enlarge(live: Option<RootState>, links: set<Link>, n: nat): Option<RootState> {
    if live.None? then None
    else Some(live.value.(
      allDescendants := live.value.allDescendants + links,
      remainingNodeCounter := live.value.remainingNodeCounter + n))
  }

  /** The children `kids` become awaited. */
  ghost function Adopt(v: RootView, kids: Entries): RootView {
    v.(entries := Merge(v.entries, kids), live := Enlarge(v.live, kids.Keys, Count(kids)))
  }

  /** One child, awaited at `ixs`, becomes awaited. */
  function AdoptAt(v: RootView, l: Link, ixs: seq<Index>): RootView {
    v.(entries := v.entries[l := Part(v.entries, l) + ixs], live := Enlarge(v.live, {l}, |ixs|))
  }

  lemma EnlargeNothing(live: Option<RootState>)
    ensures Enlarge(live, {}, 0) == live
  {
    if live.Some? { assert live.value.allDescendants + {} == live.value.allDescendants; }
  }

  lemma EnlargeTwice(live: Option<RootState>, links: set<Link>, n: nat, more: set<Link>, k: nat)
    ensures Enlarge(Enlarge(live, links, n), more, k) == Enlarge(live, links + more, n + k)
  {
    if live.Some? {
      assert (live.value.allDescendants + links) + more == live.value.allDescendants + (links + more);
    }
  }

  lemma AdoptNothing(v: RootView)
    ensures Adopt(v, map[]) == v
  {
    hide Merge, Enlarge, Weight;
    MergeEmpty(v.entries);
    EmptyWeight(One);
    EnlargeNothing(v.live);
    var none: Entries := map[];
    assert none.Keys == {};
  }

  lemma AdoptStep(v: RootView, kids: Entries, l: Link, ixs: seq<Index>)
    requires l !in kids
    ensures Adopt(v, kids[l := ixs]) == AdoptAt(Adopt(v, kids), l, ixs)
  {
    hide Merge, Enlarge, Weight, SeqWeight, Part;
    MergeSnoc(v.entries, kids, l, ixs);
    WeightUpdate(kids, l, ixs, One);
    SeqWeightOne(ixs);
    EnlargeTwice(v.live, kids.Keys, Count(kids), {l}, |ixs|);
    assert kids[l := ixs].Keys == kids.Keys + {l};
  }

  lemma MergeSnoc(e: Entries, kids: Entries, l: Link, ixs: seq<Index>)
    requires l !in kids
    ensures var merged := Merge(e, kids); Merge(e, kids[l := ixs]) == merged[l := Part(merged, l) + ixs]
  {
    hide Merge;
    var kids' := kids[l := ixs];
    var merged, more := Merge(e, kids), Merge(e, kids');
    var rhs := merged[l := Part(merged, l) + ixs];
    forall k ensures (k in more <==> k in rhs) && (k in more ==> more[k] == rhs[k]) {
      MergeAt(e, kids, k);
      MergeAt(e, kids', k);
    }
  }

  /** All phases in a row. */
  ghost function Phases(v: RootView, id: Link, awaiting: bool, ixs: seq<Index>, res: RootResult): RootView {
    var v1 := v.(entries := v.entries - {id});
    var v2 := if awaiting then Charge(v1, ixs) else v1;
    var v3 := FixSchema(v2, res.schema);
    var v4 := if res.malformed then Drop(v3) else v3;
    var v5 := Adopt(v4, res.kids);
    if awaiting then Finish(v5) else v5
  }

  /** The phases amount to the machine's own step. */
  lemma PhasesAreConsume(cfg: Config, v: RootView, id: Link, block: seq<Byte>, res: RootResult)
    requires cfg.maxBlockSize > 2 + LINK_SIZE
    requires if id !in v.entries then res == Nothing
             else if v.live.Some? then
               AgreesWith(Judge(cfg, v.live.value, v.entries[id], block), 0 in v.entries[id], res)
             else res == if ReadBlock(block).Unreadable? then RootResult(map[], true, None) else Nothing
    ensures var awaiting := id in v.entries; var ixs := if awaiting then v.entries[id] else [];
      Phases(v, id, awaiting, ixs, res) == ConsumeView(cfg, v, id, block)
  {
    hide ReadBlock, Judge, Merge, Count;
    if id !in v.entries {
      assert v.entries - {id} == v.entries;
      AdoptNothing(v);
    } else if v.live.None? {
      AdoptNothing(v.(entries := v.entries - {id}));
      AdoptNothing(v.(entries := v.entries - {id}, broken := v.broken + 1));
    } else {
      LivePhases(cfg, v, id, block, res);
    }
  }

  lemma LivePhases(cfg: Config, v: RootView, id: Link, block: seq<Byte>, res: RootResult)
    requires cfg.maxBlockSize > 2 + LINK_SIZE
    requires v.live.Some? && id in v.entries
    requires AgreesWith(Judge(cfg, v.live.value, v.entries[id], block), 0 in v.entries[id], res)
    ensures Phases(v, id, true, v.entries[id], res) == ConsumeView(cfg, v, id, block)
  {
    hide ReadBlock, Judge, Merge, Count, Finish, Enlarge;
    var ixs, v1 := v.entries[id], v.(entries := v.entries - {id});
    match Judge(cfg, v.live.value, ixs, block)
    case Ignored => AdoptNothing(Charge(v1, ixs));
    case Malformed(kids) =>
      EnlargeNone(kids.Keys, Count(kids));
      FinishNone(Adopt(Drop(FixSchema(Charge(v1, ixs), res.schema)), kids));
    case Accepted(schema, kids) =>
      KeepSchema(cfg, v.live.value, ixs, block);
      var charged := FixSchema(Charge(v1, ixs), res.schema);
      assert charged.live == Some(v.live.value.(
        schema := Some(schema), remainingNodeCounter := v.live.value.remainingNodeCounter - |ixs|));
      EnlargeSome(charged.live.value, kids.Keys, Count(kids));
  }

  lemma FinishNone(v: RootView)
    requires v.live.None?
    ensures Finish(v) == v
  {}

  lemma EnlargeNone(links: set<Link>, n: nat)
    ensures Enlarge(None, links, n) == None
  {}

  lemma EnlargeSome(rs: RootState, links: set<Link>, n: nat)
    ensures Enlarge(Some(rs), links, n) == Some(rs.(
      allDescendants := rs.allDescendants + links, remainingNodeCounter := rs.remainingNodeCounter + n))
  {}

  /** Without the root index among the indices, an accepted block keeps the schema it was judged by. */
  lemma KeepSchema(cfg: Config, rs: RootState, ixs: seq<Index>, block: seq<Byte>)
    requires cfg.maxBlockSize > 2 + LINK_SIZE
    ensures var verdict := Judge(cfg, rs, ixs, block);
      verdict.Accepted? && 0 !in ixs ==> rs.schema == Some(verdict.schema)
  {
    if Judge(cfg, rs, ixs, block).Accepted? { JudgeAccepted(cfg, rs, ixs, block); }
  }

  // ----- the phases, for all roots -----

  ghost predicate AllCharged(st: State, st': State, oldPs: map<Link, seq<Index>>) {
    forall r :: ViewOf(st', r) == if r in oldPs then Charge(ViewOf(st, r), oldPs[r]) else ViewOf(st, r)
  }

  ghost predicate AllFixed(st: State, st': State, schemas: map<Link, BlockSchema>) {
    forall r :: ViewOf(st', r) == FixSchema(ViewOf(st, r), Lookup(schemas, r))
  }

  ghost predicate AllDropped(st: State, st': State, malformed: set<Link>) {
    forall r :: ViewOf(st', r) == if r in malformed then Drop(ViewOf(st, r)) else ViewOf(st, r)
  }

  ghost predicate AllAdopted(st: State, st': State, children: Params) {
    forall r :: ViewOf(st', r) == Adopt(ViewOf(st, r), EntriesOf(children, r))
  }

  ghost predicate AllFinished(st: State, st': State, roots: set<Link>) {
    forall r :: ViewOf(st', r) == if r in roots then Finish(ViewOf(st, r)) else ViewOf(st, r)
  }

  // ----- removing a root -----

  lemma RemoveAtEntries(params: Params, c: Link, root: Link, q: Link)
    requires c in params
    ensures var np := params[c] - {root};
      var params' := if np == map[] then params - {c} else params[c := np];
      && EntriesOf(params', q) == (if q == root then EntriesOf(params, q) - {c} else EntriesOf(params, q))
      && (NoEmpty(params) ==> NoEmpty(params'))
      && params'.Keys <= params.Keys
  {
    var np := params[c] - {root};
    if q != root && q in params[c] { assert q in np; }
  }

  method RemoveRoot(params: Params, root: Link, descendants: set<Link>) returns (params': Params)
    requires NoEmpty(params)
    ensures EntriesOf(params', root) == EntriesOf(params, root) - descendants
    ensures forall q :: q != root ==> EntriesOf(params', q) == EntriesOf(params, q)
    ensures NoEmpty(params') && params'.Keys <= params.Keys
  {
    hide EntriesOf, NoEmpty;
    params' := params;
    var todo := descendants;
    assert EntriesOf(params, root) - (descendants - todo) == EntriesOf(params, root);
    while todo != {}
      invariant todo <= descendants
      invariant EntriesOf(params', root) == EntriesOf(params, root) - (descendants - todo)
      invariant forall q :: q != root ==> EntriesOf(params', q) == EntriesOf(params, q)
      invariant NoEmpty(params') && params'.Keys <= params.Keys
      decreases todo
    {
      var c :| c in todo;
      ghost var e := EntriesOf(params, root);
      assert (e - (descendants - todo)) - {c} == e - (descendants - (todo - {c}));
      if c in params' {
        forall q { RemoveAtEntries(params', c, root, q); }
        var np := params'[c] - {root};
        params' := if np == map[] then params' - {c} else params'[c := np];
      } else {
        AbsentEntries(params', c, root);
      }
      todo := todo - {c};
    }
    assert descendants - todo == descendants;
  }

  lemma AbsentEntries(params: Params, c: Link, root: Link)
    requires c !in params
    ensures EntriesOf(params, root) - {c} == EntriesOf(params, root)
  {}

  // ----- roots that still have a state -----

  ghost predicate Meets(roots: set<Link>, states: set<Link>) {
    exists r :: r in roots && r in states
  }

  lemma MeetsNothing(roots: set<Link>, states: set<Link>)
    requires roots == {}
    ensures !Meets(roots, states)
  {}

  lemma MeetsMore(roots: set<Link>, todo: set<Link>, r: Link, states: set<Link>)
    requires todo <= roots && r in todo
    ensures Meets(roots - (todo - {r}), states) <==> Meets(roots - todo, states) || r in states
  {
    if Meets(roots - todo, states) {
      var q :| q in roots - todo && q in states;
      assert q in roots - (todo - {r});
    }
    assert r in roots - (todo - {r});
  }

  /** A child among `links` is recorded for a root that has a state. */
  ghost predicate SomeMeets(children: Params, links: set<Link>, states: set<Link>) {
    exists l :: l in links && l in children && Meets(children[l].Keys, states)
  }

  lemma SomeMeetsNothing(children: Params, links: set<Link>, states: set<Link>)
    requires links == {}
    ensures !SomeMeets(children, links, states)
  {}

  lemma SomeMeetsMore(children: Params, todo: set<Link>, link: Link, states: set<Link>)
    requires todo <= children.Keys && link in todo
    ensures SomeMeets(children, children.Keys - (todo - {link}), states) <==>
      SomeMeets(children, children.Keys - todo, states) || Meets(children[link].Keys, states)
  {
    hide Meets;
    if SomeMeets(children, children.Keys - todo, states) {
      var l :| l in children.Keys - todo && l in children && Meets(children[l].Keys, states);
      assert l in children.Keys - (todo - {link});
    }
    assert link in children.Keys - (todo - {link});
  }

  // ----- the downloader -----

  /** How an operation ends: normally, or with the process, while `block` was processed. */
  datatype Outcome = Returned | Panicked(id: Link, block: seq<Byte>)

  class BitswapCtx {
    const cfg: Config
    var nodeDownloadParams: Params
    var rootDownloadStates: map<Link, RootState>
    var store: Blocks
    var statuses: map<Link, Status>
    /** Resource updates sent, by kind. */
    var broken: multiset<Link>
    var added: multiset<Link>

    ghost function St(): State
      reads this
    {
      State(nodeDownloadParams, rootDownloadStates, store, statuses, broken, added)
    }

    ghost predicate Valid()
      reads this
    {
      ValidConfig(cfg) && Sane(cfg, St())
    }

    /** No stored block is awaited. */
    ghost predicate AtRest()
      reads this
    {
      Overdue(St()) == {}
    }

    constructor (cfg: Config, store: Blocks, statuses: map<Link, Status>)
      requires ValidConfig(cfg)
      ensures Valid() && AtRest() && this.cfg == cfg
      ensures forall r :: MachineOf(St(), r) == Machine(store, RootView(None, map[], Lookup(statuses, r), 0, 0))
    {
      this.cfg := cfg;
      this.store, this.statuses := store, statuses;
      nodeDownloadParams, rootDownloadStates := map[], map[];
      broken, added := multiset{}, multiset{};
    }

    /** Clearing a root removes its state and all its entries, and touches no other root. */
    method ClearRootDownloadState(root: Link)
      requires NoEmpty(nodeDownloadParams)
      modifies `nodeDownloadParams, `rootDownloadStates
      ensures NoEmpty(nodeDownloadParams) && nodeDownloadParams.Keys <= old(nodeDownloadParams.Keys)
      ensures forall r :: ViewOf(St(), r) == if r == root then Clear(ViewOf(old(St()), r)) else ViewOf(old(St()), r)
      ensures rootDownloadStates.Keys <= old(rootDownloadStates.Keys)
    {
      hide EntriesOf, NoEmpty;
      if root !in rootDownloadStates {
        return;
      }
      var state := rootDownloadStates[root];
      rootDownloadStates := rootDownloadStates - {root};
      nodeDownloadParams := RemoveRoot(nodeDownloadParams, root, state.allDescendants);
    }

    /** The counters of the roots that awaited the block drop by the number of their indices. */
    method ChargeRoots(oldPs: map<Link, seq<Index>>)
      modifies `rootDownloadStates
      ensures AllCharged(old(St()), St(), oldPs)
    {
      hide EntriesOf;
      var todo := oldPs.Keys;
      while todo != {}
        invariant todo <= oldPs.Keys
        invariant forall r ::
          ViewOf(St(), r) == if r in oldPs && r !in todo then Charge(ViewOf(old(St()), r), oldPs[r])
          else ViewOf(old(St()), r)
        decreases todo
      {
        var r :| r in todo;
        assert ViewOf(St(), r) == ViewOf(old(St()), r);
        if r in rootDownloadStates {
          var rs := rootDownloadStates[r];
          var counter := rs.remainingNodeCounter - |oldPs[r]|;
          rootDownloadStates := rootDownloadStates[r := rs.(remainingNodeCounter := counter)];
        }
        todo := todo - {r};
      }
    }

    method SetSchemas(schemas: map<Link, BlockSchema>)
      modifies `rootDownloadStates
      ensures AllFixed(old(St()), St(), schemas)
    {
      hide EntriesOf;
      var todo := schemas.Keys;
      while todo != {}
        invariant todo <= schemas.Keys
        invariant forall r ::
          ViewOf(St(), r) == if r in todo then ViewOf(old(St()), r)
          else FixSchema(ViewOf(old(St()), r), Lookup(schemas, r))
        decreases todo
      {
        var r :| r in todo;
        assert ViewOf(St(), r) == ViewOf(old(St()), r);
        if r in rootDownloadStates {
          rootDownloadStates := rootDownloadStates[r := rootDownloadStates[r].(schema := Some(schemas[r]))];
        }
        todo := todo - {r};
      }
    }

    /** A malformed root is cleared and reported. */
    method DropRoot(root: Link)
      requires NoEmpty(nodeDownloadParams)
      modifies `nodeDownloadParams, `rootDownloadStates, `broken
      ensures NoEmpty(nodeDownloadParams) && nodeDownloadParams.Keys <= old(nodeDownloadParams.Keys)
      ensures forall r :: ViewOf(St(), r) == if r == root then Drop(ViewOf(old(St()), r)) else ViewOf(old(St()), r)
    {
      hide EntriesOf, NoEmpty;
      ClearRootDownloadState(root);
      ghost var cleared := St();
      broken := broken + multiset{root};
      forall r ensures ViewOf(St(), r) == if r == root then Drop(ViewOf(old(St()), r)) else ViewOf(old(St()), r) {
        assert ViewOf(cleared, r) == if r == root then Clear(ViewOf(old(St()), r)) else ViewOf(old(St()), r);
      }
    }

    method DropMalformed(malformed: set<Link>)
      requires NoEmpty(nodeDownloadParams)
      modifies `nodeDownloadParams, `rootDownloadStates, `broken
      ensures NoEmpty(nodeDownloadParams) && nodeDownloadParams.Keys <= old(nodeDownloadParams.Keys)
      ensures AllDropped(old(St()), St(), malformed)
    {
      hide ViewOf, NoEmpty, Drop;
      var todo := malformed;
      while todo != {}
        invariant todo <= malformed
        invariant NoEmpty(nodeDownloadParams) && nodeDownloadParams.Keys <= old(nodeDownloadParams.Keys)
        invariant forall r ::
          ViewOf(St(), r) == if r in malformed && r !in todo then Drop(ViewOf(old(St()), r)) else ViewOf(old(St()), r)
        decreases todo
      {
        var r :| r in todo;
        DropRoot(r);
        todo := todo - {r};
      }
    }

    /** A root left with nothing to wait for becomes Full, is cleared and reported. */
    method FinishRoot(root: Link)
      requires NoEmpty(nodeDownloadParams)
      modifies `nodeDownloadParams, `rootDownloadStates, `statuses, `added
      ensures NoEmpty(nodeDownloadParams) && nodeDownloadParams.Keys <= old(nodeDownloadParams.Keys)
      ensures forall r :: ViewOf(St(), r) == if r == root then Finish(ViewOf(old(St()), r)) else ViewOf(old(St()), r)
    {
      hide ViewOf, NoEmpty, EntriesOf, Clear, Finish, StatusTransitionAllowed;
      ghost var s0 := St();
      if root in rootDownloadStates && rootDownloadStates[root].remainingNodeCounter == 0 {
        var _ := SetStatus(root, Full);
        ghost var s1 := St();
        ClearRootDownloadState(root);
        ghost var s2 := St();
        added := added + multiset{root};
        forall r { FinishedView(s0, s1, s2, St(), root, r); }
      } else {
        NotFinished(s0, root);
      }
    }

    method FinishRoots(roots: set<Link>)
      requires NoEmpty(nodeDownloadParams)
      modifies `nodeDownloadParams, `rootDownloadStates, `statuses, `added
      ensures NoEmpty(nodeDownloadParams) && nodeDownloadParams.Keys <= old(nodeDownloadParams.Keys)
      ensures AllFinished(old(St()), St(), roots)
    {
      hide ViewOf, NoEmpty, Finish;
      var todo := roots;
      while todo != {}
        invariant todo <= roots
        invariant NoEmpty(nodeDownloadParams) && nodeDownloadParams.Keys <= old(nodeDownloadParams.Keys)
        invariant forall r ::
          ViewOf(St(), r) == if r in roots && r !in todo then Finish(ViewOf(old(St()), r)) else ViewOf(old(St()), r)
        decreases todo
      {
        var r :| r in todo;
        FinishRoot(r);
        todo := todo - {r};
      }
    }

    /** The status database refuses transitions that are not allowed. */
    method SetStatus(root: Link, next: Status) returns (ok: bool)
      modifies `statuses
      ensures ok == StatusTransitionAllowed(old(Lookup(statuses, root)), next)
      ensures statuses == if ok then old(statuses)[root := next] else old(statuses)
    {
      ok := StatusTransitionAllowed(Lookup(statuses, root), next);
      if ok {
        statuses := statuses[root := next];
      }
    }

    /** One child block becomes awaited by one root. */
    method AdoptLinkRoot(link: Link, root: Link, ixs: seq<Index>) returns (hasState: bool)
      requires NoEmpty(nodeDownloadParams)
      modifies `nodeDownloadParams, `rootDownloadStates
      ensures NoEmpty(nodeDownloadParams) && nodeDownloadParams.Keys == old(nodeDownloadParams.Keys) + {link}
      ensures rootDownloadStates.Keys == old(rootDownloadStates.Keys) && hasState == (root in rootDownloadStates)
      ensures forall r ::
        ViewOf(St(), r) == if r == root then AdoptAt(ViewOf(old(St()), r), link, ixs) else ViewOf(old(St()), r)
    {
      hide EntriesOf, NoEmpty, AppendAt;
      forall r { AppendAtEntries(nodeDownloadParams, link, root, ixs, r); }
      AppendAtKeys(nodeDownloadParams, link, root, ixs);
      nodeDownloadParams := AppendAt(nodeDownloadParams, link, root, ixs);
      hasState := root in rootDownloadStates;
      if hasState {
        var rs := rootDownloadStates[root];
        rootDownloadStates := rootDownloadStates[root := rs.(
          allDescendants := rs.allDescendants + {link},
          remainingNodeCounter := rs.remainingNodeCounter + |ixs|)];
      }
    }

    /** One child block becomes awaited by the roots in `ps`; `someRoot` is a root met with a state. */
    method AdoptLink(link: Link, ps: map<Link, seq<Index>>, someRoot: Option<Link>) returns (someRoot': Option<Link>)
      requires NoEmpty(nodeDownloadParams)
      modifies `nodeDownloadParams, `rootDownloadStates
      ensures rootDownloadStates.Keys == old(rootDownloadStates.Keys)
      ensures someRoot'.Some? <==> someRoot.Some? || Meets(ps.Keys, rootDownloadStates.Keys)
      ensures NoEmpty(nodeDownloadParams) && nodeDownloadParams.Keys <= old(nodeDownloadParams.Keys) + {link}
      ensures forall r ::
        ViewOf(St(), r) == if r in ps then AdoptAt(ViewOf(old(St()), r), link, ps[r]) else ViewOf(old(St()), r)
    {
      hide ViewOf, NoEmpty, AdoptAt, Meets;
      someRoot' := someRoot;
      var todo := ps.Keys;
      MeetsNothing(ps.Keys - todo, rootDownloadStates.Keys);
      while todo != {}
        invariant todo <= ps.Keys
        invariant rootDownloadStates.Keys == old(rootDownloadStates.Keys)
        invariant someRoot'.Some? <==> someRoot.Some? || Meets(ps.Keys - todo, rootDownloadStates.Keys)
        invariant NoEmpty(nodeDownloadParams) && nodeDownloadParams.Keys <= old(nodeDownloadParams.Keys) + {link}
        invariant forall r ::
          ViewOf(St(), r) == if r in ps && r !in todo then AdoptAt(ViewOf(old(St()), r), link, ps[r])
          else ViewOf(old(St()), r)
        decreases todo
      {
        var r :| r in todo;
        var hasState := AdoptLinkRoot(link, r, ps[r]);
        if hasState {
          someRoot' := Some(r);
        }
        MeetsMore(ps.Keys, todo, r, rootDownloadStates.Keys);
        todo := todo - {r};
      }
      assert ps.Keys - todo == ps.Keys;
    }

    /** All children become awaited; those already stored are to be processed next, the others are
        to be requested, through the session of `someRoot`. */
    method AdoptChildren(children: Params) returns (toProcess: seq<Link>, toDownload: seq<Link>, someRoot: Option<Link>)
      requires NoEmpty(nodeDownloadParams)
      modifies `nodeDownloadParams, `rootDownloadStates
      ensures NoEmpty(nodeDownloadParams) && nodeDownloadParams.Keys <= old(nodeDownloadParams.Keys) + children.Keys
      ensures AllAdopted(old(St()), St(), children)
      ensures forall l :: l in toProcess <==> l in children && l in store
      ensures forall l :: l in toDownload <==> l in children && l !in store
      ensures someRoot.Some? <==> SomeMeets(children, children.Keys, old(rootDownloadStates.Keys))
    {
      hide ViewOf, NoEmpty, Adopt, AdoptAt, EntriesOf, Done, SomeMeets, Meets;
      toProcess, toDownload, someRoot := [], [], None;
      var todo := children.Keys;
      SomeMeetsNothing(children, children.Keys - todo, rootDownloadStates.Keys);
      forall r ensures Done(children, todo, r) == map[] && Adopt(ViewOf(old(St()), r), map[]) == ViewOf(old(St()), r) {
        DoneNothing(children, r);
        AdoptNothing(ViewOf(old(St()), r));
      }
      while todo != {}
        invariant todo <= children.Keys
        invariant NoEmpty(nodeDownloadParams) && nodeDownloadParams.Keys <= old(nodeDownloadParams.Keys) + children.Keys
        invariant forall r :: ViewOf(St(), r) == Adopt(ViewOf(old(St()), r), Done(children, todo, r))
        invariant forall l :: l in toProcess <==> l in children && l !in todo && l in store
        invariant forall l :: l in toDownload <==> l in children && l !in todo && l !in store
        invariant rootDownloadStates.Keys == old(rootDownloadStates.Keys)
        invariant someRoot.Some? <==> SomeMeets(children, children.Keys - todo, rootDownloadStates.Keys)
        decreases todo
      {
        var link :| link in todo;
        label next:
        someRoot := AdoptLink(link, children[link], someRoot);
        forall r ensures ViewOf(St(), r) == Adopt(ViewOf(old(St()), r), Done(children, todo - {link}, r)) {
          DoneStep(children, todo, link, r);
          if r in children[link] {
            AdoptStep(ViewOf(old(St()), r), Done(children, todo, r), link, children[link][r]);
          }
          assert ViewOf(old@next(St()), r) == Adopt(ViewOf(old(St()), r), Done(children, todo, r));
        }
        if link in store {
          toProcess := toProcess + [link];
        } else {
          toDownload := toDownload + [link];
        }
        SomeMeetsMore(children, todo, link, rootDownloadStates.Keys);
        todo := todo - {link};
      }
      assert children.Keys - todo == children.Keys;
      forall r ensures Done(children, todo, r) == EntriesOf(children, r) {
        DoneAll(children, r);
      }
    }

    /** Everything one awaited block causes, up to the processing of stored children. The process
        ends exactly when a child is to be requested and no root that recorded one has a state. */
    method ConsumeBlock(id: Link, block: seq<Byte>) returns (panicked: bool, toProcess: seq<Link>)
      requires Valid() && id in nodeDownloadParams
      modifies this
      ensures panicked <==> Panics(cfg, WorldOf(old(St())), id, block)
      ensures store == old(store)[id := block] && (panicked ==> statuses == old(statuses))
      ensures !panicked ==> Consumed(cfg, old(St()), id, block, St()) && NoEmpty(nodeDownloadParams)
      ensures forall l :: l in toProcess ==> l in store
      ensures !panicked ==> Overdue(St()) <= (Overdue(old(St())) - {id}) + set l | l in toProcess
    {
      hide ViewOf, NoEmpty, AllCharged, AllFixed, AllDropped, AllAdopted, AllFinished, StepFor, ResultFor, Consumed,
        Indexed, EntriesOf, Panics,
        RecordedAs, SomeMeets;
      ghost var s0 := St();
      SaneNoEmpty(cfg, s0);
      store := store[id := block];
      var oldPs := nodeDownloadParams[id];
      nodeDownloadParams := nodeDownloadParams - {id};
      RemovedNoEmpty(s0.params, id);
      ghost var s1 := St();
      ChargeRoots(oldPs);
      ghost var s2 := St();
      var children, malformed, schemas := ProcessDownloadedBlockStep(cfg, rootDownloadStates, oldPs, block);
      SetSchemas(schemas);
      ghost var s3 := St();
      DropMalformed(malformed);
      ghost var s4 := St();
      var toDownload, someRoot;
      toProcess, toDownload, someRoot := AdoptChildren(children);
      ghost var s5 := St();
      panicked := |toDownload| > 0 && someRoot.None?;
      forall r ensures RecordedAs(cfg, MachineOf(s0, r), id, block, EntriesOf(children, r), r in s4.roots.Keys) {
        RecordedExactly(cfg, s0, s1, s2, s3, s4, id, block, children, malformed, schemas, r);
      }
      PanicExactly(cfg, s0, s4.roots.Keys, id, block, children, toDownload, someRoot);
      if panicked {
        return;
      }
      FinishRoots(oldPs.Keys);
      PhaseChain(cfg, s0, s1, s2, s3, s4, s5, St(), id, block, children, malformed, schemas);
    }

    /** Processes a block and, recursively, every stored child it makes awaited. On every root this
        acts as a run of the root's machine over `acts`: this block first, then stored blocks. It
        terminates whatever the store holds. When it returns, no stored block is awaited that was
        not; when it ends the process, that is at the first block after `acts` that must. */
    method ProcessDownloadedBlock(id: Link, block: seq<Byte>)
      returns (out: Outcome, ghost acts: seq<Action>, ghost reached: State)
      requires Valid()
      modifies this
      ensures store == old(store)[id := block]
      ensures out.Returned? ==> Valid() && reached == St() && Processed(cfg, old(St()), id, block, acts, St())
      ensures out.Returned? ==> Overdue(St()) <= Overdue(old(St())) - {id} && NotHigher(St(), old(St()))
      ensures out.Panicked? ==> Interrupted(cfg, old(St()), Consume(id, block), acts, reached, out, St())
      decreases |UnsetRoots(St())|, TotalWeight(St())
    {
      hide Sane, Consumed, Processed, UnsetRoots, TotalWeight, Overdue, Lower, NotHigher, ValidConfig, Pending, NoEmpty,
        Panics, Interrupted;
      ghost var s0 := St();
      if id !in nodeDownloadParams {
        store := store[id := block];
        Unawaited(cfg, s0, id, block, St());
        return Returned, [Consume(id, block)], St();
      }
      var panicked, toProcess := ConsumeBlock(id, block);
      if panicked {
        InterruptedAtOnce(cfg, s0, id, block, St());
        return Panicked(id, block), [], s0;
      }
      acts := [Consume(id, block)];
      AfterConsume(cfg, s0, id, block, St());
      PendingAll(Overdue(St()), Overdue(s0) - {id}, toProcess);
      for i := 0 to |toProcess|
        invariant ValidConfig(cfg) && Sane(cfg, St())
        invariant Processed(cfg, s0, id, block, acts, St()) && store == s0.store[id := block]
        invariant forall l :: l in toProcess ==> l in store
        invariant Overdue(St()) <= (Overdue(s0) - {id}) + Pending(toProcess, i)
        invariant Lower(St(), s0)
      {
        var link := toProcess[i];
        ghost var si := St();
        LowerDecreases(si, s0);
        SameStore(store, link);
        ghost var more;
        out, more, reached := ProcessDownloadedBlock(link, store[link]);
        if out.Panicked? {
          InterruptedMore(cfg, s0, id, block, acts, si, link, more, reached, out, St());
          return out, acts + more, reached;
        }
        ProcessedMore(cfg, s0, id, block, acts, si, link, more, St());
        acts := acts + more;
        LowerTransitive(St(), si, s0);
        PendingStep(toProcess, i);
      }
      PendingNone(toProcess);
      LowerNotHigher(St(), s0);
      return Returned, acts, St();
    }

    /** Starts the download of `root`; `requestOk` says whether asking the network for the root
        block succeeds when it is not in the store. */
    method KickStartRootDownload(root: Link, tag: Byte, requestOk: bool)
      returns (out: Outcome, ghost acts: seq<Action>, ghost reached: State)
      requires Valid()
      modifies this
      ensures store == old(store)
      ensures out.Returned? ==> Valid() && reached == St() && Overdue(St()) <= Overdue(old(St()))
      ensures var kick := Kick(root, tag, root in old(nodeDownloadParams), root !in old(store) && !requestOk);
        if out.Returned? then Started(cfg, old(St()), kick, acts, St())
        else Interrupted(cfg, old(St()), kick, acts, reached, out, St())
    {
      hide Sane, Started, EntriesOf, ViewOf, Overdue, StatusTransitionAllowed, RootOnly, ValidConfig, NotHigher,
        NoEmpty,
        Processed, Interrupted;
      ghost var s0 := St();
      ghost var failed := root !in store && !requestOk;
      acts := [Kick(root, tag, root in nodeDownloadParams, failed)];
      if root in nodeDownloadParams {
        KickBlocked(cfg, s0, root, tag, failed);
        return Returned, acts, St();
      }
      var allowed := SetStatus(root, Partial);
      if !allowed {
        if Lookup(statuses, root) == Some(Full) {
          added := added + multiset{root};
        }
        KickRefused(cfg, s0, root, tag, failed, St());
        return Returned, acts, St();
      }
      nodeDownloadParams := nodeDownloadParams[root := RootOnly(root)];
      rootDownloadStates := rootDownloadStates[root := RootState({root}, None, tag, 1)];
      ghost var s1 := St();
      KickStarted(cfg, s0, root, tag, s1);
      if root in store {
        out, acts, reached := ProcessStoredRoot(root, s0, acts);
        return;
      }
      if !requestOk {
        SaneNoEmpty(cfg, s1);
        ClearRootDownloadState(root);
        KickFailed(cfg, s0, s1, root, tag, St());
      }
      return Returned, acts, St();
    }

    /** The root block need not be requested: it is processed at once. */
    method ProcessStoredRoot(root: Link, ghost s0: State, ghost kicked: seq<Action>)
      returns (out: Outcome, ghost acts: seq<Action>, ghost reached: State)
      requires Valid() && root in store
      requires kicked != [] && Started(cfg, s0, kicked[0], kicked, St())
      requires Overdue(St()) <= Overdue(s0) + {root}
      modifies this
      ensures store == old(store)
      ensures out.Returned? ==> Valid() && reached == St() && Overdue(St()) <= Overdue(s0)
      ensures out.Returned? ==> Started(cfg, s0, kicked[0], acts, St())
      ensures out.Panicked? ==> Interrupted(cfg, s0, kicked[0], acts, reached, out, St())
    {
      hide Sane, Started, Overdue, ValidConfig, NotHigher, Processed, Interrupted;
      ghost var s1 := St();
      SameStore(store, root);
      ghost var more;
      out, more, reached := ProcessDownloadedBlock(root, store[root]);
      acts := kicked + more;
      if out.Panicked? {
        StartInterrupted(cfg, s0, kicked, s1, root, more, reached, out, St());
      } else {
        StartedMore(cfg, s0, kicked, s1, root, more, St());
      }
    }

    /** The deadline of a download passes. */
    method ExpireRoot(root: Link) returns (ghost acts: seq<Action>)
      requires Valid()
      modifies `nodeDownloadParams, `rootDownloadStates
      ensures Valid()
      ensures acts == [Expire(root)] && Acted(cfg, old(St()), acts, St())
      ensures Overdue(St()) <= Overdue(old(St()))
    {
      hide Sane, Acted, ViewOf, ValidConfig, Overdue, NoEmpty;
      ghost var s0 := St();
      SaneNoEmpty(cfg, s0);
      ClearRootDownloadState(root);
      acts := [Expire(root)];
      Expired(cfg, s0, root, St());
    }
  }

  /** The tag of block bodies, the only one configured. */
  const BlockBodyTag: Byte := 0

  /** The downloader as it is shipped: blocks of 256 KiB, bodies of at most 64 MiB. */
  method NewBitswapCtx(store: Blocks, statuses: map<Link, Status>) returns (ctx: BitswapCtx)
    ensures fresh(ctx) && ctx.Valid() && ctx.AtRest()
    ensures ctx.cfg.maxBlockSize == 0x4_0000 && ctx.cfg.maxSizes == map[BlockBodyTag := 0x400_0000]
    ensures forall r :: MachineOf(ctx.St(), r) == Machine(store, RootView(None, map[], Lookup(statuses, r), 0, 0))
  {
    hide MachineOf, Sane, IsTable;
    var depths := MkDepthIndices(LinksPerBlock(0x4_0000), 0x7FFF_FFFF);
    var cfg := Config(0x4_0000, map[BlockBodyTag := 0x400_0000], depths);
    assert RequiredBlockCount(0x4_0000, 0x400_0000 + 5) <= 0x7FFF_FFFF;
    assert IsTable(cfg.depths, LinksPerBlock(cfg.maxBlockSize), 0x7FFF_FFFF);
    ctx := new BitswapCtx(cfg, store, statuses);
  }

  // ----- actions of the downloader -----

  /** The state changed, for every root, as a run of that root's machine over `acts`, none of which
      ended the process. */
  ghost predicate Acted(cfg: Config, st: State, acts: seq<Action>, st': State)
    requires cfg.maxBlockSize > 2 + LINK_SIZE
  {
    && (forall r :: MachineOf(st', r) == Run(cfg, r, MachineOf(st, r), acts))
    && SafeRun(cfg, WorldOf(st), acts)
  }

  /** The actions up to the one that ended the process, including it. */
  function WithLast(acts: seq<Action>, out: Outcome): seq<Action>
    requires out.Panicked?
  {
    acts + [Consume(out.id, out.block)]
  }

  /** From `st`, with `first` first and then blocks of the store, the downloader came to `reached`,
      where the next block ended the process; what it leaves behind are the store and the statuses. */
  ghost predicate Interrupted(cfg: Config, st: State, first: Action, acts: seq<Action>, reached: State, out: Outcome,
                              st': State)
    requires cfg.maxBlockSize > 2 + LINK_SIZE
  {
    && out.Panicked?
    && Acted(cfg, st, acts, reached)
    && Panics(cfg, WorldOf(reached), out.id, out.block)
    && st'.store == reached.store[out.id := out.block] && st'.statuses == reached.statuses
    && WithLast(acts, out)[0] == first
    && AllStored(WithLast(acts, out)[1..], st'.store)
  }

  lemma InterruptedAtOnce(cfg: Config, s0: State, id: Link, block: seq<Byte>, s1: State)
    requires cfg.maxBlockSize > 2 + LINK_SIZE && Panics(cfg, WorldOf(s0), id, block)
    requires s1.store == s0.store[id := block] && s1.statuses == s0.statuses
    ensures Interrupted(cfg, s0, Consume(id, block), [], s0, Panicked(id, block), s1)
  {
    hide Panics;
    SafeNothing(cfg, WorldOf(s0));
  }

  lemma InterruptedMore(cfg: Config, s0: State, id: Link, block: seq<Byte>, acts: seq<Action>, si: State, link: Link,
                        more: seq<Action>, reached: State, out: Outcome, s1: State)
    requires cfg.maxBlockSize > 2 + LINK_SIZE && link in si.store && s1.store == si.store
    requires Processed(cfg, s0, id, block, acts, si)
    requires Interrupted(cfg, si, Consume(link, si.store[link]), more, reached, out, s1)
    ensures Interrupted(cfg, s0, Consume(id, block), acts + more, reached, out, s1)
  {
    hide Acted, AllStored, Panics;
    ActedConcat(cfg, s0, acts, si, more, reached);
    MoreStored(acts, WithLast(more, out), s1.store, link);
    assert WithLast(acts + more, out) == acts + WithLast(more, out);
  }

  /** `acts` took the downloader from `st` to `st'`: `block` first, then blocks of the store. */
  ghost predicate Processed(cfg: Config, st: State, id: Link, block: seq<Byte>, acts: seq<Action>, st': State)
    requires cfg.maxBlockSize > 2 + LINK_SIZE
  {
    && Acted(cfg, st, acts, st')
    && acts != [] && acts[0] == Consume(id, block)
    && st'.store == st.store[id := block]
    && AllStored(acts[1..], st'.store)
  }

  lemma ProcessedMore(cfg: Config, s0: State, id: Link, block: seq<Byte>, acts: seq<Action>, si: State,
                      link: Link, more: seq<Action>, s1: State)
    requires cfg.maxBlockSize > 2 + LINK_SIZE && link in si.store
    requires Processed(cfg, s0, id, block, acts, si) && Processed(cfg, si, link, si.store[link], more, s1)
    ensures Processed(cfg, s0, id, block, acts + more, s1)
    ensures s1.store == si.store
  {
    hide Acted, AllStored;
    assert s1.store == si.store;
    MoreStored(acts, more, s1.store, link);
    ActedConcat(cfg, s0, acts, si, more, s1);
  }

  /** The links still to be processed. */
  ghost function Pending(toProcess: seq<Link>, i: nat): set<Link>
    requires i <= |toProcess|
  {
    set l | l in toProcess[i..]
  }

  lemma PendingAll(overdue: set<Link>, base: set<Link>, toProcess: seq<Link>)
    requires overdue <= base + set l | l in toProcess
    ensures overdue <= base + Pending(toProcess, 0)
  {
    assert toProcess[0..] == toProcess;
  }

  lemma PendingStep(toProcess: seq<Link>, i: nat)
    requires i < |toProcess|
    ensures Pending(toProcess, i) == {toProcess[i]} + Pending(toProcess, i + 1)
  {
    assert toProcess[i..] == [toProcess[i]] + toProcess[i + 1..];
  }

  lemma PendingNone(toProcess: seq<Link>)
    ensures Pending(toProcess, |toProcess|) == {}
  {}

  lemma LowerNotHigher(a: State, b: State)
    requires Lower(a, b)
    ensures NotHigher(a, b)
  {}

  lemma SameStore(store: Blocks, id: Link)
    requires id in store
    ensures store[id := store[id]] == store
  {}

  lemma NoneStored(acts: seq<Action>, store: Blocks)
    requires |acts| == 1
    ensures AllStored(acts[1..], store)
  {}

  lemma MoreStored(acts: seq<Action>, more: seq<Action>, store: Blocks, l: Link)
    requires acts != [] && more != [] && AllStored(acts[1..], store) && AllStored(more[1..], store)
    requires l in store && more[0] == Consume(l, store[l])
    ensures AllStored((acts + more)[1..], store)
  {
    assert (acts + more)[1..] == acts[1..] + more;
    assert more == [more[0]] + more[1..];
  }

  lemma ActedConcat(cfg: Config, s0: State, a: seq<Action>, s1: State, b: seq<Action>, s2: State)
    requires cfg.maxBlockSize > 2 + LINK_SIZE && Acted(cfg, s0, a, s1) && Acted(cfg, s1, b, s2)
    ensures Acted(cfg, s0, a + b, s2)
  {
    hide MachineOf, Run, SafeRun;
    forall r { RunConcat(cfg, r, MachineOf(s0, r), a, b); }
    SafeConcat(cfg, WorldOf(s0), a, WorldOf(s1), b);
  }

  lemma ActedOne(cfg: Config, s0: State, a: Action, s1: State)
    requires cfg.maxBlockSize > 2 + LINK_SIZE
    requires forall r :: MachineOf(s1, r) == Act(cfg, r, MachineOf(s0, r), a)
    requires a.Consume? ==> !Panics(cfg, WorldOf(s0), a.id, a.block)
    ensures Acted(cfg, s0, [a], s1)
  {
    hide MachineOf, Run, Act, Panics, SafeRun;
    SafeOne(cfg, WorldOf(s0), a);
    forall r { RunOne(cfg, r, MachineOf(s0, r), a); }
  }

  lemma LowerDecreases(a: State, b: State)
    requires Lower(a, b)
    ensures |UnsetRoots(a)| < |UnsetRoots(b)| || (|UnsetRoots(a)| == |UnsetRoots(b)| && TotalWeight(a) < TotalWeight(b))
  {}

  /** One action with a known effect on every root keeps the state sane. */
  lemma ActKeepsSane(cfg: Config, s0: State, a: Action, s1: State)
    requires ValidConfig(cfg) && Sane(cfg, s0) && NoEmpty(s1.params)
    requires forall r :: MachineOf(s1, r) == Act(cfg, r, MachineOf(s0, r), a)
    ensures Sane(cfg, s1)
  {
    hide Act, Indexed, ViewOf;
    forall r ensures Indexed(cfg, r, ViewOf(s1, r)) {
      IndexedStep(cfg, r, MachineOf(s0, r), a);
      assert MachineOf(s1, r).view == ViewOf(s1, r);
    }
  }

  lemma ConsumedIsAct(cfg: Config, s0: State, id: Link, block: seq<Byte>, s1: State)
    requires cfg.maxBlockSize > 2 + LINK_SIZE && Consumed(cfg, s0, id, block, s1)
    ensures forall r :: MachineOf(s1, r) == Act(cfg, r, MachineOf(s0, r), Consume(id, block))
  {
    hide ViewOf, ConsumeView;
  }

  lemma AfterConsume(cfg: Config, s0: State, id: Link, block: seq<Byte>, s1: State)
    requires ValidConfig(cfg) && Sane(cfg, s0) && Consumed(cfg, s0, id, block, s1) && NoEmpty(s1.params)
    requires id in s0.params && !Panics(cfg, WorldOf(s0), id, block)
    ensures Sane(cfg, s1) && Processed(cfg, s0, id, block, [Consume(id, block)], s1) && Lower(s1, s0)
  {
    hide Sane, Acted, Lower, ViewOf, Act, Panics;
    NoneStored([Consume(id, block)], s1.store);
    ConsumedIsAct(cfg, s0, id, block, s1);
    ActKeepsSane(cfg, s0, Consume(id, block), s1);
    ActedOne(cfg, s0, Consume(id, block), s1);
    MeasureDrops(cfg, s0, id, block, s1);
  }

  lemma Unawaited(cfg: Config, s0: State, id: Link, block: seq<Byte>, s1: State)
    requires ValidConfig(cfg) && Sane(cfg, s0) && id !in s0.params
    requires s1 == s0.(store := s0.store[id := block])
    ensures Sane(cfg, s1) && Processed(cfg, s0, id, block, [Consume(id, block)], s1) && NotHigher(s1, s0)
    ensures Overdue(s1) <= Overdue(s0) - {id}
  {
    hide Acted, Indexed, SumOver, AllStored, Panics;
    UnawaitedNoPanic(cfg, s0, id, block);
    NoneStored([Consume(id, block)], s1.store);
    forall r ensures ViewOf(s1, r) == ConsumeView(cfg, ViewOf(s0, r), id, block) {
      assert ViewOf(s1, r) == ViewOf(s0, r);
      assert id !in ViewOf(s0, r).entries;
    }
    ConsumedIsAct(cfg, s0, id, block, s1);
    ActedOne(cfg, s0, Consume(id, block), s1);
    var f, f' := (r: Link) => ViewWeight(ViewOf(s0, r)), (r: Link) => ViewWeight(ViewOf(s1, r));
    SumLe(ListedRoots(s0), f, ListedRoots(s1), f');
    SumLe(ListedRoots(s1), f', ListedRoots(s0), f);
  }

  // ----- kick-starts -----

  /** `acts` took the downloader from `st` to `st'`: the kick-start first, then blocks of the store. */
  ghost predicate Started(cfg: Config, st: State, kick: Action, acts: seq<Action>, st': State)
    requires cfg.maxBlockSize > 2 + LINK_SIZE
  {
    && Acted(cfg, st, acts, st')
    && acts != [] && acts[0] == kick
    && st'.store == st.store
    && AllStored(acts[1..], st'.store)
  }

  lemma StartedMore(cfg: Config, s0: State, acts: seq<Action>, s1: State, root: Link, more: seq<Action>, s2: State)
    requires cfg.maxBlockSize > 2 + LINK_SIZE && acts != [] && root in s1.store
    requires Started(cfg, s0, acts[0], acts, s1) && Processed(cfg, s1, root, s1.store[root], more, s2)
    ensures Started(cfg, s0, acts[0], acts + more, s2)
  {
    hide Acted, AllStored;
    assert s2.store == s1.store;
    MoreStored(acts, more, s2.store, root);
    ActedConcat(cfg, s0, acts, s1, more, s2);
  }

  lemma StartInterrupted(cfg: Config, s0: State, acts: seq<Action>, s1: State, root: Link,
                         more: seq<Action>, reached: State, out: Outcome, s2: State)
    requires cfg.maxBlockSize > 2 + LINK_SIZE && acts != [] && root in s1.store && s2.store == s1.store
    requires Started(cfg, s0, acts[0], acts, s1)
    requires Interrupted(cfg, s1, Consume(root, s1.store[root]), more, reached, out, s2)
    ensures Interrupted(cfg, s0, acts[0], acts + more, reached, out, s2)
  {
    hide Acted, AllStored, Panics;
    ActedConcat(cfg, s0, acts, s1, more, reached);
    MoreStored(acts, WithLast(more, out), s2.store, root);
    assert WithLast(acts + more, out) == acts + WithLast(more, out);
  }

  /** The root, awaited by itself at index 0. */
  function RootOnly(root: Link): Entries {
    map[root := [0]]
  }

  lemma KickBlocked(cfg: Config, s0: State, root: Link, tag: Byte, failed: bool)
    requires cfg.maxBlockSize > 2 + LINK_SIZE
    ensures Started(cfg, s0, Kick(root, tag, true, failed), [Kick(root, tag, true, failed)], s0)
  {
    hide ViewOf;
    ActedOne(cfg, s0, Kick(root, tag, true, failed), s0);
  }

  lemma NotAwaited(st: State, root: Link)
    requires root !in st.params
    ensures root !in ViewOf(st, root).entries
  {}

  lemma KickRefused(cfg: Config, s0: State, root: Link, tag: Byte, failed: bool, s1: State)
    requires ValidConfig(cfg) && Sane(cfg, s0) && root !in s0.params
    requires !StatusTransitionAllowed(Lookup(s0.statuses, root), Partial)
    requires s1 == s0.(added :=
      if Lookup(s0.statuses, root) == Some(Full) then s0.added + multiset{root} else s0.added)
    ensures Sane(cfg, s1) && Started(cfg, s0, Kick(root, tag, false, failed), [Kick(root, tag, false, failed)], s1)
    ensures Overdue(s1) == Overdue(s0)
  {
    hide EntriesOf, Indexed, Sane;
    var a := Kick(root, tag, false, failed);
    NotAwaited(s0, root);
    SaneNoEmpty(cfg, s0);
    ActKeepsSane(cfg, s0, a, s1);
    ActedOne(cfg, s0, a, s1);
  }

  lemma StartedEntries(params: Params, root: Link, r: Link)
    requires root !in params
    ensures EntriesOf(params[root := RootOnly(root)], r) ==
      if r == root then EntriesOf(params, r)[root := [0]] else EntriesOf(params, r)
  {}

  lemma KickStarted(cfg: Config, s0: State, root: Link, tag: Byte, s1: State)
    requires ValidConfig(cfg) && Sane(cfg, s0) && root !in s0.params
    requires StatusTransitionAllowed(Lookup(s0.statuses, root), Partial)
    requires s1 == s0.(
      statuses := s0.statuses[root := Partial],
      params := s0.params[root := RootOnly(root)],
      roots := s0.roots[root := RootState({root}, None, tag, 1)])
    ensures Sane(cfg, s1) && Started(cfg, s0, Kick(root, tag, false, false), [Kick(root, tag, false, false)], s1)
    ensures Overdue(s1) <= Overdue(s0) + (if root in s0.store then {root} else {})
  {
    hide EntriesOf, Indexed, Sane;
    var a := Kick(root, tag, false, false);
    NotAwaited(s0, root);
    SaneNoEmpty(cfg, s0);
    forall r { StartedEntries(s0.params, root, r); }
    assert root in RootOnly(root);
    ActKeepsSane(cfg, s0, a, s1);
    ActedOne(cfg, s0, a, s1);
  }

  lemma KickFailed(cfg: Config, s0: State, s1: State, root: Link, tag: Byte, s2: State)
    requires ValidConfig(cfg) && Sane(cfg, s0) && root !in s0.params && NoEmpty(s2.params)
    requires StatusTransitionAllowed(Lookup(s0.statuses, root), Partial)
    requires s1 == s0.(
      statuses := s0.statuses[root := Partial],
      params := s0.params[root := RootOnly(root)],
      roots := s0.roots[root := RootState({root}, None, tag, 1)])
    requires s2.store == s0.store && root !in s0.store && s2.params.Keys <= s1.params.Keys
    requires forall r :: ViewOf(s2, r) == if r == root then Clear(ViewOf(s1, r)) else ViewOf(s1, r)
    ensures Sane(cfg, s2) && Started(cfg, s0, Kick(root, tag, false, true), [Kick(root, tag, false, true)], s2)
    ensures Overdue(s2) <= Overdue(s0)
  {
    hide EntriesOf, Indexed, Sane;
    var a := Kick(root, tag, false, true);
    NotAwaited(s0, root);
    forall r { StartedEntries(s0.params, root, r); }
    ActKeepsSane(cfg, s0, a, s2);
    ActedOne(cfg, s0, a, s2);
  }

  lemma Expired(cfg: Config, s0: State, root: Link, s1: State)
    requires ValidConfig(cfg) && Sane(cfg, s0) && NoEmpty(s1.params) && s1.params.Keys <= s0.params.Keys
    requires s1.store == s0.store && forall r ::
      ViewOf(s1, r) == if r == root then Clear(ViewOf(s0, r)) else ViewOf(s0, r)
    ensures Sane(cfg, s1) && Acted(cfg, s0, [Expire(root)], s1)
    ensures Overdue(s1) <= Overdue(s0)
  {
    hide ViewOf, Indexed, Sane;
    ActKeepsSane(cfg, s0, Expire(root), s1);
    ActedOne(cfg, s0, Expire(root), s1);
  }

  // ----- lemmas for the phases -----

  lemma NotFinished(st: State, root: Link)
    requires root !in st.roots || st.roots[root].remainingNodeCounter != 0
    ensures Finish(ViewOf(st, root)) == ViewOf(st, root)
  {}

  lemma FinishedView(s0: State, s1: State, s2: State, s3: State, root: Link, r: Link)
    requires root in s0.roots && s0.roots[root].remainingNodeCounter == 0
    requires s1 == s0.(statuses :=
      if StatusTransitionAllowed(Lookup(s0.statuses, root), Full) then s0.statuses[root := Full] else s0.statuses)
    requires ViewOf(s2, r) == if r == root then Clear(ViewOf(s1, r)) else ViewOf(s1, r)
    requires s3 == s2.(added := s2.added + multiset{root})
    ensures ViewOf(s3, r) == if r == root then Finish(ViewOf(s0, r)) else ViewOf(s0, r)
  {
    hide EntriesOf;
  }

  ghost function Done(children: Params, todo: set<Link>, r: Link): Entries {
    map l | l in children && r in children[l] && l !in todo :: children[l][r]
  }

  lemma DoneNothing(children: Params, r: Link)
    ensures Done(children, children.Keys, r) == map[]
  {}

  lemma DoneAll(children: Params, r: Link)
    ensures Done(children, {}, r) == EntriesOf(children, r)
  {}

  lemma DoneStep(children: Params, todo: set<Link>, l: Link, r: Link)
    requires l in todo && l in children
    ensures l !in Done(children, todo, r)
    ensures Done(children, todo - {l}, r) ==
      if r in children[l] then Done(children, todo, r)[l := children[l][r]] else Done(children, todo, r)
  {}

  lemma SaneNoEmpty(cfg: Config, st: State)
    requires cfg.maxBlockSize > 2 + LINK_SIZE && Sane(cfg, st)
    ensures NoEmpty(st.params)
  {}

  lemma RemovedNoEmpty(params: Params, id: Link)
    requires NoEmpty(params)
    ensures NoEmpty(params - {id})
  {}

  lemma RemovedView(st: State, st': State, id: Link, r: Link)
    requires st'.params == st.params - {id} && st'.roots == st.roots && st'.statuses == st.statuses
    requires st'.broken == st.broken && st'.added == st.added
    ensures ViewOf(st', r) == ViewOf(st, r).(entries := ViewOf(st, r).entries - {id})
  {}

  lemma JudgeIgnoresCounter(cfg: Config, rs: RootState, n: int, ixs: seq<Index>, block: seq<Byte>)
    requires cfg.maxBlockSize > 2 + LINK_SIZE
    ensures Judge(cfg, rs.(remainingNodeCounter := n), ixs, block) == Judge(cfg, rs, ixs, block)
  {
    hide ReadBlock, ReadRootData, GoodPrefix, RecordAll;
  }

  lemma ViewLive(st: State, r: Link)
    ensures ViewOf(st, r).live == Lookup(st.roots, r)
    ensures forall l :: l in ViewOf(st, r).entries <==> l in st.params && r in st.params[l]
    ensures forall l :: l in ViewOf(st, r).entries ==> ViewOf(st, r).entries[l] == st.params[l][r]
  {}

  /** All phases of all roots together are one consumption of the block. */
  lemma PhaseChain(cfg: Config, s0: State, s1: State, s2: State, s3: State, s4: State, s5: State, s6: State,
                   id: Link, block: seq<Byte>, children: Params, malformed: set<Link>, schemas: map<Link, BlockSchema>)
    requires cfg.maxBlockSize > 2 + LINK_SIZE && id in s0.params
    requires s1 == s0.(params := s0.params - {id}, store := s0.store[id := block])
    requires AllCharged(s1, s2, s0.params[id])
    requires forall r :: StepFor(cfg, s2.roots, s0.params[id], block, r, ResultFor(children, malformed, schemas, r))
    requires AllFixed(s2, s3, schemas) && AllDropped(s3, s4, malformed) && AllAdopted(s4, s5, children)
    requires AllFinished(s5, s6, s0.params[id].Keys) && s6.store == s1.store
    ensures Consumed(cfg, s0, id, block, s6)
  {
    hide ViewOf, Charge, FixSchema, Drop, Adopt, Finish, ConsumeView, StepFor, EntriesOf;
    var oldPs := s0.params[id];
    forall r ensures ViewOf(s6, r) == ConsumeView(cfg, ViewOf(s0, r), id, block) {
      RemovedView(s0, s1, id, r);
      PhasesFor(cfg, s0, s2, id, block, oldPs, children, malformed, schemas, r);
      ResultParts(children, malformed, schemas, r);
    }
  }

  /** What the phases up to the clearing of malformed roots make of root `r`: whether children were
      recorded, which, and whether its state survives. */
  ghost predicate RecordedAs(cfg: Config, m: Machine, id: Link, block: seq<Byte>, kids: Entries, survives: bool)
    requires cfg.maxBlockSize > 2 + LINK_SIZE
  {
    && (RecordsFor(cfg, m, id, block) <==> kids != map[])
    && (RecordsFor(cfg, m, id, block) ==> forall l :: l in kids <==> l in ReadBlock(block).links)
    && (RecordsFor(cfg, m, id, block) ==> (survives <==> !MismatchesFor(cfg, m, id, block)))
  }

  lemma RecordedExactly(cfg: Config, s0: State, s1: State, s2: State, s3: State, s4: State, id: Link, block: seq<Byte>,
                        children: Params, malformed: set<Link>, schemas: map<Link, BlockSchema>, r: Link)
    requires cfg.maxBlockSize > 2 + LINK_SIZE && id in s0.params
    requires s1 == s0.(params := s0.params - {id}, store := s0.store[id := block])
    requires AllCharged(s1, s2, s0.params[id])
    requires StepFor(cfg, s2.roots, s0.params[id], block, r, ResultFor(children, malformed, schemas, r))
    requires AllFixed(s2, s3, schemas) && AllDropped(s3, s4, malformed)
    ensures RecordedAs(cfg, MachineOf(s0, r), id, block, EntriesOf(children, r), r in s4.roots)
  {
    hide Judge, ReadBlock, EntriesOf, RecordsChildren, LateMismatch, AllCharged, AllFixed, AllDropped, ViewOf;
    var oldPs := s0.params[id];
    ViewLive(s0, r);
    LiveThrough(s1, s2, s3, s4, oldPs, schemas, malformed, r);
    if r in oldPs && r in s0.roots {
      var rs := s0.roots[r];
      JudgeIgnoresCounter(cfg, rs, rs.remainingNodeCounter - |oldPs[r]|, oldPs[r], block);
      KidsExactly(cfg, rs, oldPs[r], block);
    }
  }

  lemma LiveThrough(s1: State, s2: State, s3: State, s4: State, oldPs: map<Link, seq<Index>>,
                    schemas: map<Link, BlockSchema>, malformed: set<Link>, r: Link)
    requires AllCharged(s1, s2, oldPs) && AllFixed(s2, s3, schemas) && AllDropped(s3, s4, malformed)
    ensures r in s2.roots <==> r in s1.roots
    ensures r in s1.roots && r in oldPs ==>
      s2.roots[r] == s1.roots[r].(remainingNodeCounter := s1.roots[r].remainingNodeCounter - |oldPs[r]|)
    ensures r in s4.roots <==> r in s1.roots && r !in malformed
  {
    hide EntriesOf;
    assert ViewOf(s2, r).live == Lookup(s2.roots, r) && ViewOf(s3, r).live == Lookup(s3.roots, r);
    assert ViewOf(s4, r).live == Lookup(s4.roots, r);
  }

  /** Requesting children fails for want of a session exactly when the guard says so. */
  lemma PanicExactly(cfg: Config, s0: State, states: set<Link>, id: Link, block: seq<Byte>,
                     children: Params, toDownload: seq<Link>, someRoot: Option<Link>)
    requires cfg.maxBlockSize > 2 + LINK_SIZE && NoEmpty(children)
    requires forall r :: RecordedAs(cfg, MachineOf(s0, r), id, block, EntriesOf(children, r), r in states)
    requires forall l :: l in toDownload <==> l in children && l !in s0.store[id := block]
    requires someRoot.Some? <==> SomeMeets(children, children.Keys, states)
    ensures |toDownload| > 0 && someRoot.None? <==> Panics(cfg, WorldOf(s0), id, block)
  {
    hide RecordsFor, MismatchesFor, ViewOf, EntriesOf;
    var w := WorldOf(s0);
    if |toDownload| > 0 && someRoot.None? {
      var l := toDownload[0];
      assert l in toDownload;
      var r :| r in children[l];
      EntriesAre(children, r);
      assert Requests(cfg, w(r), id, block, l);
      forall r | RecordsFor(cfg, w(r), id, block) ensures MismatchesFor(cfg, w(r), id, block) {
        Unmet(children, states, r);
        assert RecordedAs(cfg, MachineOf(s0, r), id, block, EntriesOf(children, r), r in states);
      }
    }
    if Panics(cfg, w, id, block) {
      var r, l :| Requests(cfg, w(r), id, block, l);
      assert RecordedAs(cfg, MachineOf(s0, r), id, block, EntriesOf(children, r), r in states);
      EntriesAre(children, r);
      assert l in toDownload;
    }
    if SomeMeets(children, children.Keys, states) {
      var q := MetRoot(children, states);
      assert RecordedAs(cfg, MachineOf(s0, q), id, block, EntriesOf(children, q), q in states);
      AcceptedNoPanic(cfg, w, id, block, q);
    }
  }

  lemma Unmet(children: Params, states: set<Link>, r: Link)
    requires !SomeMeets(children, children.Keys, states) && EntriesOf(children, r) != map[]
    ensures r !in states
  {
    var l :| l in EntriesOf(children, r);
    assert l in children.Keys && r in children[l].Keys;
  }

  lemma MetRoot(children: Params, states: set<Link>) returns (r: Link)
    requires SomeMeets(children, children.Keys, states)
    ensures r in states && EntriesOf(children, r) != map[]
  {
    var l :| l in children.Keys && l in children && Meets(children[l].Keys, states);
    r :| r in children[l].Keys && r in states;
    assert l in EntriesOf(children, r);
  }

  lemma EntriesAre(children: Params, r: Link)
    ensures forall l :: l in EntriesOf(children, r) <==> l in children && r in children[l]
  {}

  lemma ResultParts(children: Params, malformed: set<Link>, schemas: map<Link, BlockSchema>, r: Link)
    ensures ResultFor(children, malformed, schemas, r) ==
      RootResult(EntriesOf(children, r), r in malformed, Lookup(schemas, r))
  {}

  /** The phases run by the downloader, for root `r`. */
  lemma PhasesFor(cfg: Config, st: State, charged: State, id: Link, block: seq<Byte>, oldPs: map<Link, seq<Index>>,
                  children: Params, malformed: set<Link>, schemas: map<Link, BlockSchema>, r: Link)
    requires cfg.maxBlockSize > 2 + LINK_SIZE && id in st.params && oldPs == st.params[id]
    requires var v := ViewOf(st, r).(entries := ViewOf(st, r).entries - {id});
      ViewOf(charged, r) == if r in oldPs then Charge(v, oldPs[r]) else v
    requires StepFor(cfg, charged.roots, oldPs, block, r, ResultFor(children, malformed, schemas, r))
    ensures var v1 := ViewOf(st, r).(entries := ViewOf(st, r).entries - {id});
      var v2 := if r in oldPs then Charge(v1, oldPs[r]) else v1;
      var v3 := FixSchema(v2, Lookup(schemas, r));
      var v4 := if r in malformed then Drop(v3) else v3;
      var v5 := Adopt(v4, EntriesOf(children, r));
      (if r in oldPs then Finish(v5) else v5) == ConsumeView(cfg, ViewOf(st, r), id, block)
  {
    hide Judge, AgreesWith, ConsumeView, Finish, Adopt, EntriesOf, ReadBlock, ViewOf, FixSchema, Drop;
    var v, res := ViewOf(st, r), ResultFor(children, malformed, schemas, r);
    ViewLive(st, r);
    ViewLive(charged, r);
    if r in oldPs && v.live.Some? {
      JudgeIgnoresCounter(cfg, v.live.value, v.live.value.remainingNodeCounter - |oldPs[r]|, oldPs[r], block);
    }
    PhasesAreConsume(cfg, v, id, block, res);
  }

  lemma AppendAtKeys(params: Params, l: Link, r: Link, ixs: seq<Index>)
    ensures AppendAt(params, l, r, ixs).Keys == params.Keys + {l}
  {}
}
