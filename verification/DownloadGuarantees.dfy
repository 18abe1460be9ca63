/** End to end: what the event loop means for the roots it serves. */
module DownloadGuarantees {
  import opened Options
  import opened LittleEndian
  import opened Schema
  import opened BlockCodec
  import opened BreadthFirst
  import opened BlockTree
  import opened BlockSplit
  import opened Weights
  import opened RootMachine
  import opened DownloadSafety
  import opened DownloadCompleteness
  import opened DownloaderState
  import opened DownloadPanic
  import opened DownloadEpisodes
  import opened RestartLaw
  import opened Downloader
  import opened DownloadLoop

  // ----- completeness -----

  /** An event that leaves the download of `root` undisturbed and delivers genuine blocks only. */
  ghost predicate Harmless(root: Link, content: Link -> seq<Byte>, e: Event) {
    match e
    case Deadline(r) => r != root
    case Download(_, roots, _) => root !in roots
    case Arrived(id, block) => block == content(id)
  }

  ghost predicate AllUndisturbed(root: Link, content: Link -> seq<Byte>, acts: seq<Action>) {
    forall i :: 0 <= i < |acts| ==> Undisturbed(root, content, acts[i])
  }

  lemma HarmlessActs(root: Link, content: Link -> seq<Byte>, events: seq<Event>, store: Blocks, acts: seq<Action>)
    requires forall e :: e in events ==> Harmless(root, content, e)
    requires StoreHolds(content, store) && AllAccounted(events, store, acts)
    ensures AllUndisturbed(root, content, acts)
  {
    forall i | 0 <= i < |acts| ensures Undisturbed(root, content, acts[i]) {
      assert Accounts(events, store, acts[i]);
    }
  }

  /** A stored block needs no network. */
  lemma StoredActs(root: Link, content: Link -> seq<Byte>, store: Blocks, acts: seq<Action>)
    requires StoreHolds(content, store) && AllStored(acts, store)
    ensures AllUndisturbed(root, content, acts)
  {}

  lemma StoreStaysGenuine(content: Link -> seq<Byte>, events: seq<Event>, store: Blocks, store': Blocks, root: Link)
    requires StoreHolds(content, store) && StoreGrew(events, store, store')
    requires forall e :: e in events ==> Harmless(root, content, e)
    ensures StoreHolds(content, store')
  {
    forall l | l in store' ensures store'[l] == content(l) {
      if Arrived(l, store'[l]) in events { assert Harmless(root, content, Arrived(l, store'[l])); }
    }
  }

  /** A root that is not kick-started keeps awaiting nothing, and if it is not live nothing at all
      happens to it. */
  lemma {:induction false} StaysIdle(cfg: Config, r: Link, m: Machine, acts: seq<Action>)
    requires cfg.maxBlockSize > 2 + LINK_SIZE && m.view.entries == map[]
    requires forall i :: 0 <= i < |acts| && acts[i].Kick? ==> acts[i].root != r || acts[i].blocked
    ensures Run(cfg, r, m, acts).view.entries == map[]
    ensures m.view.live.None? ==> Run(cfg, r, m, acts).view == m.view
  {
    hide Judge, Merge, Count, ReadBlock;
    if acts != [] {
      StaysIdle(cfg, r, m, acts[..|acts| - 1]);
    }
  }

  /** The actions of a run that began with a kick-start of the root, and what is known of the rest. */
  ghost predicate OneKick(root: Link, tag: Byte, blocked: bool, content: Link -> seq<Byte>, acts: seq<Action>) {
    acts != [] && acts[0] == Kick(root, tag, blocked, false) && AllUndisturbed(root, content, acts[1..])
  }

  lemma OneKickMore(root: Link, tag: Byte, blocked: bool, content: Link -> seq<Byte>, acts: seq<Action>,
                    more: seq<Action>)
    requires OneKick(root, tag, blocked, content, acts) && AllUndisturbed(root, content, more)
    ensures OneKick(root, tag, blocked, content, acts + more)
  {
    assert (acts + more)[1..] == acts[1..] + more;
  }

  /** What one kick-start of the root of an uploaded blob leads to, on the root's own machine. */
  lemma OneKickLeads(u: Upload, m: Machine, blocked: bool, content: Link -> seq<Byte>, acts: seq<Action>, id: Link)
    requires u.Legal() && u.Genuine(content) && StoreHolds(content, m.store)
    requires m.view.live.None? && m.view.entries == map[] && StatusTransitionAllowed(m.view.status, Partial)
    requires OneKick(u.Root(), u.tag, blocked, content, acts)
    ensures var m' := Run(u.cfg, u.Root(), m, acts);
      && m'.view.broken == m.view.broken
      && m'.view.added == m.view.added + (if m'.view.status == Some(Full) then 1 else 0)
      && NoLateMismatch(u.cfg, m', Consume(id, content(id)))
      && (Quiet(m') && (forall i :: 0 <= i < u.Size() ==> u.LinkOf(i) in m'.store) ==>
            (m'.view.status == Some(Full) <==> !blocked))
  {
    hide WellFormed, BlockAt, MkSchema, LateMismatch, Run, NonEmpty, RootInv, Expected;
    assert acts == [acts[0]] + acts[1..];
    if blocked {
      StaysIdle(u.cfg, u.Root(), m, acts);
    } else {
      OnTrackAfter(u, m, content, acts[1..]);
      Completeness(u, m, content, acts[1..]);
      OnTrackNoMismatch(u, Run(u.cfg, u.Root(), m, acts), m.view.broken, content, id);
      ReportedOnce(u, m, content, acts);
    }
  }

  /** A download that is not restarted falls short by nothing: it is reported exactly when it is Full. */
  lemma ReportedOnce(u: Upload, m: Machine, content: Link -> seq<Byte>, acts: seq<Action>)
    requires u.Legal() && m.view.live.None? && m.view.entries == map[]
    requires StatusTransitionAllowed(m.view.status, Partial) && OneKick(u.Root(), u.tag, false, content, acts)
    ensures var v := Run(u.cfg, u.Root(), m, acts).view;
      v.added == m.view.added + if v.status == Some(Full) then 1 else 0
  {
    hide WellFormed, BlockAt, MkSchema, Run, Short, Weight;
    var kick, rest := acts[0], acts[1..];
    var m1 := Act(u.cfg, u.Root(), m, kick);
    KickFallsShort(m.view, u.Root(), u.tag);
    EmptyWeight(One);
    FullExactlyWhenLeft(u.cfg, u.Root(), m1, rest, 0);
    assert acts == [kick] + rest;
    RunConcat(u.cfg, u.Root(), m, [kick], rest);
    RunOne(u.cfg, u.Root(), m, kick);
  }

  /** No other root awaits anything, and none is asked for. */
  ghost predicate Alone(root: Link, params: Params, events: seq<Event>) {
    (forall r :: r != root ==> EntriesOf(params, r) == map[]) && forall e :: e in events ==> !e.Download?
  }

  ghost predicate AllArrive(u: Upload, content: Link -> seq<Byte>, store: Blocks, events: seq<Event>)
    requires u.cfg.maxBlockSize > 2 + LINK_SIZE
  {
    forall i :: 0 <= i < u.Size() ==> u.LinkOf(i) in store || Arrived(u.LinkOf(i), content(u.LinkOf(i))) in events
  }

  /**
   * One kick-start of the root of an uploaded blob, then any events that
   * deliver genuine blocks and do not concern that root. The root is never
   * reported broken, and reported added once if it becomes Full and not
   * otherwise. The process ends only through a late mismatch of some
   * other root, so never when there is none. Otherwise, if every block of the
   * upload was stored before or arrives, in any order, the root ends Full
   * exactly when its kick-start was not dropped because another root awaited
   * the root block, and the store holds the encoder's blocks.
   */
  method DownloadBlob(ctx: BitswapCtx, u: Upload, ghost content: Link -> seq<Byte>, events: seq<Event>)
    returns (out: Outcome, ghost reached: State)
    requires ctx.Valid() && ctx.AtRest() && ctx.cfg == u.cfg
    requires u.Legal() && u.Genuine(content) && StoreHolds(content, ctx.store)
    requires u.Root() !in ctx.rootDownloadStates && EntriesOf(ctx.nodeDownloadParams, u.Root()) == map[]
    requires StatusTransitionAllowed(Lookup(ctx.statuses, u.Root()), Partial)
    requires forall e :: e in events ==> Harmless(u.Root(), content, e)
    modifies ctx
    ensures ViewOf(reached, u.Root()).broken == old(ctx.broken[u.Root()])
    ensures var v := ViewOf(reached, u.Root());
      v.added == old(ctx.added[u.Root()]) + if v.status == Some(Full) then 1 else 0
    ensures out.Returned? ==> reached == ctx.St() && ctx.Valid() && ctx.AtRest()
    ensures out.Panicked? ==>
      exists r :: r != u.Root() && MismatchesFor(ctx.cfg, MachineOf(reached, r), out.id, out.block)
    ensures Alone(u.Root(), old(ctx.nodeDownloadParams), events) ==> out.Returned?
    ensures out.Returned? && AllArrive(u, content, old(ctx.store), events) ==>
      && (Lookup(ctx.statuses, u.Root()) == Some(Full) <==> u.Root() !in old(ctx.nodeDownloadParams))
      && forall i :: 0 <= i < u.Size() ==> u.LinkOf(i) in ctx.store && ctx.store[u.LinkOf(i)] == u.BlockOf(i)
  {
    hide Acted, Sane, ValidConfig, AllAccounted, AllStored, WellFormed, BlockAt, MkSchema, EntriesOf, Served, Panics,
      MismatchesFor, OneKick, Alone, Overdue, StoreHolds, StoreGrew, AllArrive, History, OnlyKick, AllUndisturbed;
    ghost var s0 := ctx.St();
    ghost var gs, last;
    out, gs, last, reached := StartOne(ctx, u.Root(), u.tag, true);
    ghost var s1 := ctx.St();
    ghost var all := History(gs, last, out);
    Kicked(u, u.Root() in s0.params, content, s1.store, all);
    if out.Returned? {
      ServedBack(ctx.cfg, s0, gs, last, reached, s1);
      var served;
      ghost var more;
      out, served, more, last, reached := Loop(ctx, events);
      ServedConcat(ctx.cfg, s0, gs, s1, more, last, reached, out, ctx.St());
      ghost var rest := History(more, last, out);
      Continued(u, u.Root() in s0.params, content, s0.params, events, served, s1.store, all, rest);
      gs, all := gs + more, all + rest;
      if out.Returned? {
        assert events[..served] == events;
        ArrivedIsStored(u, content, events, s1.store, ctx.store);
      }
    }
    Outcomes(u, s0, content, gs, last, reached, out, ctx.St());
    if Alone(u.Root(), s0.params, events) { AloneReturns(u, s0, gs, last, reached, out, ctx.St(), events); }
  }

  ghost predicate OnlyKick(root: Link, acts: seq<Action>) {
    forall i :: 0 <= i < |acts| && acts[i].Kick? ==> acts[i].root == root
  }

  lemma Kicked(u: Upload, blocked: bool, content: Link -> seq<Byte>, store: Blocks, acts: seq<Action>)
    requires u.cfg.maxBlockSize > 2 + LINK_SIZE && StoreHolds(content, store)
    requires acts != [] && acts[0] == Kick(u.Root(), u.tag, blocked, false) && AllStored(acts[1..], store)
    ensures OneKick(u.Root(), u.tag, blocked, content, acts) && OnlyKick(u.Root(), acts)
  {
    hide WellFormed, BlockAt, MkSchema;
    StoredActs(u.Root(), content, store, acts[1..]);
    forall i | 1 <= i < |acts| ensures !acts[i].Kick? { assert acts[i] == acts[1..][i - 1]; }
  }

  lemma Continued(u: Upload, blocked: bool, content: Link -> seq<Byte>, params: Params, events: seq<Event>, served: nat,
                  store: Blocks, acts: seq<Action>, rest: seq<Action>)
    requires u.cfg.maxBlockSize > 2 + LINK_SIZE && StoreHolds(content, store) && served <= |events|
    requires OneKick(u.Root(), u.tag, blocked, content, acts) && OnlyKick(u.Root(), acts)
    requires forall e :: e in events ==> Harmless(u.Root(), content, e)
    requires AllAccounted(events[..served], store, rest)
    ensures OneKick(u.Root(), u.tag, blocked, content, acts + rest)
    ensures Alone(u.Root(), params, events) ==> OnlyKick(u.Root(), acts + rest)
  {
    hide WellFormed, BlockAt, MkSchema, EntriesOf;
    HarmlessActs(u.Root(), content, events[..served], store, rest);
    OneKickMore(u.Root(), u.tag, blocked, content, acts, rest);
    if Alone(u.Root(), params, events) {
      forall i | 0 <= i < |rest| ensures !rest[i].Kick? { assert Accounts(events[..served], store, rest[i]); }
    }
  }

  lemma ArrivedIsStored(u: Upload, content: Link -> seq<Byte>, events: seq<Event>, store: Blocks, store': Blocks)
    requires u.cfg.maxBlockSize > 2 + LINK_SIZE && u.Genuine(content)
    requires StoreHolds(content, store) && StoreGrew(events, store, store')
    requires forall e :: e in events ==> Harmless(u.Root(), content, e)
    ensures AllArrive(u, content, store, events) ==>
      forall i :: 0 <= i < u.Size() ==> u.LinkOf(i) in store' && store'[u.LinkOf(i)] == u.BlockOf(i)
  {
    hide WellFormed, BlockAt, MkSchema, Harmless;
    StoreStaysGenuine(content, events, store, store', u.Root());
  }

  lemma Outcomes(u: Upload, s0: State, content: Link -> seq<Byte>, gs: seq<seq<Action>>, last: seq<Action>,
                 reached: State, out: Outcome, st': State)
    requires u.Legal() && u.Genuine(content) && StoreHolds(content, s0.store) && Overdue(s0) == {}
    requires u.Root() !in s0.roots && EntriesOf(s0.params, u.Root()) == map[]
    requires StatusTransitionAllowed(Lookup(s0.statuses, u.Root()), Partial)
    requires Served(u.cfg, s0, gs, last, reached, out, st')
    requires OneKick(u.Root(), u.tag, u.Root() in s0.params, content, History(gs, last, out))
    ensures ViewOf(reached, u.Root()).broken == s0.broken[u.Root()]
    ensures var v := ViewOf(reached, u.Root()); v.added == s0.added[u.Root()] + if v.status == Some(Full) then 1 else 0
    ensures out.Returned? ==> reached == st' && Overdue(st') == {}
    ensures out.Panicked? ==>
      exists r :: r != u.Root() && MismatchesFor(u.cfg, MachineOf(reached, r), out.id, out.block)
    ensures out.Returned? && (forall i :: 0 <= i < u.Size() ==> u.LinkOf(i) in st'.store) ==>
      (Lookup(st'.statuses, u.Root()) == Some(Full) <==> u.Root() !in s0.params)
  {
    hide WellFormed, BlockAt, MkSchema, EntriesOf, Acted, Episodes, Unfolds, Flat, Panics, MismatchesFor, Run, Overdue,
      NoLateMismatch;
    var root, blocked := u.Root(), u.Root() in s0.params;
    var acts := Flat(gs) + last;
    ActedAt(u.cfg, s0, acts, reached, root);
    WithoutFatal(root, u.tag, blocked, content, acts, out, History(gs, last, out));
    var id := if out.Panicked? then out.id else root;
    OneKickLeads(u, MachineOf(s0, root), blocked, content, acts, id);
    if out.Panicked? {
      PanicNeedsMismatch(u.cfg, WorldOf(reached), out.id, out.block);
      var r :| MismatchesFor(u.cfg, WorldOf(reached)(r), out.id, out.block);
      NoMismatchHere(u.cfg, MachineOf(reached, root), out.id, out.block);
      assert r != root;
    } else {
      RestIsQuiet(reached, root);
    }
  }

  lemma NoMismatchHere(cfg: Config, m: Machine, id: Link, block: seq<Byte>)
    requires cfg.maxBlockSize > 2 + LINK_SIZE && NoLateMismatch(cfg, m, Consume(id, block))
    ensures !MismatchesFor(cfg, m, id, block)
  {}

  lemma WithoutFatal(root: Link, tag: Byte, blocked: bool, content: Link -> seq<Byte>, acts: seq<Action>, out: Outcome,
                     all: seq<Action>)
    requires OneKick(root, tag, blocked, content, all)
    requires all == if out.Panicked? then acts + [Consume(out.id, out.block)] else acts
    ensures OneKick(root, tag, blocked, content, acts) && (out.Panicked? ==> out.block == content(out.id))
  {
    if out.Panicked? {
      var n := |all| - 1;
      assert all[n] == all[1..][n - 1];
      assert acts[0] == all[0];
      forall i | 0 <= i < |acts[1..]| ensures acts[1..][i] == all[1..][i] {}
    }
  }

  lemma AloneReturns(u: Upload, s0: State, gs: seq<seq<Action>>, last: seq<Action>,
                     reached: State, out: Outcome, st': State, events: seq<Event>)
    requires u.cfg.maxBlockSize > 2 + LINK_SIZE && Served(u.cfg, s0, gs, last, reached, out, st')
    requires Alone(u.Root(), s0.params, events) && OnlyKick(u.Root(), History(gs, last, out))
    requires out.Panicked? ==>
      exists r :: r != u.Root() && MismatchesFor(u.cfg, MachineOf(reached, r), out.id, out.block)
    ensures out.Returned?
  {
    hide WellFormed, BlockAt, MkSchema, EntriesOf, Acted, Episodes, Unfolds, Flat, Panics, Run, LateMismatch;
    if out.Panicked? {
      var r :| r != u.Root() && MismatchesFor(u.cfg, MachineOf(reached, r), out.id, out.block);
      var acts := Flat(gs) + last;
      ActedAt(u.cfg, s0, acts, reached, r);
      forall i | 0 <= i < |acts| && acts[i].Kick? ensures acts[i].root != r {
        assert acts[i] == History(gs, last, out)[i];
      }
      StaysIdle(u.cfg, r, MachineOf(s0, r), acts);
    }
  }

  // ----- soundness -----

  /** Every block that arrives is the one its link stands for. */
  ghost predicate OneContent(content: Link -> seq<Byte>, events: seq<Event>) {
    forall e :: e in events && e.Arrived? ==> e.block == content(e.id)
  }

  /** No kick-start finds a live state of the root to replace. */
  ghost predicate NoRestart(cfg: Config, r: Link, m: Machine, gs: seq<seq<Action>>, last: seq<Action>)
    requires cfg.maxBlockSize > 2 + LINK_SIZE
  {
    && (forall i :: 0 <= i < |gs| && gs[i] != [] ==> KickFindsNoLiveState(r, Run(cfg, r, m, Flat(gs[..i])), gs[i][0]))
    && (last != [] ==> KickFindsNoLiveState(r, Run(cfg, r, m, Flat(gs)), last[0]))
  }

  ghost predicate AllGenuine(content: Link -> seq<Byte>, acts: seq<Action>) {
    forall i :: 0 <= i < |acts| && acts[i].Consume? ==> acts[i].block == content(acts[i].id)
  }

  lemma {:induction false} GenuineStore(cfg: Config, r: Link, m: Machine, content: Link -> seq<Byte>, acts: seq<Action>)
    requires cfg.maxBlockSize > 2 + LINK_SIZE && StoreHolds(content, m.store) && AllGenuine(content, acts)
    ensures StoreHolds(content, Run(cfg, r, m, acts).store)
  {
    hide ConsumeView, KickView, Clear;
    if acts != [] {
      GenuineStore(cfg, r, m, content, acts[..|acts| - 1]);
    }
  }

  lemma GenuineIsConsistent(cfg: Config, r: Link, m: Machine, content: Link -> seq<Byte>,
                            before: seq<Action>, a: Action, acts: seq<Action>)
    requires cfg.maxBlockSize > 2 + LINK_SIZE && StoreHolds(content, m.store) && AllGenuine(content, acts)
    requires before + [a] <= acts
    ensures Consistent(Run(cfg, r, m, before), a)
  {
    forall i | 0 <= i < |before| ensures before[i] == acts[i] { assert (before + [a])[i] == acts[i]; }
    assert acts[|before|] == (before + [a])[|before|] == a;
    GenuineStore(cfg, r, m, content, before);
  }

  lemma FlatPrefix(gs: seq<seq<Action>>, i: nat)
    requires i < |gs| && gs[i] != []
    ensures Flat(gs[..i]) + [gs[i][0]] <= Flat(gs)
  {
    hide Flat;
    assert gs == gs[..i + 1] + gs[i + 1..] && gs[..i + 1] == gs[..i] + [gs[i]];
    FlatConcat(gs[..i + 1], gs[i + 1..]);
    FlatConcat(gs[..i], [gs[i]]);
    FlatOne(gs[i]);
    HeadIsPrefix(Flat(gs[..i]), gs[i], Flat(gs[i + 1..]));
  }

  lemma HeadIsPrefix(a: seq<Action>, g: seq<Action>, b: seq<Action>)
    requires g != []
    ensures a + [g[0]] <= (a + g) + b
  {
    assert g == [g[0]] + g[1..];
    assert (a + g) + b == (a + [g[0]]) + (g[1..] + b);
  }

  lemma RunIsOrderly(cfg: Config, r: Link, m: Machine, content: Link -> seq<Byte>, gs: seq<seq<Action>>,
                     last: seq<Action>)
    requires cfg.maxBlockSize > 2 + LINK_SIZE && StoreHolds(content, m.store)
    requires AllGenuine(content, Flat(gs) + last) && NoRestart(cfg, r, m, gs, last)
    ensures AllOrderly(cfg, r, m, gs)
    ensures last != [] ==> Orderly(r, Run(cfg, r, m, Flat(gs)), last[0])
  {
    hide Run, Flat, StoreHolds, AllGenuine;
    var acts := Flat(gs) + last;
    forall i | 0 <= i < |gs| && gs[i] != [] ensures Orderly(r, Run(cfg, r, m, Flat(gs[..i])), gs[i][0]) {
      FlatPrefix(gs, i);
      GenuineIsConsistent(cfg, r, m, content, Flat(gs[..i]), gs[i][0], acts);
    }
    if last != [] {
      GenuineIsConsistent(cfg, r, m, content, Flat(gs), last[0], acts);
    }
  }

  /**
   * Soundness for the downloader as a whole. The loop starts at rest and
   * serves whatever events, each link standing for one block. A root that was
   * neither live nor Full before, of which no kick-start replaced a live
   * state, and whose status is Full now, was requested, and its whole tree is
   * in the store and joins to a blob of the announced length carrying the
   * requested tag. This holds whether or not roots met late mismatches, and
   * also of what is left when one of them ended the process.
   */
  lemma LoopIsSound(cfg: Config, st: State, events: seq<Event>, content: Link -> seq<Byte>, gs: seq<seq<Action>>,
                    last: seq<Action>, reached: State, out: Outcome, st': State, r: Link)
    returns (tag: Byte, tree: seq<Link>)
    requires ValidConfig(cfg) && Served(cfg, st, gs, last, reached, out, st')
    requires AllAccounted(events, st.store, History(gs, last, out))
    requires OneContent(content, events) && StoreHolds(content, st.store)
    requires Overdue(st) == {} && r !in st.roots && EntriesOf(st.params, r) == map[]
    requires Lookup(st.statuses, r) != Some(Full)
    requires NoRestart(cfg, r, MachineOf(st, r), gs, last)
    requires Lookup(st'.statuses, r) == Some(Full)
    ensures exists e :: e in events && e.Download? && e.tag == tag && r in e.roots
    ensures var blocks := Restrict(reached.store, tree);
      && Ranked(Kids(blocks), TreeRank(tree))
      && CompleteTree(blocks, r, tree)
      && var blob := AllData(blocks, tree);
         && |blob| >= 5 && |blob| == FromBytes(blob[..4]) + 4 && blob[4] == tag
         && tag in cfg.maxSizes && |blob| - 5 <= cfg.maxSizes[tag]
  {
    hide Run, NoRestart, Listing, Ranked, FromBytes, EntriesOf, ValidConfig, Episodes, Unfolds, Flat, Panics, Acted,
      Downloaded, Overdue, StoreHolds, AllOrderly, Orderly;
    var acts, m := Flat(gs) + last, MachineOf(st, r);
    ActedAt(cfg, st, acts, reached, r);
    AccountedIsGenuine(content, events, st.store, acts, History(gs, last, out));
    RunIsOrderly(cfg, r, m, content, gs, last);
    SoundToTheEnd(cfg, r, m, gs, last);
    tag :| Requested(acts, r, tag) && Downloaded(cfg, reached.store, r, tag);
    tree := DownloadedJoins(cfg, reached.store, r, tag);
    var i :| 0 <= i < |acts| && acts[i].Kick? && acts[i].root == r && acts[i].tag == tag;
    assert acts[i] == History(gs, last, out)[i];
    assert Accounts(events, st.store, acts[i]);
  }

  lemma AccountedIsGenuine(content: Link -> seq<Byte>, events: seq<Event>, store: Blocks, acts: seq<Action>,
                           all: seq<Action>)
    requires OneContent(content, events) && StoreHolds(content, store) && AllAccounted(events, store, all)
    requires acts <= all
    ensures AllGenuine(content, acts)
  {
    forall i | 0 <= i < |acts| && acts[i].Consume? ensures acts[i].block == content(acts[i].id) {
      assert acts[i] == all[i] && Accounts(events, store, all[i]);
    }
  }
}
