/** The event loop around the downloader, and what it means for the roots it serves. */
module DownloadLoop {
  import opened LittleEndian
  import opened Schema
  import opened BlockCodec
  import opened BlockTree
  import opened RootMachine
  import opened DownloadCompleteness
  import opened DownloaderState
  import opened DownloadPanic
  import opened DownloadEpisodes
  import opened Downloader

  /** Commands of the loop; deletion and local publication are not among them. For a download
      command, `unreachable` are the roots for which asking the network fails. */
  datatype Event =
    | Deadline(expired: Link)
    | Download(tag: Byte, roots: set<Link>, unreachable: set<Link>)
    | Arrived(id: Link, block: seq<Byte>)

  /** The event, or the store at the start, accounts for the action. */
  ghost predicate Accounts(events: seq<Event>, store: Blocks, a: Action) {
    match a
    case Kick(root, tag, _, _) => exists e :: e in events && e.Download? && e.tag == tag && root in e.roots
    case Expire(root) => Deadline(root) in events
    case Consume(id, block) => Arrived(id, block) in events || (id in store && store[id] == block)
  }

  ghost predicate AllAccounted(events: seq<Event>, store: Blocks, acts: seq<Action>) {
    forall i :: 0 <= i < |acts| ==> Accounts(events, store, acts[i])
  }

  /** The store holds what it held at the start or what arrived, and everything that arrived. */
  ghost predicate StoreGrew(events: seq<Event>, store: Blocks, store': Blocks) {
    && store.Keys <= store'.Keys
    && (forall l :: l in store' ==> Arrived(l, store'[l]) in events || (l in store && store[l] == store'[l]))
    && (forall e :: e in events && e.Arrived? ==> e.id in store')
  }

  lemma AccountedGrows(events: seq<Event>, e: Event, store: Blocks, acts: seq<Action>)
    requires AllAccounted(events, store, acts)
    ensures AllAccounted(events + [e], store, acts)
  {
    forall i | 0 <= i < |acts| ensures Accounts(events + [e], store, acts[i]) {
      assert Accounts(events, store, acts[i]);
      if acts[i].Kick? {
        var d :| d in events && d.Download? && d.tag == acts[i].tag && acts[i].root in d.roots;
        assert d in events + [e];
      }
    }
  }

  lemma AccountedConcat(events: seq<Event>, store: Blocks, acts: seq<Action>, more: seq<Action>)
    requires AllAccounted(events, store, acts) && AllAccounted(events, store, more)
    ensures AllAccounted(events, store, acts + more)
  {}

  /** Blocks taken from the store are accounted for by whatever put them there. */
  lemma StoredAccounted(events: seq<Event>, store: Blocks, store': Blocks, first: Action, acts: seq<Action>)
    requires StoreGrew(events, store, store') && Accounts(events, store, first)
    requires acts != [] && acts[0] == first && AllStored(acts[1..], store')
    ensures AllAccounted(events, store, acts)
  {
    forall i | 0 <= i < |acts| ensures Accounts(events, store, acts[i]) {
      if i > 0 { assert acts[i] == acts[1..][i - 1]; }
    }
  }

  lemma StoreGrewMore(events: seq<Event>, e: Event, store: Blocks, store': Blocks)
    requires StoreGrew(events, store, store')
    ensures e.Arrived? ==> StoreGrew(events + [e], store, store'[e.id := e.block])
    ensures !e.Arrived? ==> StoreGrew(events + [e], store, store')
  {}

  // ----- what the loop did -----

  /** From `st`, the episodes `gs` and then the actions `last` led to `reached`, on every root as a run
      of its machine. The loop went on from there, or else the next block ended the process. */
  ghost predicate Served(cfg: Config, st: State, gs: seq<seq<Action>>, last: seq<Action>, reached: State,
                         out: Outcome, st': State)
    requires cfg.maxBlockSize > 2 + LINK_SIZE
  {
    && Acted(cfg, st, Flat(gs) + last, reached)
    && (Overdue(st) == {} ==> forall r :: Episodes(cfg, r, MachineOf(st, r), gs))
    && (last != [] ==> forall r :: Unfolds(cfg, r, Run(cfg, r, MachineOf(st, r), Flat(gs)), last))
    && match out
       case Returned => last == [] && reached == st' && Overdue(st') <= Overdue(st)
       case Panicked(id, block) =>
         && Panics(cfg, WorldOf(reached), id, block)
         && st'.store == reached.store[id := block] && st'.statuses == reached.statuses
  }

  /** All actions, with the block that ended the process. */
  ghost function History(gs: seq<seq<Action>>, last: seq<Action>, out: Outcome): seq<Action> {
    Flat(gs) + if out.Panicked? then WithLast(last, out) else last
  }

  /** The store after an action that is not taken from it. */
  function StoreAfter(store: Blocks, a: Action): Blocks {
    if a.Consume? then store[a.id := a.block] else store
  }

  lemma ServedNothing(cfg: Config, st: State)
    requires cfg.maxBlockSize > 2 + LINK_SIZE
    ensures Served(cfg, st, [], [], st, Returned, st) && History([], [], Returned) == []
  {
    hide Panics;
    ActedNothing(cfg, st);
    assert Flat([]) + [] == [];
  }

  lemma ServedOne(cfg: Config, s0: State, g: seq<Action>, s1: State)
    requires cfg.maxBlockSize > 2 + LINK_SIZE && Acted(cfg, s0, g, s1)
    requires g != [] && AllStored(g[1..], s1.store) && s1.store == StoreAfter(s0.store, g[0])
    requires g[0].Kick? && g[0].failed ==> g[0].root !in s0.store
    requires Overdue(s1) <= Overdue(s0)
    ensures Served(cfg, s0, [g], [], s1, Returned, s1) && History([g], [], Returned) == g
  {
    hide Run, AllStored, SafeRun, ConsumeView, KickView, Clear, ViewOf;
    FlatOne(g);
    assert Flat([g]) + [] == g;
    if Overdue(s0) == {} {
      forall r ensures Episodes(cfg, r, MachineOf(s0, r), [g]) {
        assert [g][..0] == [];
        RunNothing(cfg, r, MachineOf(s0, r));
        RestIsQuiet(s1, r);
        assert MachineOf(s1, r) == Run(cfg, r, MachineOf(s0, r), g);
        assert EpisodeAt(cfg, r, MachineOf(s0, r), [g], 0);
      }
    }
  }

  lemma RunNothing(cfg: Config, r: Link, m: Machine)
    requires cfg.maxBlockSize > 2 + LINK_SIZE
    ensures Run(cfg, r, m, []) == m
  {}

  lemma ServedCut(cfg: Config, s0: State, first: Action, acts: seq<Action>, reached: State, out: Outcome, s1: State)
    requires cfg.maxBlockSize > 2 + LINK_SIZE && Interrupted(cfg, s0, first, acts, reached, out, s1)
    requires s1.store == StoreAfter(s0.store, first)
    requires first.Kick? && first.failed ==> first.root !in s0.store
    ensures Served(cfg, s0, [], acts, reached, out, s1) && History([], acts, out) == WithLast(acts, out)
  {
    hide Run, AllStored, SafeRun, ConsumeView, KickView, Clear, ViewOf, Panics, Acted;
    assert Flat([]) + acts == acts;
    if acts != [] {
      var all := WithLast(acts, out);
      StoredPrefix(acts, all, s1.store);
      forall r ensures Unfolds(cfg, r, Run(cfg, r, MachineOf(s0, r), Flat([])), acts) {
        RunNothing(cfg, r, MachineOf(s0, r));
      }
    }
  }

  lemma StoredPrefix(acts: seq<Action>, all: seq<Action>, store: Blocks)
    requires acts != [] && acts <= all && AllStored(all[1..], store)
    ensures AllStored(acts[1..], store)
  {
    forall i | 0 <= i < |acts[1..]| ensures acts[1..][i] == all[1..][i] {}
  }

  lemma ServedConcat(cfg: Config, s0: State, a: seq<seq<Action>>, s1: State,
                     b: seq<seq<Action>>, last: seq<Action>, reached: State, out: Outcome, s2: State)
    requires cfg.maxBlockSize > 2 + LINK_SIZE
    requires Served(cfg, s0, a, [], s1, Returned, s1) && Served(cfg, s1, b, last, reached, out, s2)
    ensures Served(cfg, s0, a + b, last, reached, out, s2)
    ensures History(a + b, last, out) == History(a, [], Returned) + History(b, last, out)
  {
    hide Acted, Panics, Episodes, Unfolds, Run, Flat, MachineOf, Overdue;
    FlatConcat(a, b);
    assert Flat(a) + [] == Flat(a);
    ActedConcat(cfg, s0, Flat(a), s1, Flat(b) + last, reached);
    assert Flat(a + b) + last == Flat(a) + (Flat(b) + last);
    forall r ensures MachineOf(s1, r) == Run(cfg, r, MachineOf(s0, r), Flat(a))
    {
      ActedAt(cfg, s0, Flat(a), s1, r);
      RunConcat(cfg, r, MachineOf(s0, r), Flat(a), Flat(b));
    }
    if Overdue(s0) == {} {
      forall r ensures Episodes(cfg, r, MachineOf(s0, r), a + b) {
        EpisodesConcat(cfg, r, MachineOf(s0, r), a, b);
      }
    }
    if last != [] {
      forall r ensures Unfolds(cfg, r, Run(cfg, r, MachineOf(s0, r), Flat(a + b)), last) {
        RunConcat(cfg, r, MachineOf(s0, r), Flat(a), Flat(b));
      }
    }
  }

  // ----- what the events asked for -----

  /** What set off each episode, and the one that ended the process. */
  ghost function Heads(gs: seq<seq<Action>>, last: seq<Action>, out: Outcome): seq<Action> {
    FirstOf(gs) + if out.Panicked? then [WithLast(last, out)[0]] else []
  }

  ghost function FirstOf(gs: seq<seq<Action>>): seq<Action> {
    if gs == [] then []
    else FirstOf(gs[..|gs| - 1]) + if gs[|gs| - 1] == [] then [] else [gs[|gs| - 1][0]]
  }

  /** Kick-starts of exactly the roots `started`, once each, with the command's tag; one fails exactly
      when the root is not stored and asking the network fails. */
  ghost predicate Kicks(cmd: Event, store: Blocks, heads: seq<Action>, started: set<Link>)
    requires cmd.Download?
  {
    if heads == [] then started == {}
    else
      var a := heads[|heads| - 1];
      && a.Kick? && a.tag == cmd.tag && a.root in started
      && a.failed == (a.root !in store && a.root in cmd.unreachable)
      && Kicks(cmd, store, heads[..|heads| - 1], started - {a.root})
  }

  /** The event set off these actions; all it asks for, if done. */
  ghost predicate Answers(e: Event, store: Blocks, heads: seq<Action>, done: bool) {
    match e
    case Deadline(root) => heads == [Expire(root)]
    case Arrived(id, block) => heads == [Consume(id, block)]
    case Download(_, roots, _) =>
      exists started :: started <= roots && (done ==> started == roots) && Kicks(e, store, heads, started)
  }

  function StoreWith(store: Blocks, events: seq<Event>): Blocks {
    if events == [] then store
    else
      var before, e := StoreWith(store, events[..|events| - 1]), events[|events| - 1];
      if e.Arrived? then before[e.id := e.block] else before
  }

  /** The events were answered one after the other, the last one as far as `done` says. */
  ghost predicate Answered(events: seq<Event>, store: Blocks, heads: seq<Action>, done: bool)
    decreases |events|, 1
  {
    if events == [] then heads == []
    else exists m :: LastAnswered(events, store, heads, done, m)
  }

  ghost predicate LastAnswered(events: seq<Event>, store: Blocks, heads: seq<Action>, done: bool, m: nat)
    decreases |events|, 0
  {
    && events != [] && m <= |heads|
    && var n := |events| - 1;
       && Answered(events[..n], store, heads[..m], true)
       && Answers(events[n], StoreWith(store, events[..n]), heads[m..], done)
  }

  lemma {:induction false} FirstOfConcat(a: seq<seq<Action>>, b: seq<seq<Action>>)
    ensures FirstOf(a + b) == FirstOf(a) + FirstOf(b)
  {
    if b == [] {
      assert a + b == a;
    } else {
      var n := |b| - 1;
      FirstOfConcat(a, b[..n]);
      assert (a + b)[..|a + b| - 1] == a + b[..n];
    }
  }

  lemma HeadsConcat(a: seq<seq<Action>>, b: seq<seq<Action>>, last: seq<Action>, out: Outcome)
    ensures Heads(a + b, last, out) == Heads(a, [], Returned) + Heads(b, last, out)
  {
    hide FirstOf;
    FirstOfConcat(a, b);
  }

  lemma HeadOfOne(g: seq<Action>)
    requires g != []
    ensures Heads([g], [], Returned) == [g[0]]
  {
    assert [g][..|[g]| - 1] == [];
    assert FirstOf([g]) == FirstOf([]) + [g[0]];
  }

  lemma HeadOfCut(acts: seq<Action>, out: Outcome)
    requires out.Panicked?
    ensures Heads([], acts, out) == [WithLast(acts, out)[0]]
  {
    assert FirstOf([]) == [];
  }

  lemma KickedNext(cmd: Event, store: Blocks, heads: seq<Action>, started: set<Link>, a: Action)
    requires cmd.Download? && Kicks(cmd, store, heads, started)
    requires a.Kick? && a.tag == cmd.tag && a.root !in started
    requires a.failed == (a.root !in store && a.root in cmd.unreachable)
    ensures Kicks(cmd, store, heads + [a], started + {a.root})
  {
    var longer := heads + [a];
    assert longer[..|longer| - 1] == heads && longer[|longer| - 1] == a;
    assert started + {a.root} - {a.root} == started;
  }

  lemma AnsweredNext(events: seq<Event>, store: Blocks, heads: seq<Action>, e: Event, more: seq<Action>, done: bool)
    requires Answered(events, store, heads, true) && Answers(e, StoreWith(store, events), more, done)
    ensures Answered(events + [e], store, heads + more, done)
  {
    hide Answers, StoreWith;
    assert (events + [e])[..|events|] == events;
    assert (heads + more)[..|heads|] == heads && (heads + more)[|heads|..] == more;
    assert LastAnswered(events + [e], store, heads + more, done, |heads|);
  }

  lemma StoreWithNext(store: Blocks, events: seq<Event>, e: Event)
    ensures StoreWith(store, events + [e]) ==
      var before := StoreWith(store, events);
      if e.Arrived? then before[e.id := e.block] else before
  {
    assert (events + [e])[..|events|] == events;
  }

  // ----- the loop -----

  /** One kick-start as an episode. */
  method StartOne(ctx: BitswapCtx, root: Link, tag: Byte, requestOk: bool)
    returns (out: Outcome, ghost gs: seq<seq<Action>>, ghost last: seq<Action>, ghost reached: State)
    requires ctx.Valid()
    modifies ctx
    ensures ctx.store == old(ctx.store) && (out.Returned? ==> ctx.Valid())
    ensures Served(ctx.cfg, old(ctx.St()), gs, last, reached, out, ctx.St())
    ensures var all := History(gs, last, out);
      && all != [] && AllStored(all[1..], ctx.store)
      && all[0] == Kick(root, tag, root in old(ctx.nodeDownloadParams), root !in old(ctx.store) && !requestOk)
    ensures Heads(gs, last, out) == [History(gs, last, out)[0]]
  {
    hide Acted, Sane, ValidConfig, Overdue, AllStored, Panics, Served, Episodes, Heads;
    ghost var s0 := ctx.St();
    ghost var acts;
    out, acts, reached := ctx.KickStartRootDownload(root, tag, requestOk);
    if out.Returned? {
      gs, last := [acts], [];
      ServedOne(ctx.cfg, s0, acts, ctx.St());
      HeadOfOne(acts);
    } else {
      gs, last := [], acts;
      ServedCut(ctx.cfg, s0, WithLast(acts, out)[0], acts, reached, out, ctx.St());
      HeadOfCut(acts, out);
    }
  }

  /** One command: kick-starts of its roots in any order, each once unless the process ends. */
  method StartAll(ctx: BitswapCtx, cmd: Event)
    returns (out: Outcome, ghost gs: seq<seq<Action>>, ghost last: seq<Action>, ghost reached: State)
    requires ctx.Valid() && cmd.Download?
    modifies ctx
    ensures ctx.store == old(ctx.store) && (out.Returned? ==> ctx.Valid())
    ensures Served(ctx.cfg, old(ctx.St()), gs, last, reached, out, ctx.St())
    ensures forall events, store :: StoreGrew(events, store, ctx.store) && cmd in events ==>
      AllAccounted(events, store, History(gs, last, out))
    ensures Answers(cmd, old(ctx.store), Heads(gs, last, out), out.Returned?)
  {
    hide Acted, Sane, ValidConfig, Overdue, StoreGrew, AllAccounted, AllStored, Served, History, Heads, Kicks;
    ghost var s0 := ctx.St();
    out, gs, last, reached := Returned, [], [], s0;
    ServedNothing(ctx.cfg, s0);
    NothingAccounted();
    NothingKicked(cmd, s0.store);
    var todo := cmd.roots;
    while todo != {}
      invariant todo <= cmd.roots
      invariant ctx.Valid() && ctx.store == s0.store && out == Returned && last == [] && reached == ctx.St()
      invariant Served(ctx.cfg, s0, gs, [], ctx.St(), Returned, ctx.St())
      invariant forall events, store :: StoreGrew(events, store, s0.store) && cmd in events ==>
        AllAccounted(events, store, History(gs, [], Returned))
      invariant Kicks(cmd, s0.store, Heads(gs, [], Returned), cmd.roots - todo)
      decreases todo
    {
      var root :| root in todo;
      ghost var si, more := ctx.St(), [];
      out, more, last, reached := StartOne(ctx, root, cmd.tag, root !in cmd.unreachable);
      ServedConcat(ctx.cfg, s0, gs, si, more, last, reached, out, ctx.St());
      ghost var acts := History(more, last, out);
      forall events, store | StoreGrew(events, store, s0.store) && cmd in events
        ensures AllAccounted(events, store, History(gs, [], Returned) + acts)
      {
        assert Accounts(events, store, acts[0]);
        StoredAccounted(events, store, s0.store, acts[0], acts);
        AccountedConcat(events, store, History(gs, [], Returned), acts);
      }
      HeadsConcat(gs, more, last, out);
      KickedNext(cmd, s0.store, Heads(gs, [], Returned), cmd.roots - todo, acts[0]);
      assert cmd.roots - todo + {root} == cmd.roots - (todo - {root});
      gs := gs + more;
      if out.Panicked? {
        return;
      }
      ServedBack(ctx.cfg, s0, gs, last, reached, ctx.St());
      todo := todo - {root};
    }
  }

  lemma NothingKicked(cmd: Event, store: Blocks)
    requires cmd.Download?
    ensures Kicks(cmd, store, Heads([], [], Returned), cmd.roots - cmd.roots)
  {}

  lemma ServedBack(cfg: Config, st: State, gs: seq<seq<Action>>, last: seq<Action>, reached: State, st': State)
    requires cfg.maxBlockSize > 2 + LINK_SIZE && Served(cfg, st, gs, last, reached, Returned, st')
    ensures last == [] && reached == st' && Overdue(st') <= Overdue(st)
  {
    hide Acted, Episodes, Unfolds, Overdue;
  }

  lemma ActedNothing(cfg: Config, st: State)
    requires cfg.maxBlockSize > 2 + LINK_SIZE
    ensures Acted(cfg, st, [], st)
  {
    SafeNothing(cfg, WorldOf(st));
  }

  lemma NothingAccounted()
    ensures forall events, store :: AllAccounted(events, store, [])
  {}

  /** One event. */
  method Serve(ctx: BitswapCtx, e: Event)
    returns (out: Outcome, ghost gs: seq<seq<Action>>, ghost last: seq<Action>, ghost reached: State)
    requires ctx.Valid()
    modifies ctx
    ensures ctx.store == (if e.Arrived? then old(ctx.store)[e.id := e.block] else old(ctx.store))
    ensures out.Returned? ==> ctx.Valid()
    ensures Served(ctx.cfg, old(ctx.St()), gs, last, reached, out, ctx.St())
    ensures forall events, store :: StoreGrew(events, store, ctx.store) && e in events ==>
      AllAccounted(events, store, History(gs, last, out))
    ensures Answers(e, old(ctx.store), Heads(gs, last, out), out.Returned?)
  {
    hide Acted, Sane, ValidConfig, Overdue, StoreGrew, AllAccounted, AllStored, Served, Panics, Heads, Kicks;
    ghost var s0 := ctx.St();
    ghost var acts;
    match e {
      case Deadline(root) =>
        acts := ctx.ExpireRoot(root);
        out, gs, last, reached := Returned, [acts], [], ctx.St();
        assert acts[1..] == [];
        NoneStored(acts, ctx.store);
        ServedOne(ctx.cfg, s0, acts, ctx.St());
        HeadOfOne(acts);
      case Download(_, _, _) =>
        out, gs, last, reached := StartAll(ctx, e);
        return;
      case Arrived(id, block) =>
        out, acts, reached := ctx.ProcessDownloadedBlock(id, block);
        if out.Returned? {
          gs, last := [acts], [];
          ServedOne(ctx.cfg, s0, acts, ctx.St());
          HeadOfOne(acts);
        } else {
          gs, last := [], acts;
          ServedCut(ctx.cfg, s0, Consume(id, block), acts, reached, out, ctx.St());
          HeadOfCut(acts, out);
        }
    }
    ghost var all := History(gs, last, out);
    forall events, store | StoreGrew(events, store, ctx.store) && e in events ensures AllAccounted(events, store, all) {
      assert Accounts(events, store, all[0]);
      StoredAccounted(events, store, ctx.store, all[0], all);
    }
  }

  /** The loop over a sequence of events: `served` of them, all unless the process ends. On every
      root it acts as a run of that root's machine, every action of which some event accounts for,
      and every event is answered, in order. */
  method Loop(ctx: BitswapCtx, events: seq<Event>)
    returns (out: Outcome, served: nat, ghost gs: seq<seq<Action>>, ghost last: seq<Action>, ghost reached: State)
    requires ctx.Valid()
    modifies ctx
    ensures served <= |events| && (out.Returned? ==> ctx.Valid() && served == |events|)
    ensures Served(ctx.cfg, old(ctx.St()), gs, last, reached, out, ctx.St())
    ensures AllAccounted(events[..served], old(ctx.store), History(gs, last, out))
    ensures StoreGrew(events[..served], old(ctx.store), ctx.store)
    ensures ctx.store == StoreWith(old(ctx.store), events[..served])
    ensures Answered(events[..served], old(ctx.store), Heads(gs, last, out), out.Returned?)
  {
    hide Acted, Sane, ValidConfig, Overdue, StoreGrew, AllAccounted, AllStored, Served, History, Heads, Answered,
      Answers, StoreWith;
    ghost var s0 := ctx.St();
    out, served, gs, last, reached := Returned, 0, [], [], s0;
    ServedNothing(ctx.cfg, s0);
    NothingAccounted();
    StoreGrewNothing(s0.store);
    NothingAnswered(s0.store);
    while served < |events|
      invariant served <= |events|
      invariant ctx.Valid() && out == Returned && last == [] && reached == ctx.St()
      invariant Served(ctx.cfg, s0, gs, [], ctx.St(), Returned, ctx.St())
      invariant AllAccounted(events[..served], s0.store, History(gs, [], Returned))
      invariant StoreGrew(events[..served], s0.store, ctx.store)
      invariant ctx.store == StoreWith(s0.store, events[..served])
      invariant Answered(events[..served], s0.store, Heads(gs, [], Returned), true)
    {
      var e := events[served];
      ghost var si, more := ctx.St(), [];
      ghost var past := events[..served];
      assert events[..served + 1] == past + [e];
      served := served + 1;
      out, more, last, reached := Serve(ctx, e);
      StoreGrewMore(past, e, s0.store, si.store);
      AccountedGrows(past, e, s0.store, History(gs, [], Returned));
      AccountedConcat(past + [e], s0.store, History(gs, [], Returned), History(more, last, out));
      ServedConcat(ctx.cfg, s0, gs, si, more, last, reached, out, ctx.St());
      StoreWithNext(s0.store, past, e);
      AnsweredNext(past, s0.store, Heads(gs, [], Returned), e, Heads(more, last, out), out.Returned?);
      HeadsConcat(gs, more, last, out);
      gs := gs + more;
      if out.Panicked? {
        return;
      }
      ServedBack(ctx.cfg, s0, gs, last, reached, ctx.St());
    }
    assert events[..|events|] == events;
  }

  lemma StoreGrewNothing(store: Blocks)
    ensures StoreGrew([], store, store)
  {}

  lemma NothingAnswered(store: Blocks)
    ensures Answered([], store, Heads([], [], Returned), true) && StoreWith(store, []) == store
  {}

  lemma ActedAt(cfg: Config, s0: State, acts: seq<Action>, s1: State, r: Link)
    requires cfg.maxBlockSize > 2 + LINK_SIZE && Acted(cfg, s0, acts, s1)
    ensures MachineOf(s1, r) == Run(cfg, r, MachineOf(s0, r), acts)
  {}

  lemma RestIsQuiet(st: State, r: Link)
    requires Overdue(st) == {}
    ensures Quiet(MachineOf(st, r))
  {
    forall l | l in ViewOf(st, r).entries ensures l !in st.store {
      assert l in st.params && (l in st.store ==> l in Overdue(st));
    }
  }
}
