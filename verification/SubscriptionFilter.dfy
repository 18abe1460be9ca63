/**
 * The filter that holds each peer to the highest level it was seen on: its
 * locked sections, every interleaving of them, and the atomic operations
 * those interleavings amount to.
 */
module SubscriptionFilter {
  import opened Options
  import opened TopicLevels

  type Peer = string
  type Levels = map<Peer, int>

  // ----- levels -----

  function Get(levels: Levels, p: Peer): (o: Option<int>) {
    if p in levels then Some(levels[p]) else None
  }

  /** The higher of two levels, either of which may be missing. */
  function Join(a: Option<int>, b: Option<int>): (r: Option<int>) {
    if a.None? then b
    else if b.None? then a
    else if a.value < b.value then b else a
  }

  predicate AtMost(a: Option<int>, b: Option<int>) {
    a.None? || (b.Some? && a.value <= b.value)
  }

  function MinLevel(conf: TopicLevelConf, t: Topic): (o: Option<int>) {
    if t in conf then Some(conf[t].minLevel) else None
  }

  /** The highest of the least levels of the known topics. */
  function Highest(conf: TopicLevelConf, subs: seq<Topic>): (o: Option<int>) {
    if subs == [] then None
    else Join(Highest(conf, subs[..|subs| - 1]), MinLevel(conf, subs[|subs| - 1]))
  }

  lemma {:induction false} HighestConcat(conf: TopicLevelConf, a: seq<Topic>, b: seq<Topic>)
    ensures Highest(conf, a + b) == Join(Highest(conf, a), Highest(conf, b))
  {
    if b == [] {
      assert a + b == a;
    } else {
      assert (a + b)[..|a + b| - 1] == a + b[..|b| - 1];
      HighestConcat(conf, a, b[..|b| - 1]);
    }
  }

  /** It bounds every known topic, and is attained by one. */
  lemma {:induction false} HighestIsLeastBound(conf: TopicLevelConf, subs: seq<Topic>)
    ensures forall t :: t in subs ==> AtMost(MinLevel(conf, t), Highest(conf, subs))
    ensures Highest(conf, subs).Some? ==> exists t :: t in subs && MinLevel(conf, t) == Highest(conf, subs)
  {
    if subs != [] {
      var n := |subs| - 1;
      HighestIsLeastBound(conf, subs[..n]);
      assert subs == subs[..n] + [subs[n]];
    }
  }

  /** The topics let through at a level: those whose range contains it. */
  function Kept(conf: TopicLevelConf, used: Option<int>, subs: seq<Topic>): (r: seq<Topic>)
    ensures forall t :: t in r <==>
      t in subs && t in conf && used.Some? && conf[t].minLevel <= used.value <= conf[t].maxLevel
  {
    if subs == [] then []
    else
      var n := |subs| - 1;
      assert subs == subs[..n] + [subs[n]];
      var t := subs[n];
      Kept(conf, used, subs[..n]) +
      if t in conf && used.Some? && conf[t].minLevel <= used.value <= conf[t].maxLevel then [t] else []
  }

  // ----- the atomic operations -----

  datatype Op = Filter(peer: Peer, subs: seq<Topic>) | Disconnect(peer: Peer)

  /** The level a call filters with, were it alone. */
  function UsedBy(conf: TopicLevelConf, levels: Levels, op: Op): (o: Option<int>) {
    match op
    case Filter(p, subs) => Join(Get(levels, p), Highest(conf, subs))
    case Disconnect(_) => None
  }

  function LevelsAfter(conf: TopicLevelConf, levels: Levels, op: Op): (r: Levels) {
    match op
    case Filter(p, subs) =>
      var used := UsedBy(conf, levels, op);
      if used.None? then levels else levels[p := used.value]
    case Disconnect(p) => levels - {p}
  }

  // ----- the locked sections -----

  datatype Thread =
    | Called(op: Op)
    | Raising(peer: Peer, subs: seq<Topic>, level: int)
    | Removing(peer: Peer)
    | Done(op: Op, used: Option<int>)

  /** The read-locked section of a call, and what is computed from it. */
  function FirstSection(conf: TopicLevelConf, levels: Levels, op: Op): (t: Thread) {
    match op
    case Filter(p, subs) =>
      var seen := Get(levels, p);
      var wanted := Join(seen, Highest(conf, subs));
      if wanted == seen then Done(op, seen) else Raising(p, subs, wanted.value)
    case Disconnect(p) =>
      if p in levels then Removing(p) else Done(op, None)
  }

  /** The write-locked section: the level it leaves stored. */
  function Raised(levels: Levels, p: Peer, level: int): (r: int) {
    if p !in levels || levels[p] < level then level else levels[p]
  }

  class LeveledSubscriptionFilter {
    const topicLevel: TopicLevelConf
    var peerLevel: Levels

    constructor (conf: TopicLevelConf)
      ensures topicLevel == conf && peerLevel == map[]
    {
      topicLevel, peerLevel := conf, map[];
    }

    /** Reads the level and goes through the batch. */
    method FilterFirst(pid: Peer, subs: seq<Topic>) returns (t: Thread)
      ensures t == FirstSection(topicLevel, peerLevel, Filter(pid, subs))
    {
      var pl, hasPl := if pid in peerLevel then peerLevel[pid] else 0, pid in peerLevel;
      var initHasPl, seen := hasPl, pl;
      for i := 0 to |subs|
        invariant (if hasPl then Some(pl) else None) == Join(Get(peerLevel, pid), Highest(topicLevel, subs[..i]))
      {
        assert subs[..i + 1][..i] == subs[..i];
        if subs[i] in topicLevel {
          var l := topicLevel[subs[i]].minLevel;
          if !hasPl || pl < l {
            hasPl, pl := true, l;
          }
        }
      }
      assert subs[..|subs|] == subs;
      if !hasPl {
        return Done(Filter(pid, subs), None);
      }
      if !initHasPl || seen < pl {
        return Raising(pid, subs, pl);
      }
      return Done(Filter(pid, subs), Some(seen));
    }

    /** Reads again under the write lock, since others may have come between, and raises if need be. */
    method FilterSecond(pid: Peer, pl: int) returns (level: int)
      modifies this
      ensures level == Raised(old(peerLevel), pid, pl)
      ensures peerLevel == old(peerLevel)[pid := level]
    {
      var has := pid in peerLevel;
      level := if has then peerLevel[pid] else 0;
      if !has || level < pl {
        peerLevel := peerLevel[pid := pl];
        level := pl;
      }
    }

    /** Alone, the two sections are the atomic operation. */
    method FilterIncomingSubscriptions(pid: Peer, subs: seq<Topic>) returns (kept: seq<Topic>)
      modifies this
      ensures peerLevel == LevelsAfter(topicLevel, old(peerLevel), Filter(pid, subs))
      ensures kept == Kept(topicLevel, UsedBy(topicLevel, old(peerLevel), Filter(pid, subs)), subs)
    {
      var t := FilterFirst(pid, subs);
      RaisingIsHighest(topicLevel, peerLevel, Filter(pid, subs));
      var used: Option<int>;
      if t.Raising? {
        var level := FilterSecond(pid, t.level);
        used := Some(level);
      } else {
        used := t.used;
      }
      kept := Keep(used, subs);
    }

    method Keep(used: Option<int>, subs: seq<Topic>) returns (kept: seq<Topic>)
      ensures kept == Kept(topicLevel, used, subs)
    {
      kept := [];
      for i := 0 to |subs|
        invariant kept == Kept(topicLevel, used, subs[..i])
      {
        assert subs[..i + 1][..i] == subs[..i];
        var t := subs[i];
        if t in topicLevel && used.Some? && topicLevel[t].minLevel <= used.value <= topicLevel[t].maxLevel {
          kept := kept + [t];
        }
      }
      assert subs[..|subs|] == subs;
    }

    method OnDisconnect(p: Peer)
      modifies this
      ensures peerLevel == LevelsAfter(topicLevel, old(peerLevel), Disconnect(p))
    {
      var has := p in peerLevel;
      if has {
        peerLevel := peerLevel - {p};
      }
    }
  }

  /** What a thread on its way to the write lock carries is the highest level of its own batch. */
  lemma RaisingIsHighest(conf: TopicLevelConf, levels: Levels, op: Op)
    ensures var t := FirstSection(conf, levels, op);
            && (t.Raising? ==> Carries(conf, t, op))
            && (t.Removing? ==> op == Disconnect(t.peer))
            && (t.Done? ==> t.op == op && t.used == UsedBy(conf, levels, op) && levels == LevelsAfter(conf, levels, op))
  {}

  predicate Carries(conf: TopicLevelConf, t: Thread, op: Op)
    requires t.Raising?
  {
    op == Filter(t.peer, t.subs) && Highest(conf, t.subs) == Some(t.level)
  }

  // ----- every interleaving -----

  /** Calls in progress, by number, on the shared map. */
  datatype System = System(levels: Levels, threads: map<nat, Thread>)

  /** A new call, or the next section of one in progress. */
  datatype Event = Begin(id: nat, op: Op) | Resume(id: nat)

  function StepThread(conf: TopicLevelConf, levels: Levels, t: Thread): (r: (Levels, Thread)) {
    match t
    case Called(op) => (levels, FirstSection(conf, levels, op))
    case Raising(p, subs, level) =>
      var now := Raised(levels, p, level);
      (levels[p := now], Done(Filter(p, subs), Some(now)))
    case Removing(p) => (levels - {p}, Done(Disconnect(p), None))
    case Done(_, _) => (levels, t)
  }

  function Step(conf: TopicLevelConf, s: System, e: Event): (r: System) {
    match e
    case Begin(id, op) =>
      if id in s.threads then s else System(s.levels, s.threads[id := Called(op)])
    case Resume(id) =>
      if id !in s.threads then s
      else
        var r := StepThread(conf, s.levels, s.threads[id]);
        System(r.0, s.threads[id := r.1])
  }

  function RunOf(conf: TopicLevelConf, events: seq<Event>): (s: System) {
    if events == [] then System(map[], map[])
    else Step(conf, RunOf(conf, events[..|events| - 1]), events[|events| - 1])
  }

  /** A call at the step where it takes effect, and the level it used. */
  datatype Effect = Effect(id: nat, op: Op, used: Option<int>)

  /** The effect of one event, if a call completes with it. */
  function EffectOf(conf: TopicLevelConf, s: System, e: Event): (r: seq<Effect>) {
    if e.Resume? && e.id in s.threads && !s.threads[e.id].Done? then
      var t := StepThread(conf, s.levels, s.threads[e.id]).1;
      if t.Done? then [Effect(e.id, t.op, t.used)] else []
    else []
  }

  function Effects(conf: TopicLevelConf, events: seq<Event>): (r: seq<Effect>) {
    if events == [] then []
    else
      var n := |events| - 1;
      Effects(conf, events[..n]) + EffectOf(conf, RunOf(conf, events[..n]), events[n])
  }

  /** The atomic operations, one after the other. */
  function Replay(conf: TopicLevelConf, effects: seq<Effect>): (levels: Levels) {
    if effects == [] then map[]
    else
      var n := |effects| - 1;
      LevelsAfter(conf, Replay(conf, effects[..n]), effects[n].op)
  }

  // ----- interleavings are atomic -----

  /** Every thread past its first section carries what belongs to its call. */
  ghost predicate Sane(conf: TopicLevelConf, s: System) {
    forall id :: id in s.threads && s.threads[id].Raising? ==>
      Carries(conf, s.threads[id], Filter(s.threads[id].peer, s.threads[id].subs))
  }

  /** A section either leaves the map alone and the call unfinished, or is the whole atomic operation. */
  lemma SectionIsAtomic(conf: TopicLevelConf, levels: Levels, t: Thread)
    requires t.Raising? ==> Carries(conf, t, Filter(t.peer, t.subs))
    ensures var (levels', t') := StepThread(conf, levels, t);
            && (t'.Raising? ==> Carries(conf, t', Filter(t'.peer, t'.subs)))
            && (!t'.Done? || t.Done? ==> levels' == levels)
            && (t'.Done? && !t.Done? ==> levels' == LevelsAfter(conf, levels, t'.op))
            && (t'.Done? && !t.Done? ==> t'.used == UsedBy(conf, levels, t'.op))
  {
    if t.Called? { RaisingIsHighest(conf, levels, t.op); }
  }

  /** The k-th effect is what its operation does, alone, after those before it. */
  ghost predicate Atomic(conf: TopicLevelConf, effects: seq<Effect>, k: int)
    requires 0 <= k < |effects|
  {
    effects[k].used == UsedBy(conf, Replay(conf, effects[..k]), effects[k].op)
  }

  /** The map is that of the atomic run, and finished calls are exactly its operations, each once. */
  ghost predicate Explains(conf: TopicLevelConf, effects: seq<Effect>, s: System) {
    && s.levels == Replay(conf, effects)
    && (forall k :: 0 <= k < |effects| ==> Atomic(conf, effects, k))
    && (forall k :: 0 <= k < |effects| ==> effects[k].id in s.threads)
    && (forall k :: 0 <= k < |effects| ==> s.threads[effects[k].id] == Done(effects[k].op, effects[k].used))
    && (forall k, m :: 0 <= k < m < |effects| ==> effects[k].id != effects[m].id)
    && (forall id :: id in s.threads && s.threads[id].Done? ==> exists k :: 0 <= k < |effects| && effects[k].id == id)
  }

  lemma ReplayMore(conf: TopicLevelConf, effects: seq<Effect>, f: Effect)
    ensures Replay(conf, effects + [f]) == LevelsAfter(conf, Replay(conf, effects), f.op)
    ensures forall k :: 0 <= k < |effects| ==> (effects + [f])[..k] == effects[..k]
  {
    assert (effects + [f])[..|effects|] == effects;
  }

  lemma EffectAdded(conf: TopicLevelConf, effects: seq<Effect>, s: System, id: nat)
    requires Explains(conf, effects, s) && Sane(conf, s)
    requires id in s.threads && !s.threads[id].Done?
    requires StepThread(conf, s.levels, s.threads[id]).1.Done?
    ensures var (levels, t) := StepThread(conf, s.levels, s.threads[id]);
            Explains(conf, effects + [Effect(id, t.op, t.used)], System(levels, s.threads[id := t]))
  {
    hide StepThread, Replay, UsedBy, LevelsAfter, Carries;
    var (levels, t) := StepThread(conf, s.levels, s.threads[id]);
    SectionIsAtomic(conf, s.levels, s.threads[id]);
    var f := Effect(id, t.op, t.used);
    var all := effects + [f];
    var s' := System(levels, s.threads[id := t]);
    ReplayMore(conf, effects, f);
    forall k | 0 <= k < |all| ensures Atomic(conf, all, k) {
      if k < |effects| {
        assert Atomic(conf, effects, k);
        assert all[..k] == effects[..k];
      } else {
        assert all[..k] == effects;
      }
    }
    forall i | i in s'.threads && s'.threads[i].Done? ensures exists k :: 0 <= k < |all| && all[k].id == i {
      if i == id {
        assert all[|effects|].id == i;
      } else {
        var k :| 0 <= k < |effects| && effects[k].id == i;
        assert all[k].id == i;
      }
    }
  }

  lemma StepExplained(conf: TopicLevelConf, effects: seq<Effect>, s: System, e: Event)
    requires Explains(conf, effects, s) && Sane(conf, s)
    ensures Explains(conf, effects + EffectOf(conf, s, e), Step(conf, s, e))
    ensures Sane(conf, Step(conf, s, e))
  {
    hide StepThread, Replay, Atomic, Carries;
    assert effects + [] == effects;
    if e.Resume? && e.id in s.threads {
      SectionIsAtomic(conf, s.levels, s.threads[e.id]);
      DoneStays(conf, s.levels, s.threads[e.id]);
      if EffectOf(conf, s, e) != [] {
        EffectAdded(conf, effects, s, e.id);
      }
    }
  }

  lemma DoneStays(conf: TopicLevelConf, levels: Levels, t: Thread)
    ensures t.Done? ==> StepThread(conf, levels, t).1 == t
  {}

  /**
   * Every interleaving of sections has the effect of the operations executed
   * one at a time, in the order in which they take effect, each at a step of
   * its own call.
   */
  lemma {:induction false} Linearizable(conf: TopicLevelConf, events: seq<Event>)
    ensures Explains(conf, Effects(conf, events), RunOf(conf, events))
    ensures Sane(conf, RunOf(conf, events))
  {
    hide Explains, Sane, Step, EffectOf;
    if events == [] {
      NothingDone(conf);
    } else {
      var n := |events| - 1;
      Linearizable(conf, events[..n]);
      StepExplained(conf, Effects(conf, events[..n]), RunOf(conf, events[..n]), events[n]);
    }
  }

  lemma NothingDone(conf: TopicLevelConf)
    ensures Explains(conf, [], System(map[], map[])) && Sane(conf, System(map[], map[]))
  {}

  // ----- what that means for peers -----

  /** What a peer has subscribed to since it last disconnected. */
  function Observed(effects: seq<Effect>, p: Peer): (r: seq<Topic>) {
    if effects == [] then []
    else
      var n := |effects| - 1;
      match effects[n].op
      case Filter(q, subs) => Observed(effects[..n], p) + if q == p then subs else []
      case Disconnect(q) => if q == p then [] else Observed(effects[..n], p)
  }

  /** A stored level is the highest observed since the last disconnect. */
  lemma {:induction false} LevelIsHighestObserved(conf: TopicLevelConf, effects: seq<Effect>, p: Peer)
    ensures Get(Replay(conf, effects), p) == Highest(conf, Observed(effects, p))
  {
    if effects != [] {
      var n := |effects| - 1;
      LevelIsHighestObserved(conf, effects[..n], p);
      var op := effects[n].op;
      if op.Filter? && op.peer == p {
        HighestConcat(conf, Observed(effects[..n], p), op.subs);
      } else if op.Filter? {
        assert Observed(effects[..n], p) + [] == Observed(effects[..n], p);
      }
    }
  }

  ghost predicate NoDisconnect(effects: seq<Effect>, p: Peer, a: int, b: int) {
    forall k :: a <= k < b && 0 <= k < |effects| ==> effects[k].op != Disconnect(p)
  }

  /** A stored level goes down only through a disconnect of that peer. */
  lemma {:induction false} LevelOnlyRises(conf: TopicLevelConf, effects: seq<Effect>, p: Peer, a: nat, b: nat)
    requires a <= b <= |effects| && NoDisconnect(effects, p, a, b)
    ensures AtMost(Get(Replay(conf, effects[..a]), p), Get(Replay(conf, effects[..b]), p))
  {
    if a < b {
      LevelOnlyRises(conf, effects, p, a, b - 1);
      assert effects[..b][..b - 1] == effects[..b - 1];
      assert effects[b - 1].op != Disconnect(p);
    }
  }

  /** On any run, the level of a peer is unchanged or higher after a step that does not disconnect it. */
  lemma StepOnlyRaises(conf: TopicLevelConf, events: seq<Event>, e: Event, p: Peer)
    requires forall f :: f in EffectOf(conf, RunOf(conf, events), e) ==> f.op != Disconnect(p)
    ensures AtMost(Get(RunOf(conf, events).levels, p), Get(RunOf(conf, events + [e]).levels, p))
  {
    hide Effects, RunOf, Replay, EffectOf, Get, AtMost;
    var all, more := Effects(conf, events), Effects(conf, events + [e]);
    RunIsReplay(conf, events);
    RunIsReplay(conf, events + [e]);
    EffectsMore(conf, events, e);
    assert more[..|all|] == all && more[..|more|] == more;
    forall k | |all| <= k < |more| ensures more[k].op != Disconnect(p) {
      assert more[k] in EffectOf(conf, RunOf(conf, events), e);
    }
    LevelOnlyRises(conf, more, p, |all|, |more|);
  }

  lemma RunIsReplay(conf: TopicLevelConf, events: seq<Event>)
    ensures RunOf(conf, events).levels == Replay(conf, Effects(conf, events))
  {
    hide Effects, RunOf, Replay, Atomic, Sane;
    Linearizable(conf, events);
  }

  lemma EffectsMore(conf: TopicLevelConf, events: seq<Event>, e: Event)
    ensures Effects(conf, events + [e]) == Effects(conf, events) + EffectOf(conf, RunOf(conf, events), e)
  {
    hide EffectOf, RunOf;
    assert (events + [e])[..|events|] == events;
  }

  /**
   * On any run, a finished call filtered at a level that is at least the
   * least level of every known topic of its batch, and exactly the highest
   * the peer was observed on since its last disconnect.
   */
  lemma FinishedCall(conf: TopicLevelConf, events: seq<Event>, k: nat)
    requires k < |Effects(conf, events)| && Effects(conf, events)[k].op.Filter?
    ensures var f := Effects(conf, events)[k];
            && f.id in RunOf(conf, events).threads && RunOf(conf, events).threads[f.id] == Done(f.op, f.used)
            && (forall t :: t in f.op.subs ==> AtMost(MinLevel(conf, t), f.used))
            && f.used == Highest(conf, Observed(Effects(conf, events)[..k + 1], f.op.peer))
  {
    hide RunOf, Replay, UsedBy;
    var all := Effects(conf, events);
    var f := all[k];
    Linearizable(conf, events);
    assert Atomic(conf, all, k);
    assert all[..k + 1][..k] == all[..k];
    UsedIsHighest(conf, all[..k], f);
    HighestIsLeastBound(conf, f.op.subs);
    forall t | t in f.op.subs ensures AtMost(MinLevel(conf, t), f.used) {
      JoinIsAbove(conf, Replay(conf, all[..k]), f);
    }
  }

  lemma JoinIsAbove(conf: TopicLevelConf, levels: Levels, f: Effect)
    requires f.op.Filter? && f.used == UsedBy(conf, levels, f.op)
    ensures AtMost(Highest(conf, f.op.subs), f.used)
  {}

  lemma UsedIsHighest(conf: TopicLevelConf, before: seq<Effect>, f: Effect)
    requires f.op.Filter? && f.used == UsedBy(conf, Replay(conf, before), f.op)
    ensures f.used == Highest(conf, Observed(before + [f], f.op.peer))
  {
    LevelIsHighestObserved(conf, before, f.op.peer);
    assert (before + [f])[..|before|] == before;
    HighestConcat(conf, Observed(before, f.op.peer), f.op.subs);
  }
}
