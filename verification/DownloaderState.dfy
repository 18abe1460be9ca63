/** The state shared by all roots, seen root by root, and the measure by which processing a block
    and its stored descendants terminates. */
module DownloaderState {
  import opened Options
  import opened LittleEndian
  import opened Schema
  import opened BlockCodec
  import opened BlockTree
  import opened Weights
  import opened RootMachine
  import opened DownloadTermination

  /** For every awaited block, the roots that await it and at which indices. */
  type Params = map<Link, map<Link, seq<Index>>>

  datatype State = State(
    params: Params,
    roots: map<Link, RootState>,
    store: Blocks,
    statuses: map<Link, Status>,
    broken: multiset<Link>,
    added: multiset<Link>)

  function EntriesOf(params: Params, r: Link): Entries {
    map l | l in params && r in params[l] :: params[l][r]
  }

  function Lookup<T>(m: map<Link, T>, r: Link): Option<T> {
    if r in m then Some(m[r]) else None
  }

  /** What the state says about root `r`. */
  function ViewOf(st: State, r: Link): RootView {
    RootView(Lookup(st.roots, r), EntriesOf(st.params, r), Lookup(st.statuses, r), st.broken[r], st.added[r])
  }

  function MachineOf(st: State, r: Link): Machine {
    Machine(st.store, ViewOf(st, r))
  }

  // ----- sums over sets of roots -----

  ghost function SumOver(rs: set<Link>, f: Link -> nat): nat {
    if rs == {} then 0 else var r :| r in rs; f(r) + SumOver(rs - {r}, f)
  }

  lemma {:induction false} SumRemove(rs: set<Link>, f: Link -> nat, r: Link)
    requires r in rs
    ensures SumOver(rs, f) == f(r) + SumOver(rs - {r}, f)
  {
    var p :| p in rs && SumOver(rs, f) == f(p) + SumOver(rs - {p}, f);
    if p != r {
      SumRemove(rs - {p}, f, r);
      SumRemove(rs - {r}, f, p);
      assert rs - {p} - {r} == rs - {r} - {p};
    }
  }

  /** A sum over a subset, of terms that are zero elsewhere and nowhere larger, is not larger; it is
      smaller if one term is. */
  lemma {:induction false} SumLe(rs': set<Link>, f': Link -> nat, rs: set<Link>, f: Link -> nat)
    requires rs' <= rs && forall r :: r in rs' ==> f'(r) <= f(r)
    ensures SumOver(rs', f') <= SumOver(rs, f)
    decreases rs
  {
    if rs != {} {
      var r :| r in rs;
      SumRemove(rs, f, r);
      if r in rs' { SumRemove(rs', f', r); } else { assert rs' - {r} == rs'; }
      SumLe(rs' - {r}, f', rs - {r}, f);
    }
  }

  lemma SumLess(rs': set<Link>, f': Link -> nat, rs: set<Link>, f: Link -> nat, r: Link)
    requires rs' <= rs && forall r :: r in rs' ==> f'(r) <= f(r)
    requires r in rs && (if r in rs' then f'(r) < f(r) else 0 < f(r))
    ensures SumOver(rs', f') < SumOver(rs, f)
  {
    SumRemove(rs, f, r);
    if r in rs' { SumRemove(rs', f', r); } else { assert rs' - {r} == rs'; }
    SumLe(rs' - {r}, f', rs - {r}, f);
  }

  // ----- the measure -----

  function UnsetRoots(st: State): set<Link> {
    set r | r in st.roots && st.roots[r].schema.None?
  }

  /** All roots listed for some block. */
  function ListedRoots(st: State): set<Link> {
    set l, r | l in st.params && r in st.params[l] :: r
  }

  ghost function TotalWeight(st: State): nat {
    SumOver(ListedRoots(st), r => ViewWeight(ViewOf(st, r)))
  }

  /** `st'` is below `st` in the lexicographic order of roots without schema and total weight. */
  ghost predicate Lower(st': State, st: State) {
    |UnsetRoots(st')| < |UnsetRoots(st)|
    || (|UnsetRoots(st')| == |UnsetRoots(st)| && TotalWeight(st') < TotalWeight(st))
  }

  ghost predicate NotHigher(st': State, st: State) {
    Lower(st', st) || (|UnsetRoots(st')| == |UnsetRoots(st)| && TotalWeight(st') == TotalWeight(st))
  }

  ghost predicate Sane(cfg: Config, st: State)
    requires cfg.maxBlockSize > 2 + LINK_SIZE
  {
    && (forall r :: Indexed(cfg, r, ViewOf(st, r)))
    && (forall l :: l in st.params ==> st.params[l] != map[])
  }

  /** `st'` is `st` after `block` was consumed under `id`, for every root. */
  ghost predicate Consumed(cfg: Config, st: State, id: Link, block: seq<Byte>, st': State)
    requires cfg.maxBlockSize > 2 + LINK_SIZE
  {
    && st'.store == st.store[id := block]
    && forall r :: ViewOf(st', r) == ConsumeView(cfg, ViewOf(st, r), id, block)
  }

  lemma Listed(st: State, r: Link)
    ensures r in ListedRoots(st) <==> ViewOf(st, r).entries != map[]
  {
    if r in ListedRoots(st) {
      var l :| l in st.params && r in st.params[l];
      assert l in EntriesOf(st.params, r);
    }
    if EntriesOf(st.params, r) != map[] {
      var l :| l in EntriesOf(st.params, r);
    }
  }

  /** After a block is consumed, no root is higher than before, and one that awaited it is lower. */
  lemma ConsumedAt(cfg: Config, st: State, id: Link, block: seq<Byte>, st': State, r: Link)
    requires ValidConfig(cfg) && Sane(cfg, st) && Consumed(cfg, st, id, block, st')
    ensures var v, v' := ViewOf(st, r), ViewOf(st', r);
      if id in v.entries then Below(v', v) else v' == v
  {
    hide Below, Indexed, ConsumeView, EntriesOf;
    ConsumeShrinks(cfg, r, ViewOf(st, r), id, block);
  }

  lemma UnsetShrinks(cfg: Config, st: State, id: Link, block: seq<Byte>, st': State)
    requires ValidConfig(cfg) && Sane(cfg, st) && Consumed(cfg, st, id, block, st')
    ensures UnsetRoots(st') <= UnsetRoots(st)
  {
    hide ConsumeView, EntriesOf, Indexed, ViewWeight;
    forall r | r in UnsetRoots(st') ensures r in UnsetRoots(st) {
      ConsumedAt(cfg, st, id, block, st', r);
      assert Unset(ViewOf(st', r)) == 1;
    }
  }

  lemma {:induction false} SubsetCardinality(a: set<Link>, b: set<Link>)
    requires a <= b
    ensures |a| <= |b|
    ensures a != b ==> |a| < |b|
  {
    if a != {} {
      var x :| x in a;
      SubsetCardinality(a - {x}, b - {x});
    }
  }

  /** Consuming an awaited block lowers the measure. */
  lemma MeasureDrops(cfg: Config, st: State, id: Link, block: seq<Byte>, st': State)
    requires ValidConfig(cfg) && Sane(cfg, st) && Consumed(cfg, st, id, block, st')
    requires id in st.params
    ensures Lower(st', st)
  {
    hide ConsumeView, EntriesOf, Indexed, ViewWeight, SumOver;
    UnsetShrinks(cfg, st, id, block, st');
    SubsetCardinality(UnsetRoots(st'), UnsetRoots(st));
    if UnsetRoots(st') == UnsetRoots(st) {
      WeightDrops(cfg, st, id, block, st');
    }
  }

  lemma WeightDrops(cfg: Config, st: State, id: Link, block: seq<Byte>, st': State)
    requires ValidConfig(cfg) && Sane(cfg, st) && Consumed(cfg, st, id, block, st')
    requires id in st.params && UnsetRoots(st') == UnsetRoots(st)
    ensures TotalWeight(st') < TotalWeight(st)
  {
    hide ConsumeView, Indexed, SumOver, ListedRoots, EntriesOf, ViewWeight;
    var f, f' := (r: Link) => ViewWeight(ViewOf(st, r)), (r: Link) => ViewWeight(ViewOf(st', r));
    forall r ensures f'(r) <= f(r) && (id in EntriesOf(st.params, r) ==> f'(r) < f(r)) {
      ConsumedAt(cfg, st, id, block, st', r);
      SameUnset(st, st', r);
    }
    forall r | r in ListedRoots(st') ensures r in ListedRoots(st) {
      StaysListed(cfg, st, id, block, st', r);
    }
    var r := AwaitingRoot(st, id);
    Listed(st, r);
    SumLess(ListedRoots(st'), f', ListedRoots(st), f, r);
  }

  lemma SameUnset(st: State, st': State, r: Link)
    requires UnsetRoots(st') == UnsetRoots(st)
    ensures Unset(ViewOf(st', r)) == Unset(ViewOf(st, r))
  {
    assert r in UnsetRoots(st) <==> Unset(ViewOf(st, r)) == 1;
    assert r in UnsetRoots(st') <==> Unset(ViewOf(st', r)) == 1;
  }

  lemma AwaitingRoot(st: State, id: Link) returns (r: Link)
    requires id in st.params && st.params[id] != map[]
    ensures id in EntriesOf(st.params, r)
  {
    r :| r in st.params[id];
  }

  lemma StaysListed(cfg: Config, st: State, id: Link, block: seq<Byte>, st': State, r: Link)
    requires ValidConfig(cfg) && Consumed(cfg, st, id, block, st')
    requires r in ListedRoots(st')
    ensures r in ListedRoots(st)
  {
    hide ConsumeView, EntriesOf, ListedRoots;
    Listed(st, r);
    Listed(st', r);
    if ViewOf(st, r).entries == map[] { NothingFromNothing(cfg, ViewOf(st, r), id, block); }
  }

  lemma NothingFromNothing(cfg: Config, v: RootView, id: Link, block: seq<Byte>)
    requires cfg.maxBlockSize > 2 + LINK_SIZE && v.entries == map[]
    ensures ConsumeView(cfg, v, id, block) == v
  {}

  lemma LowerTransitive(a: State, b: State, c: State)
    requires NotHigher(a, b) && Lower(b, c)
    ensures Lower(a, c)
  {}

  // ----- awaited although stored -----

  /** Blocks that are awaited although they are in the store: there are none at rest. */
  function Overdue(st: State): set<Link> {
    set l | l in st.params && l in st.store
  }
}
