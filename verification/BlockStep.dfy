/** The small step of the downloader: one block against all the roots that await it. */
module BlockStep {
  import opened Options
  import opened LittleEndian
  import opened Schema
  import opened DepthIndices
  import opened BlockCodec
  import opened BlockTree
  import opened Weights
  import opened RootMachine
  import opened DownloaderState

  /** What the step yields for one root: the children recorded for it, whether the block is
      malformed for it, and the schema it fixes. */
  datatype RootResult = RootResult(kids: Entries, malformed: bool, schema: Option<BlockSchema>)

  function ResultFor(children: Params, malformed: set<Link>, schemas: map<Link, BlockSchema>, r: Link): RootResult {
    RootResult(EntriesOf(children, r), r in malformed, Lookup(schemas, r))
  }

  const Nothing := RootResult(map[], false, None)

  /** The result agrees with the verdict of `Judge`. */
  ghost predicate AgreesWith(verdict: Verdict, hasRootIx: bool, res: RootResult) {
    match verdict
    case Ignored => res == Nothing
    case Malformed(kids) => res.kids == kids && res.malformed
    case Accepted(schema, kids) => res == RootResult(kids, false, if hasRootIx then Some(schema) else None)
  }

  /** What the step must yield for root `r`: the verdict of `Judge`, and nothing for roots that do
      not await the block or have no state. */
  ghost predicate StepFor(cfg: Config, states: map<Link, RootState>, oldPs: map<Link, seq<Index>>, block: seq<Byte>,
                          r: Link, res: RootResult)
    requires cfg.maxBlockSize > 2 + LINK_SIZE
  {
    if r in oldPs && r in states then
      AgreesWith(Judge(cfg, states[r], oldPs[r], block), 0 in oldPs[r], res)
    else if r in oldPs && ReadBlock(block).Unreadable? then
      res == RootResult(map[], true, None)
    else res == Nothing
  }

  ghost predicate NoEmpty(params: Params) {
    forall l :: l in params ==> params[l] != map[]
  }

  function Inner(params: Params, l: Link): map<Link, seq<Index>> {
    if l in params then params[l] else map[]
  }

  /** `params` with `ixs` appended for root `r` under `l`. */
  function AppendAt(params: Params, l: Link, r: Link, ixs: seq<Index>): Params {
    var np := Inner(params, l);
    params[l := np[r := (if r in np then np[r] else []) + ixs]]
  }

  lemma AppendAtEntries(params: Params, l: Link, r: Link, ixs: seq<Index>, q: Link)
    ensures EntriesOf(AppendAt(params, l, r, ixs), q) ==
      if q == r then
        EntriesOf(params, r)[l := (if l in EntriesOf(params, r) then EntriesOf(params, r)[l] else []) + ixs]
      else EntriesOf(params, q)
    ensures NoEmpty(params) ==> NoEmpty(AppendAt(params, l, r, ixs))
  {
    var params' := AppendAt(params, l, r, ixs);
    assert r in params'[l];
  }

  /** Records the children of a block at one index: the innermost loop. */
  method RecordChildren(children: Params, r: Link, links: seq<Link>, first: Index) returns (children': Params)
    requires NoEmpty(children)
    ensures EntriesOf(children', r) == RecordLinks(EntriesOf(children, r), links, first, |links|)
    ensures forall q :: q != r ==> EntriesOf(children', q) == EntriesOf(children, q)
    ensures NoEmpty(children')
  {
    hide EntriesOf, NoEmpty, AppendAt;
    children' := children;
    for c := 0 to |links|
      invariant EntriesOf(children', r) == RecordLinks(EntriesOf(children, r), links, first, c)
      invariant forall q :: q != r ==> EntriesOf(children', q) == EntriesOf(children, q)
      invariant NoEmpty(children')
    {
      forall q { AppendAtEntries(children', links[c], r, [first + c], q); }
      children' := AppendAt(children', links[c], r, [first + c]);
    }
  }

  /** Checks a block at the indices of one root and records its children until one does not fit. */
  method CheckIndices(cfg: Config, children: Params, r: Link, s: BlockSchema, block: seq<Byte>, links: seq<Link>,
                      ixs: seq<Index>)
    returns (children': Params, ok: bool)
    requires ReadBlock(block).Parsed? && links == ReadBlock(block).links && NoEmpty(children)
    ensures ok <==> GoodPrefix(s, block, ixs) == ixs
    ensures EntriesOf(children', r) == RecordAll(cfg.depths, EntriesOf(children, r), links, GoodPrefix(s, block, ixs))
    ensures forall q :: q != r ==> EntriesOf(children', q) == EntriesOf(children, q)
    ensures NoEmpty(children')
  {
    hide EntriesOf, NoEmpty, ReadBlock, FirstChildId;
    children' := children;
    ghost var good := GoodPrefix(s, block, ixs);
    for p := 0 to |ixs|
      invariant p <= |good|
      invariant EntriesOf(children', r) == RecordAll(cfg.depths, EntriesOf(children, r), links, ixs[..p])
      invariant forall q :: q != r ==> EntriesOf(children', q) == EntriesOf(children, q)
      invariant NoEmpty(children')
    {
      if |block| != s.BlockSize(ixs[p]) {
        assert !FitsAt(s, block, ixs[p]);
        GoodEndsAt(s, block, ixs, p);
        return children', false;
      }
      if |links| != s.LinkCount(ixs[p]) {
        assert !FitsAt(s, block, ixs[p]);
        GoodEndsAt(s, block, ixs, p);
        return children', false;
      }
      assert FitsAt(s, block, ixs[p]);
      children' := RecordChildren(children', r, links, FirstChildId(cfg.depths, ixs[p]));
      assert ixs[..p + 1][..p] == ixs[..p];
    }
    assert good == ixs && ixs[..|ixs|] == ixs;
    ok := true;
  }

  lemma GoodEndsAt(s: BlockSchema, block: seq<Byte>, ixs: seq<Index>, p: nat)
    requires p < |ixs| && p <= |GoodPrefix(s, block, ixs)| && !FitsAt(s, block, ixs[p])
    ensures GoodPrefix(s, block, ixs) == ixs[..p] && GoodPrefix(s, block, ixs) != ixs
  {
    hide FitsAt;
    var good := GoodPrefix(s, block, ixs);
    assert good == ixs[..|good|];
  }

  /** One block against one root that awaits it at `ixs`. */
  method StepRoot(cfg: Config, r: Link, rp: RootState, ixs: seq<Index>, block: seq<Byte>,
                  children: Params, malformed: set<Link>, schemas: map<Link, BlockSchema>)
    returns (children': Params, malformed': set<Link>, schemas': map<Link, BlockSchema>)
    requires cfg.maxBlockSize > 2 + LINK_SIZE && ReadBlock(block).Parsed? && NoEmpty(children)
    requires ResultFor(children, malformed, schemas, r) == Nothing
    ensures AgreesWith(Judge(cfg, rp, ixs, block), 0 in ixs, ResultFor(children', malformed', schemas', r))
    ensures forall q :: q != r ==>
      ResultFor(children', malformed', schemas', q) == ResultFor(children, malformed, schemas, q)
    ensures NoEmpty(children')
    ensures malformed' <= malformed + {r} && schemas'.Keys <= schemas.Keys + {r}
  {
    hide ReadBlock, GoodPrefix, RecordAll, ReadRootData, EntriesOf, NoEmpty;
    children', malformed', schemas' := children, malformed, schemas;
    var parsed := ReadBlock(block);
    var schema := rp.schema;
    var hasRootIx := 0 in ixs;
    if hasRootIx {
      schema := ReadRootData(cfg, rp.tag, parsed.data);
      if schema.None? {
        malformed' := malformed + {r};
        return;
      }
      schemas' := schemas[r := schema.value];
    }
    if schema.None? {
      return;
    }
    var ok;
    children', ok := CheckIndices(cfg, children, r, schema.value, block, parsed.links, ixs);
    if !ok {
      malformed' := malformed + {r};
    }
  }

  /** One block against every root that awaits it. Roots are taken in any order. */
  method ProcessDownloadedBlockStep(cfg: Config, states: map<Link, RootState>, oldPs: map<Link, seq<Index>>,
                                    block: seq<Byte>)
    returns (children: Params, malformed: set<Link>, schemas: map<Link, BlockSchema>)
    requires cfg.maxBlockSize > 2 + LINK_SIZE
    ensures forall r :: StepFor(cfg, states, oldPs, block, r, ResultFor(children, malformed, schemas, r))
    ensures NoEmpty(children)
    ensures malformed <= oldPs.Keys && schemas.Keys <= oldPs.Keys
  {
    children, malformed, schemas := map[], {}, map[];
    assert forall r :: ResultFor(children, malformed, schemas, r) == Nothing;
    if ReadBlock(block).Unreadable? {
      malformed := oldPs.Keys;
      return;
    }
    hide ReadBlock, Judge, AgreesWith, ResultFor, NoEmpty;
    var todo := oldPs.Keys;
    while todo != {}
      invariant todo <= oldPs.Keys
      invariant NoEmpty(children)
      invariant malformed <= oldPs.Keys && schemas.Keys <= oldPs.Keys
      invariant forall r :: r !in todo ==>
        StepFor(cfg, states, oldPs, block, r, ResultFor(children, malformed, schemas, r))
      invariant forall r :: r in todo ==> ResultFor(children, malformed, schemas, r) == Nothing
      decreases todo
    {
      var r :| r in todo;
      todo := todo - {r};
      if r in states {
        children, malformed, schemas := StepRoot(cfg, r, states[r], oldPs[r], block, children, malformed, schemas);
      }
    }
  }
}
