/** What a replaced live state costs: the counter of the new download stays behind the number of listed
    indices by as many as the old one had listed, and the root is set Full when that many are left. */
module RestartLaw {
  import opened Options
  import opened LittleEndian
  import opened Schema
  import opened BlockCodec
  import opened Weights
  import opened RootMachine
  import opened DownloadSafety

  /** The counter of a live root falls short of its listed indices by n. */
  ghost predicate Short(v: RootView, n: nat) {
    v.live.Some? && v.live.value.remainingNodeCounter + n == Count(v.entries)
  }

  /** What is listed for the root once an awaited block is consumed, and nothing is cleared yet. */
  ghost function Left(cfg: Config, v: RootView, id: Link, block: seq<Byte>): Entries
    requires cfg.maxBlockSize > 2 + LINK_SIZE && v.live.Some? && id in v.entries
  {
    var verdict := Judge(cfg, v.live.value, v.entries[id], block);
    if verdict.Accepted? then Merge(v.entries - {id}, verdict.kids) else v.entries - {id}
  }

  /** The block is awaited, not malformed, and leaves n indices listed. */
  ghost predicate Finishes(cfg: Config, v: RootView, id: Link, block: seq<Byte>, n: nat)
    requires cfg.maxBlockSize > 2 + LINK_SIZE
  {
    && v.live.Some? && id in v.entries
    && !Judge(cfg, v.live.value, v.entries[id], block).Malformed?
    && Count(Left(cfg, v, id, block)) == n
  }

  /** A kick-start that goes through falls short by what was listed before it. */
  lemma KickFallsShort(v: RootView, root: Link, tag: Byte)
    requires root !in v.entries && StatusTransitionAllowed(v.status, Partial)
    ensures Short(KickView(v, root, tag, false, false), Count(v.entries))
    ensures KickView(v, root, tag, false, false).status == Some(Partial)
  {
    WeightUpdate(v.entries, root, [0], One);
    SeqWeightOne([0]);
  }

  /**
   * A block keeps the shortfall, or drops the root as broken, or finishes it,
   * the last exactly when n indices are left.
   */
  lemma ShortStep(cfg: Config, v: RootView, id: Link, block: seq<Byte>, n: nat)
    requires cfg.maxBlockSize > 2 + LINK_SIZE && Short(v, n) && v.status == Some(Partial)
    ensures var v' := ConsumeView(cfg, v, id, block);
      if Finishes(cfg, v, id, block, n) then
        v'.live.None? && v'.status == Some(Full) && v'.added == v.added + 1 && v'.broken == v.broken
      else if v'.live.Some? then
        Short(v', n) && v'.status == Some(Partial) && v'.added == v.added && v'.broken == v.broken
      else
        v'.status == Some(Partial) && v'.added == v.added && v'.broken == v.broken + 1
  {
    hide Judge, Count, Merge, ReadBlock;
    if id in v.entries {
      var verdict := Judge(cfg, v.live.value, v.entries[id], block);
      CountAfter(v.entries, id, if verdict.Ignored? then map[] else verdict.kids);
    }
  }

  // ----- runs -----

  /** Nothing but blocks, and what concerns other roots. */
  ghost predicate OnlyBlocks(r: Link, acts: seq<Action>) {
    forall i :: 0 <= i < |acts| ==> acts[i].Consume? || acts[i].root != r
  }

  /** The k-th action finishes the root with n indices left. */
  ghost predicate FinishesAt(cfg: Config, r: Link, m: Machine, acts: seq<Action>, n: nat, k: int)
    requires cfg.maxBlockSize > 2 + LINK_SIZE
  {
    && 0 <= k < |acts| && acts[k].Consume?
    && var at := Run(cfg, r, m, acts[..k]).view;
       Short(at, n) && Finishes(cfg, at, acts[k].id, acts[k].block, n)
  }

  /** Over every run of blocks a root that is short by n is set Full if and only if, while it is live,
      some block leaves exactly n of its indices listed. */
  lemma {:induction false} FullExactlyWhenLeft(cfg: Config, r: Link, m: Machine, acts: seq<Action>, n: nat)
    requires cfg.maxBlockSize > 2 + LINK_SIZE && OnlyBlocks(r, acts)
    requires Short(m.view, n) && m.view.status == Some(Partial)
    ensures var v := Run(cfg, r, m, acts).view;
      && (v.status == Some(Full) <==> exists k :: FinishesAt(cfg, r, m, acts, n, k))
      && (v.status == Some(Full) || v.status == Some(Partial))
      && (v.live.Some? ==> Short(v, n) && v.status == Some(Partial))
      && v.added == m.view.added + if v.status == Some(Full) then 1 else 0
  {
    hide Count, Finishes, Act;
    if acts != [] {
      var j := |acts| - 1;
      var init, a := acts[..j], acts[j];
      FullExactlyWhenLeft(cfg, r, m, init, n);
      EarlierFinish(cfg, r, m, acts, n);
      LastAction(cfg, r, Run(cfg, r, m, init), a, n);
      assert FinishesAt(cfg, r, m, acts, n, j) <==>
        a.Consume? && Short(Run(cfg, r, m, init).view, n) && Finishes(cfg, Run(cfg, r, m, init).view, a.id, a.block, n);
    }
  }

  lemma EarlierFinish(cfg: Config, r: Link, m: Machine, acts: seq<Action>, n: nat)
    requires cfg.maxBlockSize > 2 + LINK_SIZE && acts != []
    ensures var init := acts[..|acts| - 1];
      (exists k :: FinishesAt(cfg, r, m, acts, n, k)) <==>
        (exists k :: FinishesAt(cfg, r, m, init, n, k)) || FinishesAt(cfg, r, m, acts, n, |acts| - 1)
  {
    hide Short, Finishes, Run;
    var j := |acts| - 1;
    var init := acts[..j];
    forall k | 0 <= k < j ensures FinishesAt(cfg, r, m, init, n, k) == FinishesAt(cfg, r, m, acts, n, k) {
      assert init[..k] == acts[..k] && init[k] == acts[k];
    }
    if exists k :: FinishesAt(cfg, r, m, init, n, k) {
      var k :| FinishesAt(cfg, r, m, init, n, k);
      assert FinishesAt(cfg, r, m, acts, n, k);
    }
    if exists k :: FinishesAt(cfg, r, m, acts, n, k) {
      var k :| FinishesAt(cfg, r, m, acts, n, k);
      assert k < j ==> FinishesAt(cfg, r, m, init, n, k);
    }
  }

  lemma LastAction(cfg: Config, r: Link, m: Machine, a: Action, n: nat)
    requires cfg.maxBlockSize > 2 + LINK_SIZE && (a.Consume? || a.root != r)
    requires m.view.live.Some? ==> Short(m.view, n) && m.view.status == Some(Partial)
    ensures var v := Act(cfg, r, m, a).view;
      && (m.view.live.None? ==> v.live.None?)
      && (a.Consume? && m.view.live.Some? && Finishes(cfg, m.view, a.id, a.block, n) ==>
            v.status == Some(Full) && v.live.None? && v.added == m.view.added + 1)
      && (!(a.Consume? && m.view.live.Some? && Finishes(cfg, m.view, a.id, a.block, n)) ==>
            v.status == m.view.status && v.added == m.view.added && (v.live.Some? ==> Short(v, n)))
  {
    hide Short, Finishes;
    if a.Consume? {
      if m.view.live.Some? {
        ShortStep(cfg, m.view, a.id, a.block, n);
      } else {
        NotLiveStays(cfg, m.view, a.id, a.block);
      }
    }
  }

  lemma NotLiveStays(cfg: Config, v: RootView, id: Link, block: seq<Byte>)
    requires cfg.maxBlockSize > 2 + LINK_SIZE && v.live.None?
    ensures var v' := ConsumeView(cfg, v, id, block); v'.live.None? && v'.status == v.status && v'.added == v.added
  {
    hide ReadBlock, Judge, Merge;
  }

  /** A kick-start over a live state falls short by at least one. */
  lemma RestartFallsShort(cfg: Config, r: Link, m: Machine, tag: Byte)
    requires cfg.maxBlockSize > 2 + LINK_SIZE && RootInv(cfg, r, m) && m.view.live.Some? && r !in m.view.entries
    ensures Count(m.view.entries) > 0
    ensures Short(Act(cfg, r, m, Kick(r, tag, false, false)).view, Count(m.view.entries))
  {
    hide Growing, Weight, Short;
    KickFallsShort(m.view, r, tag);
  }

  ghost predicate SomethingListed(e: Entries) {
    exists l, j :: Lists(e, l, j)
  }

  lemma PositiveCount(e: Entries)
    requires Count(e) > 0
    ensures SomethingListed(e)
  {
    hide Count;
    CountPositive(e);
    var l :| l in e && e[l] != [];
    var j := e[l][0];
    assert j in e[l] && Lists(e, l, j);
  }

  /** With a shortfall, some block is still awaited for the root when it is set Full. */
  lemma LeftAtFinish(cfg: Config, v: RootView, id: Link, block: seq<Byte>, n: nat)
    requires cfg.maxBlockSize > 2 + LINK_SIZE && n > 0 && Finishes(cfg, v, id, block, n)
    ensures SomethingListed(Left(cfg, v, id, block))
  {
    hide Judge, Merge, Count, SomethingListed;
    PositiveCount(Left(cfg, v, id, block));
  }
}
