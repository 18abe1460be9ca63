/** When processing a block ends the process: children that are not stored are requested through the
    session of some root that still has a state, and there may be no such root. */
module DownloadPanic {
  import opened LittleEndian
  import opened Schema
  import opened BlockCodec
  import opened RootMachine
  import opened DownloadSafety
  import opened DownloaderState

  /** The machines of all roots. */
  type World = Link -> Machine

  ghost function WorldOf(st: State): World {
    (r: Link) => MachineOf(st, r)
  }

  ghost function After(cfg: Config, w: World, acts: seq<Action>): World
    requires cfg.maxBlockSize > 2 + LINK_SIZE
  {
    (r: Link) => Run(cfg, r, w(r), acts)
  }

  /** The block leaves children recorded for the root. */
  predicate RecordsFor(cfg: Config, m: Machine, id: Link, block: seq<Byte>)
    requires cfg.maxBlockSize > 2 + LINK_SIZE
  {
    && m.view.live.Some? && id in m.view.entries
    && RecordsChildren(cfg, m.view.live.value, m.view.entries[id], block)
  }

  /** They are left by a root that turns out malformed. */
  predicate MismatchesFor(cfg: Config, m: Machine, id: Link, block: seq<Byte>)
    requires cfg.maxBlockSize > 2 + LINK_SIZE
  {
    && m.view.live.Some? && id in m.view.entries
    && LateMismatch(cfg, m.view.live.value, m.view.entries[id], block)
  }

  /** Link `l` of the block is recorded for the root and is not in the store. */
  predicate Requests(cfg: Config, m: Machine, id: Link, block: seq<Byte>, l: Link)
    requires cfg.maxBlockSize > 2 + LINK_SIZE
  {
    RecordsFor(cfg, m, id, block) && l in ReadBlock(block).links && l !in m.store && l != id
  }

  /** Some child must be requested, and every root it could be requested for is malformed. */
  ghost predicate Panics(cfg: Config, w: World, id: Link, block: seq<Byte>)
    requires cfg.maxBlockSize > 2 + LINK_SIZE
  {
    && (exists r, l :: Requests(cfg, w(r), id, block, l))
    && forall r :: RecordsFor(cfg, w(r), id, block) ==> MismatchesFor(cfg, w(r), id, block)
  }

  ghost predicate PanicsAt(cfg: Config, w: World, acts: seq<Action>, i: int)
    requires cfg.maxBlockSize > 2 + LINK_SIZE && 0 <= i < |acts|
  {
    acts[i].Consume? && Panics(cfg, After(cfg, w, acts[..i]), acts[i].id, acts[i].block)
  }

  /** No action of the run ends the process. */
  ghost predicate SafeRun(cfg: Config, w: World, acts: seq<Action>)
    requires cfg.maxBlockSize > 2 + LINK_SIZE
  {
    forall i :: 0 <= i < |acts| ==> !PanicsAt(cfg, w, acts, i)
  }

  lemma SameWorld(cfg: Config, w: World, w': World, id: Link, block: seq<Byte>)
    requires cfg.maxBlockSize > 2 + LINK_SIZE && forall r :: w(r) == w'(r)
    ensures Panics(cfg, w, id, block) ==> Panics(cfg, w', id, block)
  {
    hide RecordsFor, MismatchesFor, Requests;
    if Panics(cfg, w, id, block) {
      var r, l :| Requests(cfg, w(r), id, block, l);
      assert Requests(cfg, w'(r), id, block, l);
      forall r | RecordsFor(cfg, w'(r), id, block) ensures MismatchesFor(cfg, w'(r), id, block) {
        assert w(r) == w'(r);
      }
    }
  }

  lemma SafeNothing(cfg: Config, w: World)
    requires cfg.maxBlockSize > 2 + LINK_SIZE
    ensures SafeRun(cfg, w, [])
  {}

  lemma SafeOne(cfg: Config, w: World, a: Action)
    requires cfg.maxBlockSize > 2 + LINK_SIZE && (a.Consume? ==> !Panics(cfg, w, a.id, a.block))
    ensures SafeRun(cfg, w, [a])
  {
    hide Panics;
    assert [a][..0] == [];
    if a.Consume? { SameWorld(cfg, After(cfg, w, [a][..0]), w, a.id, a.block); }
  }

  lemma SafeConcat(cfg: Config, w: World, a: seq<Action>, w': World, b: seq<Action>)
    requires cfg.maxBlockSize > 2 + LINK_SIZE && SafeRun(cfg, w, a) && SafeRun(cfg, w', b)
    requires forall r :: w'(r) == Run(cfg, r, w(r), a)
    ensures SafeRun(cfg, w, a + b)
  {
    hide Panics, Run;
    forall i | 0 <= i < |a + b| ensures !PanicsAt(cfg, w, a + b, i) {
      if i < |a| {
        assert (a + b)[..i] == a[..i];
        assert !PanicsAt(cfg, w, a, i);
      } else {
        var k := i - |a|;
        assert (a + b)[..i] == a + b[..k];
        assert !PanicsAt(cfg, w', b, k);
        forall r { RunConcat(cfg, r, w(r), a, b[..k]); }
        if b[k].Consume? {
          SameWorld(cfg, After(cfg, w, a + b[..k]), After(cfg, w', b[..k]), b[k].id, b[k].block);
        }
      }
    }
  }

  /** A run in which no root meets a late mismatch does not end the process. */
  lemma NoMismatchNoPanic(cfg: Config, w: World, acts: seq<Action>)
    requires cfg.maxBlockSize > 2 + LINK_SIZE
    requires forall i, r :: 0 <= i < |acts| ==> NoLateMismatch(cfg, Run(cfg, r, w(r), acts[..i]), acts[i])
    ensures SafeRun(cfg, w, acts)
  {
    hide Run, RecordsChildren, LateMismatch;
    forall i | 0 <= i < |acts| ensures !PanicsAt(cfg, w, acts, i) {
      var a := acts[i];
      if a.Consume? {
        PanicNeedsMismatch(cfg, After(cfg, w, acts[..i]), a.id, a.block);
      }
    }
  }

  lemma PanicNeedsMismatch(cfg: Config, w: World, id: Link, block: seq<Byte>)
    requires cfg.maxBlockSize > 2 + LINK_SIZE
    ensures Panics(cfg, w, id, block) ==> exists r :: MismatchesFor(cfg, w(r), id, block)
  {
    if Panics(cfg, w, id, block) {
      var r, l :| Requests(cfg, w(r), id, block, l);
      assert MismatchesFor(cfg, w(r), id, block);
    }
  }

  /** Nor does a block that some root accepts with its links. */
  lemma AcceptedNoPanic(cfg: Config, w: World, id: Link, block: seq<Byte>, r: Link)
    requires cfg.maxBlockSize > 2 + LINK_SIZE
    requires RecordsFor(cfg, w(r), id, block) && !MismatchesFor(cfg, w(r), id, block)
    ensures !Panics(cfg, w, id, block)
  {}

  lemma UnawaitedNoPanic(cfg: Config, st: State, id: Link, block: seq<Byte>)
    requires cfg.maxBlockSize > 2 + LINK_SIZE && id !in st.params
    ensures !Panics(cfg, WorldOf(st), id, block)
  {
    forall r ensures id !in ViewOf(st, r).entries {}
  }
}
