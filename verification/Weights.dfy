/** Weighted sizes of maps from links to lists of node indices. */
module Weights {
  import opened BlockCodec

  type Index = int
  type Entries = map<Link, seq<Index>>

  function SeqWeight(ixs: seq<int>, w: int -> nat): nat {
    if ixs == [] then 0 else SeqWeight(ixs[..|ixs| - 1], w) + w(ixs[|ixs| - 1])
  }

  /** Total weight of all indices listed anywhere in `m`. */
  ghost function Weight(m: Entries, w: int -> nat): nat
    decreases |m|
  {
    if m == map[] then 0
    else
      var k :| k in m;
      SeqWeight(m[k], w) + Weight(m - {k}, w)
  }

  function One(ix: int): nat { 1 }

  /** Number of indices listed anywhere in `m`. */
  ghost function Count(m: Entries): nat { Weight(m, One) }

  lemma {:induction false} SeqWeightOne(ixs: seq<int>)
    ensures SeqWeight(ixs, One) == |ixs|
  {
    if ixs != [] { SeqWeightOne(ixs[..|ixs| - 1]); }
  }

  lemma {:induction false} SeqWeightAppend(a: seq<int>, b: seq<int>, w: int -> nat)
    ensures SeqWeight(a + b, w) == SeqWeight(a, w) + SeqWeight(b, w)
  {
    if b == [] {
      assert a + b == a;
    } else {
      SeqWeightAppend(a, b[..|b| - 1], w);
      assert (a + b)[..|a + b| - 1] == a + b[..|b| - 1];
    }
  }

  lemma {:induction false} SeqWeightLe(ixs: seq<int>, w: int -> nat, w': int -> nat)
    requires forall i :: 0 <= i < |ixs| ==> w'(ixs[i]) <= w(ixs[i])
    ensures SeqWeight(ixs, w') <= SeqWeight(ixs, w)
  {
    if ixs != [] {
      SeqWeightLe(ixs[..|ixs| - 1], w, w');
    }
  }

  /** Any key can be split off first. */
  lemma {:induction false} WeightRemove(m: Entries, k: Link, w: int -> nat)
    requires k in m
    ensures Weight(m, w) == SeqWeight(m[k], w) + Weight(m - {k}, w)
    decreases |m|
  {
    var p :| p in m && Weight(m, w) == SeqWeight(m[p], w) + Weight(m - {p}, w);
    if p != k {
      WeightRemove(m - {p}, k, w);
      WeightRemove(m - {k}, p, w);
      assert (m - {p}) - {k} == (m - {k}) - {p};
    }
  }

  lemma WeightUpdate(m: Entries, k: Link, ixs: seq<int>, w: int -> nat)
    ensures Weight(m[k := ixs], w) + (if k in m then SeqWeight(m[k], w) else 0) == Weight(m, w) + SeqWeight(ixs, w)
  {
    var m' := m[k := ixs];
    WeightRemove(m', k, w);
    if k in m {
      WeightRemove(m, k, w);
      assert m' - {k} == m - {k};
    } else {
      assert m' - {k} == m;
    }
  }

  lemma {:induction false} WeightRestrict(m: Entries, ks: set<Link>, w: int -> nat)
    ensures Weight(m - ks, w) <= Weight(m, w)
    decreases ks
  {
    if ks == {} {
      assert m - ks == m;
    } else {
      var k :| k in ks;
      WeightRestrict(m - {k}, ks - {k}, w);
      assert (m - {k}) - (ks - {k}) == m - ks;
      if k in m { WeightRemove(m, k, w); } else { assert m - {k} == m; }
    }
  }

  lemma {:induction false} WeightLe(m: Entries, w: int -> nat, w': int -> nat)
    requires forall k, i :: k in m && 0 <= i < |m[k]| ==> w'(m[k][i]) <= w(m[k][i])
    ensures Weight(m, w') <= Weight(m, w)
    decreases |m|
  {
    if m != map[] {
      var k :| k in m;
      WeightRemove(m, k, w);
      WeightRemove(m, k, w');
      SeqWeightLe(m[k], w, w');
      WeightLe(m - {k}, w, w');
    }
  }

  /** `a` with the lists of `b` appended key by key. */
  function Merge(a: Entries, b: Entries): (m: Entries)
    ensures m.Keys == a.Keys + b.Keys
    ensures forall k :: k in m ==>
      m[k] == (if k in a then a[k] else []) + (if k in b then b[k] else [])
  {
    map k | k in a.Keys + b.Keys :: (if k in a then a[k] else []) + (if k in b then b[k] else [])
  }

  lemma MergeEmpty(a: Entries)
    ensures Merge(a, map[]) == a
  {
    forall k | k in a ensures Merge(a, map[])[k] == a[k] {
      assert a[k] + [] == a[k];
    }
  }

  lemma EmptyWeight(w: int -> nat)
    ensures Weight(map[], w) == 0
  {}

  lemma {:induction false} WeightMerge(a: Entries, b: Entries, w: int -> nat)
    ensures Weight(Merge(a, b), w) == Weight(a, w) + Weight(b, w)
    decreases |b|
  {
    hide Weight, Merge;
    if b == map[] {
      EmptyWeight(w);
      MergeEmpty(a);
    } else {
      var k :| k in b;
      WeightMerge(a, b - {k}, w);
      WeightRemove(b, k, w);
      MergeSplit(a, b, k);
      WeightRemove(Merge(a, b), k, w);
      if k in a {
        WeightRemove(Merge(a, b - {k}), k, w);
        SeqWeightAppend(a[k], b[k], w);
      }
    }
  }

  lemma MergeSplit(a: Entries, b: Entries, k: Link)
    requires k in b
    ensures k in Merge(a, b)
    ensures k in a ==>
      && k in Merge(a, b - {k}) && Merge(a, b - {k})[k] == a[k] && Merge(a, b)[k] == a[k] + b[k]
      && Merge(a, b - {k}) - {k} == Merge(a, b) - {k}
    ensures k !in a ==> Merge(a, b)[k] == b[k] && Merge(a, b - {k}) == Merge(a, b) - {k}
  {
  }

  /** `m` with `ix` appended to the list of `k`. */
  function AddIndex(m: Entries, k: Link, ix: int): Entries {
    m[k := (if k in m then m[k] else []) + [ix]]
  }

  lemma WeightAddIndex(m: Entries, k: Link, ix: int, w: int -> nat)
    ensures Weight(AddIndex(m, k, ix), w) == Weight(m, w) + w(ix)
  {
    var prior := if k in m then m[k] else [];
    WeightUpdate(m, k, prior + [ix], w);
    SeqWeightAppend(prior, [ix], w);
    assert SeqWeight([ix], w) == w(ix) by { assert [ix][..0] == []; }
  }

  lemma CountZero(m: Entries)
    requires Count(m) == 0
    ensures forall k :: k in m ==> m[k] == []
  {
    forall k | k in m ensures m[k] == [] {
      WeightRemove(m, k, One);
      SeqWeightOne(m[k]);
    }
  }

  lemma CountPositive(m: Entries)
    requires Count(m) > 0
    ensures exists k :: k in m && m[k] != []
  {
    if forall k :: k in m ==> m[k] == [] {
      AllEmpty(m);
    }
  }

  lemma {:induction false} AllEmpty(m: Entries)
    requires forall k :: k in m ==> m[k] == []
    ensures Count(m) == 0
    decreases |m|
  {
    if m != map[] {
      var k :| k in m;
      WeightRemove(m, k, One);
      AllEmpty(m - {k});
    }
  }

  function Part(e: Entries, l: Link): seq<Index> {
    if l in e then e[l] else []
  }

  lemma MergeAt(a: Entries, b: Entries, k: Link)
    ensures k in Merge(a, b) <==> k in a || k in b
    ensures k in Merge(a, b) ==> Merge(a, b)[k] == Part(a, k) + Part(b, k)
  {}
}
