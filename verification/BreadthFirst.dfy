/** Breadth-first listings of trees given by a function from nodes to their children. */
module BreadthFirst {

  /** The children of the nodes in `order`, in order. */
  function AllKids<N>(kids: N -> seq<N>, order: seq<N>): seq<N> {
    if order == [] then []
    else AllKids(kids, order[..|order| - 1]) + kids(order[|order| - 1])
  }

  /** `order` is the breadth-first listing of the tree under `root`: the root, followed by the
      children of the first listed node, then of the second, and so on; every node but the
      root is a child of a node listed before it. */
  ghost predicate Listing<N>(kids: N -> seq<N>, root: N, order: seq<N>) {
    && order == [root] + AllKids(kids, order)
    && (forall m :: 0 <= m < |order| ==> |AllKids(kids, order[..m])| >= m)
  }

  /** A walk in progress: the nodes done, then those waiting in the queue. */
  ghost predicate Walking<N>(kids: N -> seq<N>, root: N, done: seq<N>, queue: seq<N>) {
    && done + queue == [root] + AllKids(kids, done)
    && (forall m :: 0 <= m < |done| ==> |AllKids(kids, done[..m])| >= m)
  }

  lemma {:induction false} AllKidsPrefix<N>(kids: N -> seq<N>, order: seq<N>, m: nat)
    requires m <= |order|
    ensures AllKids(kids, order[..m]) <= AllKids(kids, order)
  {
    if m < |order| {
      AllKidsPrefix(kids, order[..|order| - 1], m);
      assert order[..|order| - 1][..m] == order[..m];
    } else {
      assert order[..m] == order;
    }
  }

  lemma AllKidsSnoc<N>(kids: N -> seq<N>, order: seq<N>, i: nat)
    requires i < |order|
    ensures AllKids(kids, order[..i + 1]) == AllKids(kids, order[..i]) + kids(order[i])
  {
    assert order[..i + 1][..i] == order[..i];
  }

  lemma SplitSlice<N>(s: seq<N>, i: nat, j: nat, k: nat)
    requires i <= j <= k <= |s|
    ensures s[i..k] == s[i..j] + s[j..k]
  {}

  lemma WalkStart<N>(kids: N -> seq<N>, root: N)
    ensures Walking(kids, root, [], [root])
  {}

  /** Visiting the head of the queue continues the walk. */
  lemma WalkStep<N>(kids: N -> seq<N>, root: N, done: seq<N>, queue: seq<N>)
    requires Walking(kids, root, done, queue) && queue != []
    ensures Walking(kids, root, done + [queue[0]], queue[1..] + kids(queue[0]))
  {
    var next := done + [queue[0]];
    assert next[..|done|] == done;
    forall m | 0 <= m < |next| ensures |AllKids(kids, next[..m])| >= m {
      assert next[..m] == done[..m];
      if m == |done| { assert done[..m] == done; }
    }
    assert next + (queue[1..] + kids(queue[0])) == (done + queue) + kids(queue[0]);
  }

  lemma WalkDone<N>(kids: N -> seq<N>, root: N, done: seq<N>)
    requires Walking(kids, root, done, [])
    ensures Listing(kids, root, done)
  {
    assert done + [] == done;
  }

  lemma KnownIsPrefix<N>(kids: N -> seq<N>, root: N, done: seq<N>, order: seq<N>)
    requires Listing(kids, root, order) && done <= order
    ensures [root] + AllKids(kids, done) <= order
  {
    assert order[..|done|] == done;
    AllKidsPrefix(kids, order, |done|);
  }

  lemma WalkExtends<N>(known: seq<N>, done: seq<N>, queue: seq<N>, order: seq<N>)
    requires done != [] && known <= order && known <= done + queue && |known| >= |done|
    ensures done <= order
  {
    forall i | 0 <= i < |done| ensures done[i] == order[i] {
      assert known[i] == (done + queue)[i];
    }
  }

  /** What a walk has seen and queued is a prefix of every listing. */
  lemma {:induction false} WalkIsPrefix<N>(kids: N -> seq<N>, root: N, done: seq<N>, queue: seq<N>, order: seq<N>)
    requires Walking(kids, root, done, queue) && Listing(kids, root, order)
    ensures done + queue <= order
  {
    DonePrefix(kids, root, done, queue, order, |done|);
    assert done[..|done|] == done;
    KnownIsPrefix(kids, root, done, order);
  }

  lemma {:induction false} DonePrefix<N>(kids: N -> seq<N>, root: N, done: seq<N>, queue: seq<N>, order: seq<N>, m: nat)
    requires Walking(kids, root, done, queue) && Listing(kids, root, order)
    requires m <= |done|
    ensures done[..m] <= order
  {
    hide AllKids, Listing;
    if m > 0 {
      DonePrefix(kids, root, done, queue, order, m - 1);
      KnownIsPrefix(kids, root, done[..m - 1], order);
      KnownOfWalk(kids, root, done, queue, m);
      var known := [root] + AllKids(kids, done[..m - 1]);
      WalkExtends(known, done[..m], done[m..] + queue, order);
    }
  }

  /** What the first nodes of a walk list reaches past the next node. */
  lemma KnownOfWalk<N>(kids: N -> seq<N>, root: N, done: seq<N>, queue: seq<N>, m: nat)
    requires Walking(kids, root, done, queue) && 0 < m <= |done|
    ensures var known := [root] + AllKids(kids, done[..m - 1]);
      known <= done[..m] + (done[m..] + queue) && |known| >= m
  {
    hide AllKids;
    AllKidsPrefix(kids, done, m - 1);
    assert |AllKids(kids, done[..m - 1])| >= m - 1;
    assert done + queue == done[..m] + (done[m..] + queue);
  }

  /** A walk is determined by how far it has come. */
  lemma WalkFollows<N>(kids: N -> seq<N>, root: N, done: seq<N>, queue: seq<N>, end: seq<N>, rest: seq<N>)
    requires Walking(kids, root, done, queue) && Walking(kids, root, end, rest) && done <= end
    ensures |done| == |end| ==> queue == rest
    ensures |done| < |end| && queue != [] ==> done + [queue[0]] <= end
  {
    assert end[..|done|] == done;
    if |done| == |end| {
      assert done == end;
      assert queue == (done + queue)[|done|..] && rest == (end + rest)[|end|..];
    } else if queue != [] {
      AllKidsPrefix(kids, end, |done|);
      assert done + queue <= end + rest;
      assert (end + rest)[|done|] == (done + queue)[|done|] == queue[0];
      assert end[..|done| + 1] == end[..|done|] + [end[|done|]];
    }
  }

  lemma ListingUnique<N>(kids: N -> seq<N>, root: N, o: seq<N>, order: seq<N>)
    requires Listing(kids, root, o) && Listing(kids, root, order)
    ensures o == order
  {
    assert o + [] == o && order + [] == order;
    WalkIsPrefix(kids, root, o, [], order);
    WalkIsPrefix(kids, root, order, [], o);
  }

  // ----- walks end when links lead to nodes of lower rank -----

  ghost predicate Ranked<N(!new)>(kids: N -> seq<N>, rank: N -> nat) {
    forall l, x :: x in kids(l) ==> rank(x) < rank(l)
  }

  /** Number of nodes visited from `l`, counting repetitions. */
  ghost function Size<N(!new)>(kids: N -> seq<N>, rank: N -> nat, l: N): nat
    requires Ranked(kids, rank)
    decreases rank(l), 1, 0
  {
    1 + SizeBelow(kids, rank, kids(l), rank(l))
  }

  ghost function SizeBelow<N(!new)>(kids: N -> seq<N>, rank: N -> nat, ls: seq<N>, bound: nat): nat
    requires Ranked(kids, rank)
    requires forall x <- ls :: rank(x) < bound
    decreases bound, 0, |ls|
  {
    if ls == [] then 0 else Size(kids, rank, ls[0]) + SizeBelow(kids, rank, ls[1..], bound)
  }

  ghost function TotalSize<N(!new)>(kids: N -> seq<N>, rank: N -> nat, ls: seq<N>): nat
    requires Ranked(kids, rank)
  {
    if ls == [] then 0 else Size(kids, rank, ls[0]) + TotalSize(kids, rank, ls[1..])
  }

  lemma {:induction false} SizeBelowIsTotal<N(!new)>(kids: N -> seq<N>, rank: N -> nat, ls: seq<N>, bound: nat)
    requires Ranked(kids, rank)
    requires forall x <- ls :: rank(x) < bound
    ensures SizeBelow(kids, rank, ls, bound) == TotalSize(kids, rank, ls)
  {
    if ls != [] { SizeBelowIsTotal(kids, rank, ls[1..], bound); }
  }

  lemma {:induction false} TotalSizeAppend<N(!new)>(kids: N -> seq<N>, rank: N -> nat, ls: seq<N>, ms: seq<N>)
    requires Ranked(kids, rank)
    ensures TotalSize(kids, rank, ls + ms) == TotalSize(kids, rank, ls) + TotalSize(kids, rank, ms)
  {
    if ls == [] {
      assert ls + ms == ms;
    } else {
      TotalSizeAppend(kids, rank, ls[1..], ms);
      assert (ls + ms)[1..] == ls[1..] + ms;
    }
  }

  lemma VisitShrinks<N(!new)>(kids: N -> seq<N>, rank: N -> nat, queue: seq<N>)
    requires Ranked(kids, rank) && queue != []
    ensures TotalSize(kids, rank, queue[1..] + kids(queue[0])) < TotalSize(kids, rank, queue)
  {
    SizeBelowIsTotal(kids, rank, kids(queue[0]), rank(queue[0]));
    TotalSizeAppend(kids, rank, queue[1..], kids(queue[0]));
  }
}
