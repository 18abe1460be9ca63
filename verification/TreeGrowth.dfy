/** How the tree of one root grows: the blocks consumed so far, and the indices still awaited. */
module TreeGrowth {
  import opened LittleEndian
  import opened Schema
  import opened DepthIndices
  import opened BlockCodec
  import opened BlockTree
  import opened Weights
  import opened RootMachine

  /** `visited` are the indices whose block was consumed, `tree` their links and those of their
      children. A child of a visited index is visited or awaited under its link, and nothing
      else is awaited. */
  ghost predicate Grown(store: Blocks, s: BlockSchema, r: Link, e: Entries, visited: set<Index>, tree: seq<Link>) {
    && |tree| == s.numTotalBlocks > 0
    && tree[0] == r
    && (0 in visited || Lists(e, r, 0))
    && (forall i :: i in visited ==> KnownAt(s, visited, tree, i) && NodeAt(store, s, tree, i))
    && (forall i, c {:trigger Child(s, i, c)} :: i in visited && 0 <= i && 0 <= c < s.LinkCount(i) ==>
          ReachedAt(e, visited, tree, Child(s, i, c)))
    && (forall l, j :: Lists(e, l, j) ==> KnownAt(s, visited, tree, j) && tree[j] == l)
  }

  ghost predicate ReachedAt(e: Entries, visited: set<Index>, tree: seq<Link>, j: Index) {
    0 <= j < |tree| && (j in visited || Lists(e, tree[j], j))
  }

  /** `j` is the root or a child of a visited index. */
  ghost predicate KnownAt(s: BlockSchema, visited: set<Index>, tree: seq<Link>, j: Index) {
    0 <= j < |tree| && (j == 0 || exists p, c :: ParentAt(s, visited, tree, p, c, j))
  }

  ghost predicate ParentAt(s: BlockSchema, visited: set<Index>, tree: seq<Link>, p: Index, c: int, j: Index) {
    p in visited && 0 <= p < |tree| && 0 <= c < s.LinkCount(p) && Child(s, p, c) == j
  }

  /** `j` is a child of one of the indices `ixs`. */
  ghost predicate NewChild(s: BlockSchema, ixs: seq<Index>, links: nat, j: Index) {
    exists p :: 0 <= p < |ixs| && 0 <= ixs[p] && 0 <= j - Child(s, ixs[p], 0) < links
  }

  /** The tree with the children of the consumed indices filled in. */
  ghost function Extend(s: BlockSchema, tree: seq<Link>, ixs: seq<Index>, links: seq<Link>): (t: seq<Link>)
    ensures |t| == |tree|
  {
    seq<Link>(|tree|, j requires 0 <= j < |tree| =>
      if NewChild(s, ixs, |links|, j) then
        var p :| 0 <= p < |ixs| && 0 <= ixs[p] && 0 <= j - Child(s, ixs[p], 0) < |links|;
        links[j - Child(s, ixs[p], 0)]
      else tree[j])
  }

  /** Consuming `block` under `id`, awaited at `ixs`, all of which it fits. */
  ghost predicate Consumes(s: BlockSchema, len: nat, e: Entries, tree: seq<Link>, id: Link, block: seq<Byte>) {
    && WellFormed(s, len)
    && |tree| == s.numTotalBlocks
    && id in e
    && ReadBlock(block).Parsed?
    && (forall p :: 0 <= p < |e[id]| ==>
          0 <= e[id][p] < |tree| && tree[e[id][p]] == id && FitsAt(s, block, e[id][p]))
  }

  lemma NewChildLink(s: BlockSchema, len: nat, e: Entries, tree: seq<Link>, id: Link, block: seq<Byte>, p: nat, c: nat)
    requires Consumes(s, len, e, tree, id, block)
    requires p < |e[id]| && c < |ReadBlock(block).links|
    ensures var j := Child(s, e[id][p], c); var links := ReadBlock(block).links;
      0 < j < |tree| && NewChild(s, e[id], |links|, j) && Extend(s, tree, e[id], links)[j] == links[c]
  {
    hide WellFormed, ReadBlock;
    var ixs, links := e[id], ReadBlock(block).links;
    var i := ixs[p];
    ChildrenInTree(s, len, i);
    var j := Child(s, i, c);
    assert 0 <= j - Child(s, ixs[p], 0) < |links|;
    var q :| 0 <= q < |ixs| && 0 <= ixs[q] && 0 <= j - Child(s, ixs[q], 0) < |links|
      && Extend(s, tree, ixs, links)[j] == links[j - Child(s, ixs[q], 0)];
    ChildUnique(s, len, i, c, ixs[q], j - Child(s, ixs[q], 0));
  }

  /** Filling in children never changes the link of a child of a visited index. */
  lemma OldChildKept(store: Blocks, s: BlockSchema, len: nat, r: Link, e: Entries, visited: set<Index>, tree: seq<Link>,
                     id: Link, block: seq<Byte>, i: Index, c: int)
    requires Grown(store, s, r, e, visited, tree) && Consumes(s, len, e, tree, id, block)
    requires id in store ==> store[id] == block
    requires i in visited && 0 <= c < s.LinkCount(i)
    ensures 0 <= Child(s, i, c) < |tree|
    ensures Extend(s, tree, e[id], ReadBlock(block).links)[Child(s, i, c)] == tree[Child(s, i, c)]
  {
    hide WellFormed, ReadBlock, Child, Extend, Grown, FitsAt;
    var ixs, links := e[id], ReadBlock(block).links;
    VisitedNode(store, s, r, e, visited, tree, i);
    var j := Child(s, i, c);
    if NewChild(s, ixs, |links|, j) {
      var q := ExtendedAt(s, tree, ixs, links, j);
      ChildOffset(s, ixs[q], j - Child(s, ixs[q], 0));
      FitsLinkCount(s, block, ixs[q]);
      ChildUnique(s, len, i, c, ixs[q], j - Child(s, ixs[q], 0));
    } else {
      UnextendedAt(s, tree, ixs, links, j);
    }
  }

  lemma VisitedNode(store: Blocks, s: BlockSchema, r: Link, e: Entries, visited: set<Index>, tree: seq<Link>, i: Index)
    requires Grown(store, s, r, e, visited, tree) && i in visited
    ensures 0 <= i < |tree| == s.numTotalBlocks && NodeAt(store, s, tree, i)
  {
    hide NodeAt, ReachedAt;
    assert KnownAt(s, visited, tree, i);
  }

  lemma FitsLinkCount(s: BlockSchema, block: seq<Byte>, i: Index)
    requires FitsAt(s, block, i)
    ensures |ReadBlock(block).links| == s.LinkCount(i)
  {}

  /** Which consumed index a filled-in child belongs to. */
  lemma ExtendedAt(s: BlockSchema, tree: seq<Link>, ixs: seq<Index>, links: seq<Link>, j: nat) returns (q: nat)
    requires j < |tree| && NewChild(s, ixs, |links|, j)
    ensures q < |ixs| && 0 <= ixs[q] && 0 <= j - Child(s, ixs[q], 0) < |links|
    ensures Extend(s, tree, ixs, links)[j] == links[j - Child(s, ixs[q], 0)]
  {
    hide Child;
    q :| 0 <= q < |ixs| && 0 <= ixs[q] && 0 <= j - Child(s, ixs[q], 0) < |links|
      && Extend(s, tree, ixs, links)[j] == links[j - Child(s, ixs[q], 0)];
  }

  lemma UnextendedAt(s: BlockSchema, tree: seq<Link>, ixs: seq<Index>, links: seq<Link>, j: nat)
    requires j < |tree| && !NewChild(s, ixs, |links|, j)
    ensures Extend(s, tree, ixs, links)[j] == tree[j]
  {
    hide Child;
  }

  lemma MergeLists(a: Entries, b: Entries, l: Link, j: Index)
    ensures Lists(Merge(a, b), l, j) <==> Lists(a, l, j) || Lists(b, l, j)
  {}

  /** The consumed block's children as the downloader records them. */
  ghost predicate Recorded(di: Depths, s: BlockSchema, ixs: seq<Index>, links: seq<Link>, kids: Entries) {
    && kids == RecordAll(di, map[], links, ixs)
    && (links != [] ==> forall p :: 0 <= p < |ixs| ==> 0 <= ixs[p] && FirstChildId(di, ixs[p]) == Child(s, ixs[p], 0))
  }

  lemma RecordedLists(di: Depths, s: BlockSchema, ixs: seq<Index>, links: seq<Link>, kids: Entries, l: Link, j: Index)
    requires Recorded(di, s, ixs, links, kids)
    ensures Lists(kids, l, j) <==>
      exists p ::
        0 <= p < |ixs| && 0 <= ixs[p] && 0 <= j - Child(s, ixs[p], 0) < |links| && links[j - Child(s, ixs[p], 0)] == l
  {
    hide RecordAll, FirstChildId, Child;
    RecordAllLists(di, map[], links, ixs, l, j);
    if Lists(kids, l, j) {
      var p :| 0 <= p < |ixs| && ChildOf(di, links, ixs[p], l, j);
      assert 0 <= j - Child(s, ixs[p], 0) < |links|;
    }
    if p :| 0 <= p < |ixs| && 0 <= ixs[p] && 0 <= j - Child(s, ixs[p], 0) < |links|
            && links[j - Child(s, ixs[p], 0)] == l {
      assert ChildOf(di, links, ixs[p], l, j);
    }
  }

  ghost function Visit(visited: set<Index>, ixs: seq<Index>): set<Index> {
    visited + set i | i in ixs
  }

  /** The link of a visited or awaited index does not change. */
  lemma LinkKept(store: Blocks, s: BlockSchema, len: nat, r: Link, e: Entries, visited: set<Index>, tree: seq<Link>,
                 id: Link, block: seq<Byte>, j: Index)
    requires Grown(store, s, r, e, visited, tree) && Consumes(s, len, e, tree, id, block)
    requires id in store ==> store[id] == block
    requires KnownAt(s, visited, tree, j)
    ensures Extend(s, tree, e[id], ReadBlock(block).links)[j] == tree[j]
  {
    hide WellFormed, ReadBlock;
    if j == 0 {
      RootIsNoChild(s, len, e, tree, id, block);
    } else {
      var p, c :| ParentAt(s, visited, tree, p, c, j);
      OldChildKept(store, s, len, r, e, visited, tree, id, block, p, c);
    }
  }

  lemma RootIsNoChild(s: BlockSchema, len: nat, e: Entries, tree: seq<Link>, id: Link, block: seq<Byte>)
    requires Consumes(s, len, e, tree, id, block)
    ensures !NewChild(s, e[id], |ReadBlock(block).links|, 0)
  {
    hide WellFormed, ReadBlock;
    forall p | 0 <= p < |e[id]| ensures Child(s, e[id][p], 0) > 0 {
      LinksBeforeBounds(s, len, e[id][p]);
    }
  }

  /** Visited nodes stay intact, and the consumed ones join them. */
  lemma GrowNode(store: Blocks, s: BlockSchema, len: nat, r: Link, e: Entries, visited: set<Index>, tree: seq<Link>,
                 id: Link, block: seq<Byte>, i: Index)
    requires Grown(store, s, r, e, visited, tree) && Consumes(s, len, e, tree, id, block)
    requires id in store ==> store[id] == block
    requires i in Visit(visited, e[id])
    ensures 0 <= i < |tree|
    ensures NodeAt(store[id := block], s, Extend(s, tree, e[id], ReadBlock(block).links), i)
  {
    hide WellFormed, ReadBlock, NewChild, Extend, Child;
    var links := ReadBlock(block).links;
    var tree' := Extend(s, tree, e[id], links);
    if i in visited {
      assert KnownAt(s, visited, tree, i) && NodeAt(store, s, tree, i);
      forall c | 0 <= c < s.LinkCount(i) ensures tree'[Child(s, i, c)] == tree[Child(s, i, c)] {
        OldChildKept(store, s, len, r, e, visited, tree, id, block, i, c);
      }
    } else {
      var p :| 0 <= p < |e[id]| && e[id][p] == i;
      assert Lists(e, id, i);
      forall c | 0 <= c < s.LinkCount(i) ensures 0 <= Child(s, i, c) < |tree| && tree'[Child(s, i, c)] == links[c] {
        NewChildLink(s, len, e, tree, id, block, p, c);
      }
    }
    LinkKept(store, s, len, r, e, visited, tree, id, block, i);
  }

  lemma KnownGrows(s: BlockSchema, visited: set<Index>, tree: seq<Link>, visited': set<Index>, tree': seq<Link>,
                   j: Index)
    requires KnownAt(s, visited, tree, j) && visited <= visited' && |tree'| == |tree|
    ensures KnownAt(s, visited', tree', j)
  {
    if j > 0 {
      var p, c :| ParentAt(s, visited, tree, p, c, j);
      assert ParentAt(s, visited', tree', p, c, j);
    }
  }

  /** Every child of a visited index is visited or awaited after the step. */
  lemma GrowReached(store: Blocks, s: BlockSchema, len: nat, r: Link, e: Entries, visited: set<Index>, tree: seq<Link>,
                    di: Depths, id: Link, block: seq<Byte>, kids: Entries, i: Index, c: int)
    requires Grown(store, s, r, e, visited, tree) && Consumes(s, len, e, tree, id, block)
    requires id in store ==> store[id] == block
    requires Recorded(di, s, e[id], ReadBlock(block).links, kids)
    requires i in Visit(visited, e[id]) && 0 <= i && 0 <= c < s.LinkCount(i)
    ensures ReachedAt(Merge(e - {id}, kids), Visit(visited, e[id]),
                      Extend(s, tree, e[id], ReadBlock(block).links), Child(s, i, c))
  {
    hide WellFormed, ReadBlock, NewChild, Extend, Child, Recorded, Merge;
    var links := ReadBlock(block).links;
    var tree', e' := Extend(s, tree, e[id], links), Merge(e - {id}, kids);
    var j := Child(s, i, c);
    if i in visited {
      assert KnownAt(s, visited, tree, i);
      assert ReachedAt(e, visited, tree, j);
      OldChildKept(store, s, len, r, e, visited, tree, id, block, i, c);
      if j !in visited {
        MergeLists(e - {id}, kids, tree[j], j);
      }
    } else {
      var p :| 0 <= p < |e[id]| && e[id][p] == i;
      NewChildLink(s, len, e, tree, id, block, p, c);
      RecordedLists(di, s, e[id], links, kids, links[c], j);
      ChildOffset(s, i, c);
      MergeLists(e - {id}, kids, links[c], j);
    }
  }

  lemma ChildOffset(s: BlockSchema, i: nat, c: int)
    ensures Child(s, i, c) - Child(s, i, 0) == c
  {}

  lemma GrowAwaitedKid(s: BlockSchema, len: nat, e: Entries, visited: set<Index>, tree: seq<Link>,
                       di: Depths, id: Link, block: seq<Byte>, kids: Entries, l: Link, j: Index)
    requires Consumes(s, len, e, tree, id, block)
    requires Recorded(di, s, e[id], ReadBlock(block).links, kids) && Lists(kids, l, j)
    ensures var tree' := Extend(s, tree, e[id], ReadBlock(block).links);
      j > 0 && KnownAt(s, Visit(visited, e[id]), tree', j) && tree'[j] == l
  {
    hide WellFormed, ReadBlock, NewChild, Extend, Recorded, Child, Lists;
    var links := ReadBlock(block).links;
    RecordedLists(di, s, e[id], links, kids, l, j);
    var p :| 0 <= p < |e[id]| && 0 <= e[id][p] && 0 <= j - Child(s, e[id][p], 0) < |links|
      && links[j - Child(s, e[id][p], 0)] == l;
    var i := e[id][p];
    var c := j - Child(s, i, 0);
    ChildOffset(s, i, c);
    NewChildLink(s, len, e, tree, id, block, p, c);
    assert FitsAt(s, block, i);
    assert ParentAt(s, Visit(visited, e[id]), Extend(s, tree, e[id], links), i, c, j);
  }

  /** Everything awaited after the step is known, under its link. */
  lemma GrowAwaited(store: Blocks, s: BlockSchema, len: nat, r: Link, e: Entries, visited: set<Index>, tree: seq<Link>,
                    di: Depths, id: Link, block: seq<Byte>, kids: Entries, l: Link, j: Index)
    requires Grown(store, s, r, e, visited, tree) && Consumes(s, len, e, tree, id, block)
    requires id in store ==> store[id] == block
    requires Recorded(di, s, e[id], ReadBlock(block).links, kids)
    requires Lists(Merge(e - {id}, kids), l, j)
    ensures var tree' := Extend(s, tree, e[id], ReadBlock(block).links);
      KnownAt(s, Visit(visited, e[id]), tree', j) && tree'[j] == l
    ensures Lists(kids, l, j) ==> j > 0
  {
    hide WellFormed, ReadBlock, NewChild, Extend, Recorded, Merge, Child, KnownAt;
    var links := ReadBlock(block).links;
    var tree', visited' := Extend(s, tree, e[id], links), Visit(visited, e[id]);
    MergeLists(e - {id}, kids, l, j);
    if Lists(kids, l, j) {
      GrowAwaitedKid(s, len, e, visited, tree, di, id, block, kids, l, j);
    } else {
      assert Lists(e, l, j);
      LinkKept(store, s, len, r, e, visited, tree, id, block, j);
      KnownGrows(s, visited, tree, visited', tree', j);
    }
  }

  /** Consuming a block that fits wherever it is awaited grows the tree. */
  lemma GrowStep(store: Blocks, s: BlockSchema, len: nat, r: Link, e: Entries, visited: set<Index>, tree: seq<Link>,
                 di: Depths, id: Link, block: seq<Byte>, kids: Entries)
    requires Grown(store, s, r, e, visited, tree) && Consumes(s, len, e, tree, id, block)
    requires id in store ==> store[id] == block
    requires Recorded(di, s, e[id], ReadBlock(block).links, kids)
    ensures Grown(store[id := block], s, r, Merge(e - {id}, kids), Visit(visited, e[id]),
                  Extend(s, tree, e[id], ReadBlock(block).links))
    ensures forall l, j :: Lists(kids, l, j) ==> j > 0
  {
    hide WellFormed, ReadBlock, NewChild, Extend, Child, Recorded, Merge, KnownAt, Lists, NodeAt, ReachedAt;
    var links := ReadBlock(block).links;
    var store', tree' := store[id := block], Extend(s, tree, e[id], links);
    var visited', e' := Visit(visited, e[id]), Merge(e - {id}, kids);
    forall i | i in visited' ensures KnownAt(s, visited', tree', i) && 0 <= i < |tree'| && NodeAt(store', s, tree', i) {
      GrowNode(store, s, len, r, e, visited, tree, id, block, i);
      GrowKnown(store, s, len, r, e, visited, tree, id, block, i);
    }
    forall i, c | i in visited' && 0 <= i && 0 <= c < s.LinkCount(i)
      ensures ReachedAt(e', visited', tree', Child(s, i, c))
    {
      GrowReached(store, s, len, r, e, visited, tree, di, id, block, kids, i, c);
    }
    forall l, j | Lists(e', l, j)
      ensures KnownAt(s, visited', tree', j) && 0 <= j < |tree'| && tree'[j] == l && (Lists(kids, l, j) ==> j > 0)
    {
      GrowAwaited(store, s, len, r, e, visited, tree, di, id, block, kids, l, j);
      KnownRange(s, visited', tree', j);
    }
    forall l, j | Lists(kids, l, j) ensures j > 0 {
      MergeLists(e - {id}, kids, l, j);
      GrowAwaited(store, s, len, r, e, visited, tree, di, id, block, kids, l, j);
    }
    GrowRoot(store, s, len, r, e, visited, tree, id, block, kids);
  }

  lemma KnownRange(s: BlockSchema, visited: set<Index>, tree: seq<Link>, j: Index)
    requires KnownAt(s, visited, tree, j)
    ensures 0 <= j < |tree|
  {}

  lemma GrowKnown(store: Blocks, s: BlockSchema, len: nat, r: Link, e: Entries, visited: set<Index>, tree: seq<Link>,
                  id: Link, block: seq<Byte>, i: Index)
    requires Grown(store, s, r, e, visited, tree) && Consumes(s, len, e, tree, id, block)
    requires i in Visit(visited, e[id])
    ensures KnownAt(s, Visit(visited, e[id]), Extend(s, tree, e[id], ReadBlock(block).links), i)
  {
    hide WellFormed, ReadBlock, NewChild, Extend, Child, KnownAt;
    if i !in visited { assert Lists(e, id, i); }
    KnownGrows(s, visited, tree, Visit(visited, e[id]), Extend(s, tree, e[id], ReadBlock(block).links), i);
  }

  lemma GrowRoot(store: Blocks, s: BlockSchema, len: nat, r: Link, e: Entries, visited: set<Index>, tree: seq<Link>,
                 id: Link, block: seq<Byte>, kids: Entries)
    requires Grown(store, s, r, e, visited, tree) && Consumes(s, len, e, tree, id, block)
    requires id in store ==> store[id] == block
    ensures Extend(s, tree, e[id], ReadBlock(block).links)[0] == r
    ensures 0 in Visit(visited, e[id]) || Lists(Merge(e - {id}, kids), r, 0)
  {
    hide WellFormed, ReadBlock, NewChild, Extend, Child, Merge;
    LinkKept(store, s, len, r, e, visited, tree, id, block, 0);
    if 0 !in Visit(visited, e[id]) {
      MergeLists(e - {id}, kids, r, 0);
    }
  }

  /** Nothing awaited: the whole tree is in the store. */
  lemma {:induction false} AllVisited(store: Blocks, s: BlockSchema, len: nat, r: Link, e: Entries,
                                      visited: set<Index>, tree: seq<Link>, i: nat)
    requires WellFormed(s, len) && Grown(store, s, r, e, visited, tree)
    requires forall l, j :: !Lists(e, l, j)
    requires i < |tree|
    ensures i in visited
  {
    hide WellFormed, NodeAt, Child;
    if i > 0 {
      var p, c := ParentOf(s, len, i);
      AllVisited(store, s, len, r, e, visited, tree, p);
      assert ReachedAt(e, visited, tree, Child(s, p, c));
    }
  }

  lemma FullyGrown(store: Blocks, s: BlockSchema, len: nat, r: Link, e: Entries, visited: set<Index>, tree: seq<Link>)
    requires WellFormed(s, len) && Grown(store, s, r, e, visited, tree)
    requires forall l, j :: !Lists(e, l, j)
    ensures IsBlockTree(store, s, tree) && |tree| > 0 && tree[0] == r
  {
    hide WellFormed, NodeAt, Child;
    forall i | 0 <= i < |tree| ensures NodeAt(store, s, tree, i) {
      AllVisited(store, s, len, r, e, visited, tree, i);
    }
  }

  /** A larger store holds the same tree. */
  lemma GrownInLargerStore(store: Blocks, s: BlockSchema, r: Link, e: Entries, visited: set<Index>, tree: seq<Link>,
                           id: Link, block: seq<Byte>)
    requires Grown(store, s, r, e, visited, tree)
    requires id in store ==> store[id] == block
    ensures Grown(store[id := block], s, r, e, visited, tree)
  {
    hide ReadBlock, Child, KnownAt, ReachedAt;
    forall i | i in visited
      ensures KnownAt(s, visited, tree, i) && 0 <= i < |tree| && NodeAt(store[id := block], s, tree, i)
    {
      KnownRange(s, visited, tree, i);
      assert NodeAt(store, s, tree, i);
    }
  }
}
