/** Trees of Bitswap blocks held in a map from links to blocks, and joining them breadth-first. */
module BlockTree {
  import opened LittleEndian
  import opened Schema
  import opened BlockCodec
  import opened BreadthFirst

  type Blocks = map<Link, seq<Byte>>

  datatype JoinResult = Joined(data: seq<Byte>) | Failed

  predicate Readable(blocks: Blocks, l: Link) {
    l in blocks && ReadBlock(blocks[l]).Parsed?
  }

  function LinksOf(blocks: Blocks, l: Link): seq<Link> {
    if Readable(blocks, l) then ReadBlock(blocks[l]).links else []
  }

  function DataOf(blocks: Blocks, l: Link): seq<Byte> {
    if Readable(blocks, l) then ReadBlock(blocks[l]).data else []
  }

  function Kids(blocks: Blocks): Link -> seq<Link> {
    l => LinksOf(blocks, l)
  }

  /** All data of the blocks in `order`, in order. */
  function AllData(blocks: Blocks, order: seq<Link>): seq<Byte> {
    if order == [] then []
    else AllData(blocks, order[..|order| - 1]) + DataOf(blocks, order[|order| - 1])
  }

  lemma AllDataSnoc(blocks: Blocks, order: seq<Link>, i: nat)
    requires i < |order|
    ensures AllData(blocks, order[..i + 1]) == AllData(blocks, order[..i]) + DataOf(blocks, order[i])
  {
    assert order[..i + 1][..i] == order[..i];
  }

  /** The tree under `root` is complete, and `order` is its breadth-first listing. */
  ghost predicate CompleteTree(blocks: Blocks, root: Link, order: seq<Link>) {
    && Listing(Kids(blocks), root, order)
    && forall i :: 0 <= i < |order| ==> Readable(blocks, order[i])
  }

  lemma WalkReadable(blocks: Blocks, root: Link, done: seq<Link>, queue: seq<Link>, order: seq<Link>)
    requires Walking(Kids(blocks), root, done, queue) && queue != []
    requires CompleteTree(blocks, root, order)
    ensures Readable(blocks, queue[0])
  {
    WalkIsPrefix(Kids(blocks), root, done, queue, order);
    assert order[|done|] == (done + queue)[|done|] == queue[0];
  }

  lemma JoinedTree(blocks: Blocks, root: Link, done: seq<Link>, order: seq<Link>)
    requires Listing(Kids(blocks), root, done)
    requires CompleteTree(blocks, root, order)
    ensures order == done
  {
    ListingUnique(Kids(blocks), root, order, done);
  }

  /** Visiting the blocks `end`, with `rest` then queued, the walk is over: nothing is queued, or a
      block that cannot be read. */
  ghost predicate WalkEnds(blocks: Blocks, root: Link, end: seq<Link>, rest: seq<Link>) {
    Walking(Kids(blocks), root, end, rest) && (rest == [] || !Readable(blocks, rest[0]))
  }

  /** Breadth-first concatenation. It succeeds exactly when the tree under `root` is complete and
      readable, and then yields the data of its blocks in breadth-first order. The source loops
      forever when the walk does not end: `end` and `rest` are where it does. */
  method JoinBitswapBlocks(blocks: Blocks, root: Link, ghost end: seq<Link>, ghost rest: seq<Link>)
    returns (r: JoinResult)
    requires WalkEnds(blocks, root, end, rest)
    ensures r.Joined? <==> exists order :: CompleteTree(blocks, root, order)
    ensures forall order :: CompleteTree(blocks, root, order) ==> r == Joined(AllData(blocks, order))
  {
    var queue := [root];
    var res := [];
    ghost var done := [];
    hide ReadBlock, Walking, Listing;
    WalkStart(Kids(blocks), root);
    while true
      invariant Walking(Kids(blocks), root, done, queue)
      invariant queue != [] && done <= end
      invariant forall i :: 0 <= i < |done| ==> Readable(blocks, done[i])
      invariant res == AllData(blocks, done)
      decreases |end| - |done|
    {
      var link := queue[0];
      forall order | CompleteTree(blocks, root, order) ensures Readable(blocks, link) {
        WalkReadable(blocks, root, done, queue, order);
      }
      if link !in blocks {
        return Failed;
      }
      var parsed := ReadBlock(blocks[link]);
      if parsed.Unreadable? {
        return Failed;
      }
      WalkFollows(Kids(blocks), root, done, queue, end, rest);
      WalkStep(Kids(blocks), root, done, queue);
      assert Kids(blocks)(link) == parsed.links;
      assert (done + [link])[..|done|] == done;
      queue := queue[1..] + parsed.links;
      res := res + parsed.data;
      done := done + [link];
      if queue == [] {
        WalkDone(Kids(blocks), root, done);
        assert CompleteTree(blocks, root, done);
        forall order | CompleteTree(blocks, root, order) ensures order == done {
          JoinedTree(blocks, root, done, order);
        }
        return Joined(res);
      }
    }
  }

  /** The walk through a complete tree ends. */
  lemma CompleteWalkEnds(blocks: Blocks, root: Link, order: seq<Link>)
    requires CompleteTree(blocks, root, order)
    ensures WalkEnds(blocks, root, order, [])
  {
    assert order + [] == order;
  }

  /** So does every walk along links that lead to blocks of lower rank, which is all that hashes allow. */
  lemma {:induction false} RankedWalkEnds(blocks: Blocks, root: Link, rank: Link -> nat, done: seq<Link>,
                                          queue: seq<Link>)
    returns (end: seq<Link>, rest: seq<Link>)
    requires Ranked(Kids(blocks), rank) && Walking(Kids(blocks), root, done, queue)
    ensures WalkEnds(blocks, root, end, rest)
    decreases TotalSize(Kids(blocks), rank, queue)
  {
    hide Walking, Ranked, TotalSize, Readable, Kids;
    if queue == [] || !Readable(blocks, queue[0]) {
      return done, queue;
    }
    WalkStep(Kids(blocks), root, done, queue);
    VisitShrinks(Kids(blocks), rank, queue);
    end, rest := RankedWalkEnds(blocks, root, rank, done + [queue[0]], queue[1..] + Kids(blocks)(queue[0]));
  }

  // ----- trees of the shape a schema predicts -----

  /** `block` has the size and the link count that the schema predicts for index `i`. */
  predicate FitsAt(s: BlockSchema, block: seq<Byte>, i: int) {
    && |block| == s.BlockSize(i)
    && ReadBlock(block).Parsed?
    && |ReadBlock(block).links| == s.LinkCount(i)
  }

  /** Block `i` of the tree is present, fits the schema, and links to its children in order. */
  ghost predicate NodeAt(blocks: Blocks, s: BlockSchema, tree: seq<Link>, i: int)
    requires 0 <= i < |tree|
  {
    && tree[i] in blocks
    && FitsAt(s, blocks[tree[i]], i)
    && forall c :: 0 <= c < s.LinkCount(i) ==>
         0 <= Child(s, i, c) < |tree| && tree[Child(s, i, c)] == ReadBlock(blocks[tree[i]]).links[c]
  }

  /** `tree` lists, in breadth-first order, the links of a tree of the shape `s`. */
  ghost predicate IsBlockTree(blocks: Blocks, s: BlockSchema, tree: seq<Link>) {
    && |tree| == s.numTotalBlocks
    && forall i :: 0 <= i < |tree| ==> NodeAt(blocks, s, tree, i)
  }

  lemma NodeLinks(blocks: Blocks, s: BlockSchema, tree: seq<Link>, i: nat)
    requires i < |tree| && NodeAt(blocks, s, tree, i)
    requires 0 <= LinksBefore(s, i) <= LinksBefore(s, i + 1) < |tree|
    ensures Kids(blocks)(tree[i]) == tree[1 + LinksBefore(s, i)..1 + LinksBefore(s, i + 1)]
  {
    hide ReadBlock;
    var links := ReadBlock(blocks[tree[i]]).links;
    forall c | 0 <= c < |links| ensures links[c] == tree[1 + LinksBefore(s, i) + c] {
      assert tree[Child(s, i, c)] == links[c];
    }
  }

  /** The blocks before index `m` link to exactly the blocks 1 .. `LinksBefore(m)`, in order. */
  lemma {:induction false} TreeKids(blocks: Blocks, s: BlockSchema, len: nat, tree: seq<Link>, m: nat)
    requires WellFormed(s, len) && IsBlockTree(blocks, s, tree) && m <= |tree|
    ensures 0 <= LinksBefore(s, m) < |tree|
    ensures AllKids(Kids(blocks), tree[..m]) == tree[1..1 + LinksBefore(s, m)]
  {
    hide WellFormed, ReadBlock, NodeAt, Kids, Child, LinksOf;
    LinksBeforeBounds(s, len, m);
    if m > 0 {
      var i := m - 1;
      TreeKids(blocks, s, len, tree, i);
      ChildrenInTree(s, len, i);
      NodeLinks(blocks, s, tree, i);
      AllKidsSnoc(Kids(blocks), tree, i);
      SplitSlice(tree, 1, 1 + LinksBefore(s, i), 1 + LinksBefore(s, m));
    }
  }

  /** A tree of the predicted shape is complete, and its list is the breadth-first listing. */
  lemma TreeIsComplete(blocks: Blocks, s: BlockSchema, len: nat, tree: seq<Link>)
    requires WellFormed(s, len) && IsBlockTree(blocks, s, tree)
    ensures CompleteTree(blocks, tree[0], tree)
  {
    var n := s.numTotalBlocks;
    TreeKids(blocks, s, len, tree, n);
    LinksBeforeBounds(s, len, n);
    assert tree[..n] == tree;
    assert tree == [tree[0]] + tree[1..];
    forall m | 0 <= m < |tree| ensures |AllKids(Kids(blocks), tree[..m])| >= m {
      TreeKids(blocks, s, len, tree, m);
      LinksBeforeBounds(s, len, m);
    }
    forall i | 0 <= i < |tree| ensures Readable(blocks, tree[i]) {
      assert NodeAt(blocks, s, tree, i);
    }
  }

  lemma {:induction false} TreeDataLength(blocks: Blocks, s: BlockSchema, len: nat, tree: seq<Link>, m: nat)
    requires WellFormed(s, len) && IsBlockTree(blocks, s, tree) && m <= |tree|
    ensures |AllData(blocks, tree[..m])| == Offset(s, m)
  {
    if m > 0 {
      hide WellFormed, Child;
      var i := m - 1;
      TreeDataLength(blocks, s, len, tree, i);
      assert tree[..m][..i] == tree[..i];
      assert NodeAt(blocks, s, tree, i);
      ReadSize(blocks[tree[i]]);
    }
  }

  lemma ReadSize(block: seq<Byte>)
    requires ReadBlock(block).Parsed?
    ensures |block| == 2 + LINK_SIZE * |ReadBlock(block).links| + |ReadBlock(block).data|
  {}

  /** Joined data starts with the root's own data. */
  lemma {:induction false} DataStartsWithRoot(blocks: Blocks, order: seq<Link>)
    requires order != []
    ensures DataOf(blocks, order[0]) <= AllData(blocks, order)
  {
    if |order| == 1 {
      assert order[..0] == [];
    } else {
      DataStartsWithRoot(blocks, order[..|order| - 1]);
    }
  }

  // ----- a rank for the blocks of a tree: identical blocks may sit at several indices -----

  /** Last index at which `l` occurs, or -1. */
  function LastIndex(tree: seq<Link>, l: Link): (i: int)
    ensures -1 <= i < |tree|
    ensures i >= 0 ==> tree[i] == l
    ensures forall j :: i < j < |tree| ==> tree[j] != l
  {
    if tree == [] then -1
    else if tree[|tree| - 1] == l then |tree| - 1
    else LastIndex(tree[..|tree| - 1], l)
  }

  function TreeRank(tree: seq<Link>): Link -> nat {
    l => |tree| - 1 - LastIndex(tree, l)
  }

  /** The blocks of a tree alone, without whatever else a store holds. */
  function Restrict(blocks: Blocks, tree: seq<Link>): Blocks {
    map l | l in blocks && l in tree :: blocks[l]
  }

  lemma RestrictIsTree(blocks: Blocks, s: BlockSchema, tree: seq<Link>)
    requires IsBlockTree(blocks, s, tree)
    ensures IsBlockTree(Restrict(blocks, tree), s, tree)
  {
    forall i | 0 <= i < |tree| ensures NodeAt(Restrict(blocks, tree), s, tree, i) {
      assert NodeAt(blocks, s, tree, i);
      assert tree[i] in tree;
    }
  }

  lemma TreeIsRanked(blocks: Blocks, s: BlockSchema, len: nat, tree: seq<Link>)
    requires WellFormed(s, len) && IsBlockTree(blocks, s, tree)
    requires forall l :: l in blocks ==> l in tree
    ensures Ranked(Kids(blocks), TreeRank(tree))
  {
    forall l, x | x in Kids(blocks)(l) ensures TreeRank(tree)(x) < TreeRank(tree)(l) {
      assert Readable(blocks, l) && x in LinksOf(blocks, l);
      var i := LastIndex(tree, l);
      assert i >= 0;
      assert NodeAt(blocks, s, tree, i);
      var links := ReadBlock(blocks[l]).links;
      var c :| 0 <= c < |links| && links[c] == x;
      ChildrenInTree(s, len, i);
      assert tree[Child(s, i, c)] == x;
    }
  }
}
