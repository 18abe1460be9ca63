/** The schema's tree is as shallow as any: full blocks hold as many links as fit, and no tree of blocks
    within the size limit has a smaller depth. */
module TreeDepth {
  import opened ModArith
  import opened Schema

  // ----- links of a full block -----

  /** A block of the given size may hold that many links: they fit, and their count fits its two bytes. */
  predicate MayLink(maxBlockDataSize: int, links: nat) {
    2 + LINK_SIZE * links <= maxBlockDataSize && links <= 65535
  }

  /** Full blocks hold exactly as many links as a block may. */
  lemma LinksPerBlockIsLargest(maxBlockDataSize: int, links: nat)
    requires maxBlockDataSize > 2 + LINK_SIZE
    ensures MayLink(maxBlockDataSize, links) <==> links <= LinksPerBlock(maxBlockDataSize)
  {}

  // ----- depth -----

  /** Any tree of blocks, by its links. */
  datatype Tree = Tree(kids: seq<Tree>)

  ghost predicate WithinLimit(t: Tree, maxBlockDataSize: int) {
    MayLink(maxBlockDataSize, |t.kids|) && forall i :: 0 <= i < |t.kids| ==> WithinLimit(t.kids[i], maxBlockDataSize)
  }

  function NodeCount(t: Tree): (n: nat)
    decreases t, 1
  {
    1 + NodeCountOf(t, t.kids)
  }

  function NodeCountOf(ghost t: Tree, kids: seq<Tree>): (n: nat)
    requires forall k :: k in kids ==> k in t.kids
    decreases t, 0, |kids|
  {
    if kids == [] then 0
    else
      assert kids[0] in t.kids;
      NodeCount(kids[0]) + NodeCountOf(t, kids[1..])
  }

  ghost predicate DepthAtMost(t: Tree, d: nat) {
    forall i :: 0 <= i < |t.kids| ==> d > 0 && DepthAtMost(t.kids[i], d - 1)
  }

  /** Blocks of the full k-ary tree of depth d. */
  function Full(k: nat, d: nat): (n: nat) {
    if d == 0 then 1 else k * Full(k, d - 1) + 1
  }

  lemma {:induction false} FullHoldsMost(t: Tree, maxBlockDataSize: int, d: nat)
    requires maxBlockDataSize > 2 + LINK_SIZE && WithinLimit(t, maxBlockDataSize) && DepthAtMost(t, d)
    ensures NodeCount(t) <= Full(LinksPerBlock(maxBlockDataSize), d)
    decreases t, 1, 0
  {
    var k := LinksPerBlock(maxBlockDataSize);
    LinksPerBlockIsLargest(maxBlockDataSize, |t.kids|);
    if d > 0 {
      KidsHoldMost(t, t.kids, maxBlockDataSize, d - 1);
      MulMono(Full(k, d - 1), |t.kids|, k);
      Commutes(k, Full(k, d - 1));
      Commutes(|t.kids|, Full(k, d - 1));
    }
  }

  lemma {:induction false} KidsHoldMost(t: Tree, kids: seq<Tree>, maxBlockDataSize: int, d: nat)
    requires maxBlockDataSize > 2 + LINK_SIZE && forall k :: k in kids ==> k in t.kids
    requires forall i :: 0 <= i < |kids| ==> WithinLimit(kids[i], maxBlockDataSize) && DepthAtMost(kids[i], d)
    ensures NodeCountOf(t, kids) <= |kids| * Full(LinksPerBlock(maxBlockDataSize), d)
    decreases t, 0, |kids|
  {
    var f := Full(LinksPerBlock(maxBlockDataSize), d);
    if kids != [] {
      assert kids[0] in t.kids;
      FullHoldsMost(kids[0], maxBlockDataSize, d);
      KidsHoldMost(t, kids[1..], maxBlockDataSize, d);
      AddOne(|kids|, f);
    }
  }

  lemma Commutes(a: int, b: int)
    ensures a * b == b * a
  {}

  lemma {:induction false} FullGrows(k: nat, d: nat, e: nat)
    requires k >= 1 && d <= e
    ensures Full(k, d) <= Full(k, e)
  {
    if d < e {
      FullGrows(k, d, e - 1);
      MulMono(Full(k, e - 1), 1, k);
      Commutes(k, Full(k, e - 1));
    }
  }

  /** How far block i is from the root. */
  function Depth(s: BlockSchema, i: nat): (d: nat)
    requires s.maxLinksPerBlock > 0
    decreases i
  {
    if i == 0 then 0
    else
      QuotientBounds(i - 1, s.maxLinksPerBlock);
      1 + Depth(s, Parent(s, i))
  }

  /** A block at depth d has a full tree of depth d - 1 before it. */
  lemma {:induction false} DeepBlocksComeLate(s: BlockSchema, i: nat)
    requires s.maxLinksPerBlock > 0 && Depth(s, i) > 0
    ensures i >= Full(s.maxLinksPerBlock, Depth(s, i) - 1)
  {
    var k, p := s.maxLinksPerBlock, Parent(s, i);
    QuotientBounds(i - 1, k);
    if p > 0 {
      DeepBlocksComeLate(s, p);
      MulMono(k, Full(k, Depth(s, p) - 1), p);
    }
  }

  /** No tree of blocks within the limit that carries the data, or has as many blocks, is shallower than
      the schema's at any of its blocks. */
  lemma SchemaIsShallowest(maxBlockDataSize: int, dataLength: nat, t: Tree, d: nat, i: nat)
    requires maxBlockDataSize > 2 + LINK_SIZE
    requires WithinLimit(t, maxBlockDataSize) && DepthAtMost(t, d)
    requires i < RequiredBlockCount(maxBlockDataSize, dataLength) <= NodeCount(t)
    ensures LinksPerBlock(maxBlockDataSize) > 0
    ensures Depth(MkSchema(maxBlockDataSize, dataLength), i) <= d
  {
    hide Full, WithinLimit, DepthAtMost;
    var s := MkSchema(maxBlockDataSize, dataLength);
    LinksFit(maxBlockDataSize);
    FullHoldsMost(t, maxBlockDataSize, d);
    var e := Depth(s, i);
    if e > d {
      DeepBlocksComeLate(s, i);
      FullGrows(s.maxLinksPerBlock, d, e - 1);
    }
  }

  // ----- room in the root block -----

  /** Every root block of several blocks, of whatever length of data, has room for n bytes. */
  ghost predicate RootHasRoom(maxBlockDataSize: int, n: nat)
    requires maxBlockDataSize > 2 + LINK_SIZE
  {
    forall len: nat :: MkSchema(maxBlockDataSize, len).numTotalBlocks > 1 ==>
      MkSchema(maxBlockDataSize, len).DataSize(0) >= n
  }

  /** A length for which the root block is full of links. */
  lemma FullRoot(maxBlockDataSize: int) returns (len: nat)
    requires maxBlockDataSize > 2 + LINK_SIZE
    ensures var s := MkSchema(maxBlockDataSize, len);
      s.numTotalBlocks > 1 && s.DataSize(0) == maxBlockDataSize - 2 - LINK_SIZE * LinksPerBlock(maxBlockDataSize)
  {
    hide RequiredBlockCount, LinksPerBlock;
    LinksFit(maxBlockDataSize);
    len := LengthOfBlocks(maxBlockDataSize, LinksPerBlock(maxBlockDataSize) + 1);
    WholeQuotient(LinksPerBlock(maxBlockDataSize));
  }

  lemma LengthOfBlocks(maxBlockDataSize: int, n: nat) returns (len: nat)
    requires maxBlockDataSize > 2 + LINK_SIZE && n >= 2
    ensures RequiredBlockCount(maxBlockDataSize, len) == n
  {
    var b := maxBlockDataSize - LINK_SIZE - 2;
    MulMono(b, 2, n);
    var most := b * n;
    len := LINK_SIZE + most;
    QuotientOfProduct(b, n);
  }

  lemma QuotientOfProduct(b: int, n: int)
    requires b > 0
    ensures (b * n + b - 1) / b == n
  {
    Commutes(b, n);
    ModUnique(b * n + b - 1, n, b - 1, b);
  }

  lemma WholeQuotient(k: int)
    requires k >= 1
    ensures k / k == 1
  {
    ModUnique(k, 1, 0, k);
  }

  /** The least room a root block has. */
  lemma RootRoomExactly(maxBlockDataSize: int, n: nat)
    requires maxBlockDataSize > 2 + LINK_SIZE
    ensures RootHasRoom(maxBlockDataSize, n) <==>
      n <= maxBlockDataSize - 2 - LINK_SIZE * LinksPerBlock(maxBlockDataSize)
  {
    hide MkSchema, LinksPerBlock;
    var k := LinksPerBlock(maxBlockDataSize);
    var len := FullRoot(maxBlockDataSize);
    forall l: nat | MkSchema(maxBlockDataSize, l).numTotalBlocks > 1
      ensures MkSchema(maxBlockDataSize, l).DataSize(0) >= maxBlockDataSize - 2 - LINK_SIZE * k
    {
      RootRoom(maxBlockDataSize, l);
    }
    assert MkSchema(maxBlockDataSize, len).numTotalBlocks > 1;
  }

  lemma RootRoom(maxBlockDataSize: int, len: nat)
    requires maxBlockDataSize > 2 + LINK_SIZE && MkSchema(maxBlockDataSize, len).numTotalBlocks > 1
    ensures MkSchema(maxBlockDataSize, len).DataSize(0) >=
      maxBlockDataSize - 2 - LINK_SIZE * LinksPerBlock(maxBlockDataSize)
  {
    hide RequiredBlockCount;
    var s := MkSchema(maxBlockDataSize, len);
    LinksFit(maxBlockDataSize);
    QuotientBounds(s.numTotalBlocks - 1, s.maxLinksPerBlock);
    Commutes(s.maxLinksPerBlock, s.numFullBranchBlocks);
  }
}
