/** Splitting a blob into a block tree. `BlockAt` says top-down what every block is; the method
    builds the same blocks bottom-up with a queue, as the encoder does. */
module BlockSplit {
  import opened LittleEndian
  import opened Schema
  import opened BlockCodec
  import opened BreadthFirst
  import opened BlockTree

  type HashF = seq<Byte> -> Link

  /** Block `i` of the tree: the hashes of its children, in order, then its slice of the data. */
  function BlockAt(s: BlockSchema, hash: HashF, data: seq<Byte>, i: nat): (b: seq<Byte>)
    requires WellFormed(s, |data|) && i < s.numTotalBlocks
    decreases s.numTotalBlocks - i, 1
  {
    hide WellFormed;
    ChildrenInTree(s, |data|, i);
    EncodeBlock(ChildLinks(s, hash, data, i), Slice(s, data, i))
  }

  /** The hashes of the children of block `i`, in order. */
  function ChildLinks(s: BlockSchema, hash: HashF, data: seq<Byte>, i: nat): (links: seq<Link>)
    requires WellFormed(s, |data|) && i < s.numTotalBlocks
    ensures |links| == s.LinkCount(i)
    decreases s.numTotalBlocks - i, 0
  {
    hide WellFormed;
    ChildrenInTree(s, |data|, i);
    seq<Link>(s.LinkCount(i), c requires 0 <= c < s.LinkCount(i) => hash(BlockAt(s, hash, data, Child(s, i, c))))
  }

  /** The bytes of the blob carried by block `i`. */
  function Slice(s: BlockSchema, data: seq<Byte>, i: nat): (chunk: seq<Byte>)
    requires WellFormed(s, |data|) && i < s.numTotalBlocks
    ensures |chunk| == s.DataSize(i)
  {
    hide WellFormed;
    OffsetBounds(s, |data|, i);
    data[Offset(s, i)..Offset(s, i + 1)]
  }

  function LinkAt(s: BlockSchema, hash: HashF, data: seq<Byte>, i: nat): Link
    requires WellFormed(s, |data|) && i < s.numTotalBlocks
  {
    hash(BlockAt(s, hash, data, i))
  }

  /** The links of the whole tree in breadth-first order. */
  function TreeOf(s: BlockSchema, hash: HashF, data: seq<Byte>): (tree: seq<Link>)
    requires WellFormed(s, |data|)
    ensures |tree| == s.numTotalBlocks
  {
    seq<Link>(s.numTotalBlocks, i requires 0 <= i < s.numTotalBlocks => LinkAt(s, hash, data, i))
  }

  /** The hash has no collision among the blocks of this tree; equal blocks may repeat. */
  ghost predicate CollisionFree(s: BlockSchema, hash: HashF, data: seq<Byte>)
    requires WellFormed(s, |data|)
  {
    forall i, j :: 0 <= i < s.numTotalBlocks && 0 <= j < s.numTotalBlocks
      && LinkAt(s, hash, data, i) == LinkAt(s, hash, data, j)
      ==> BlockAt(s, hash, data, i) == BlockAt(s, hash, data, j)
  }

  /** Layout: block `i` has the predicted size and the predicted number of links, which are the
      hashes of its children in order, and carries its slice of the data. */
  lemma BlockLayout(s: BlockSchema, hash: HashF, data: seq<Byte>, i: nat)
    requires WellFormed(s, |data|) && i < s.numTotalBlocks
    ensures var b := BlockAt(s, hash, data, i);
      && FitsAt(s, b, i)
      && (forall c :: 0 <= c < s.LinkCount(i) ==>
            0 <= Child(s, i, c) < s.numTotalBlocks && ReadBlock(b).links[c] == LinkAt(s, hash, data, Child(s, i, c)))
      && ReadBlock(b).data == Slice(s, data, i)
  {
    hide WellFormed, ReadBlock, EncodeBlock, Slice;
    ChildrenInTree(s, |data|, i);
    ReadEncode(ChildLinks(s, hash, data, i), Slice(s, data, i));
  }

  /** `blocks` binds the link of every block of the tree to that block. */
  ghost predicate HoldsTree(s: BlockSchema, hash: HashF, data: seq<Byte>, blocks: Blocks)
    requires WellFormed(s, |data|)
  {
    forall i :: 0 <= i < s.numTotalBlocks ==>
      LinkAt(s, hash, data, i) in blocks && blocks[LinkAt(s, hash, data, i)] == BlockAt(s, hash, data, i)
  }

  lemma HeldTreeIsBlockTree(s: BlockSchema, hash: HashF, data: seq<Byte>, blocks: Blocks)
    requires WellFormed(s, |data|) && HoldsTree(s, hash, data, blocks)
    ensures IsBlockTree(blocks, s, TreeOf(s, hash, data))
  {
    hide WellFormed, ReadBlock;
    var tree := TreeOf(s, hash, data);
    forall i | 0 <= i < |tree| ensures NodeAt(blocks, s, tree, i) {
      BlockLayout(s, hash, data, i);
      assert tree[i] == LinkAt(s, hash, data, i);
    }
  }

  /** Joining the first `m` blocks yields the data up to the offset of block `m`. */
  lemma {:induction false} TreeData(s: BlockSchema, hash: HashF, data: seq<Byte>, blocks: Blocks, m: nat)
    requires WellFormed(s, |data|) && HoldsTree(s, hash, data, blocks) && m <= s.numTotalBlocks
    ensures 0 <= Offset(s, m) <= |data|
    ensures AllData(blocks, TreeOf(s, hash, data)[..m]) == data[..Offset(s, m)]
  {
    hide WellFormed, ReadBlock, BlockAt;
    OffsetBounds(s, |data|, m);
    if m > 0 {
      var tree, i := TreeOf(s, hash, data), m - 1;
      TreeData(s, hash, data, blocks, i);
      OffsetBounds(s, |data|, i);
      BlockLayout(s, hash, data, i);
      AllDataSnoc(blocks, tree, i);
      assert tree[i] == LinkAt(s, hash, data, i);
      SplitSlice(data, 0, Offset(s, i), Offset(s, m));
    }
  }

  lemma JoinOfSplit(s: BlockSchema, hash: HashF, data: seq<Byte>, blocks: Blocks)
    requires WellFormed(s, |data|) && HoldsTree(s, hash, data, blocks)
    ensures CompleteTree(blocks, LinkAt(s, hash, data, 0), TreeOf(s, hash, data))
    ensures AllData(blocks, TreeOf(s, hash, data)) == data
  {
    hide WellFormed, ReadBlock, BlockAt;
    var tree := TreeOf(s, hash, data);
    HeldTreeIsBlockTree(s, hash, data, blocks);
    TreeIsComplete(blocks, s, |data|, tree);
    TreeData(s, hash, data, blocks, |tree|);
    OffsetTotal(s, |data|);
    assert tree[..|tree|] == tree;
    assert data[..|data|] == data;
  }

  // ----- the encoder -----

  function Reversed(links: seq<Link>): (r: seq<Link>)
    ensures |r| == |links|
    ensures forall c :: 0 <= c < |links| ==> r[c] == links[|links| - 1 - c]
  {
    if links == [] then [] else Reversed(links[1..]) + [links[0]]
  }

  /** Writes one block: the links come out of the queue in reverse order. */
  method MakeBlock(maxBlockDataSize: int, links: seq<Link>, chunk: seq<Byte>) returns (block: seq<Byte>)
    requires |links| <= 65535 && LINK_SIZE * |links| + 2 + |chunk| <= maxBlockDataSize
    ensures block == EncodeBlock(Reversed(links), chunk)
  {
    var body: seq<Byte> := [];
    for i := 0 to |links|
      invariant body == Flatten(Reversed(links[..i]))
    {
      body := links[i].bytes + body;
      assert Reversed(links[..i + 1]) == [links[i]] + Reversed(links[..i]);
    }
    assert links[..|links|] == links;
    block := ToBytes(|links|, 2) + body + chunk;
  }

  /** Links of blocks `hi`, `hi - 1`, ..., `lo`: what the queue holds. */
  ghost function Descending(s: BlockSchema, hash: HashF, data: seq<Byte>, hi: int, lo: int): (q: seq<Link>)
    requires WellFormed(s, |data|) && 0 <= lo <= hi + 1 <= s.numTotalBlocks
    ensures |q| == hi + 1 - lo
  {
    seq<Link>(hi + 1 - lo, j requires 0 <= j < hi + 1 - lo => LinkAt(s, hash, data, hi - j))
  }

  /** `res` binds exactly the links of blocks `i` .. n-1, each to one of these blocks. */
  ghost predicate HoldsFrom(s: BlockSchema, hash: HashF, data: seq<Byte>, i: int, res: Blocks)
    requires WellFormed(s, |data|) && 0 <= i
  {
    && (forall j :: i <= j < s.numTotalBlocks ==> LinkAt(s, hash, data, j) in res)
    && (forall l :: l in res ==> HeldAt(s, hash, data, i, res, l))
  }

  ghost predicate HeldAt(s: BlockSchema, hash: HashF, data: seq<Byte>, i: int, res: Blocks, l: Link)
    requires WellFormed(s, |data|) && 0 <= i && l in res
  {
    exists j :: i <= j < s.numTotalBlocks && l == LinkAt(s, hash, data, j) && res[l] == BlockAt(s, hash, data, j)
  }

  /** The state of the encoder once blocks n-1 down to `i` are made. */
  ghost predicate Encoded(s: BlockSchema, hash: HashF, data: seq<Byte>, i: int,
                          res: Blocks, queue: seq<Link>, dataEnd: int)
  {
    && WellFormed(s, |data|)
    && 0 <= i < s.numTotalBlocks
    && i <= LinksBefore(s, i) < s.numTotalBlocks
    && queue == Descending(s, hash, data, LinksBefore(s, i), i)
    && dataEnd == Offset(s, i)
    && HoldsFrom(s, hash, data, i, res)
  }

  /** The first links in the queue are those of the children of block `i - 1`, last child first. */
  lemma QueueHead(s: BlockSchema, hash: HashF, data: seq<Byte>, i: int, queue: seq<Link>)
    requires WellFormed(s, |data|) && 0 < i < s.numTotalBlocks
    requires i <= LinksBefore(s, i) < s.numTotalBlocks
    requires queue == Descending(s, hash, data, LinksBefore(s, i), i)
    ensures var p := i - 1; var l := s.LinkCount(p);
      && 0 <= l <= |queue| && l <= 65535
      && Reversed(queue[..l]) == ChildLinks(s, hash, data, p)
      && p <= LinksBefore(s, p) < s.numTotalBlocks
      && queue[l..] + [LinkAt(s, hash, data, p)] == Descending(s, hash, data, LinksBefore(s, p), p)
  {
    hide WellFormed, BlockAt;
    var p := i - 1;
    var l := s.LinkCount(p);
    ChildrenInTree(s, |data|, p);
    LinksBeforeBounds(s, |data|, p);
    assert LinksBefore(s, i) == LinksBefore(s, p) + l;
    forall c | 0 <= c < l ensures Reversed(queue[..l])[c] == LinkAt(s, hash, data, Child(s, p, c)) {
      assert queue[l - 1 - c] == LinkAt(s, hash, data, LinksBefore(s, i) - (l - 1 - c));
    }
  }

  lemma HoldsStep(s: BlockSchema, hash: HashF, data: seq<Byte>, i: int, res: Blocks)
    requires WellFormed(s, |data|) && 0 < i < s.numTotalBlocks
    requires HoldsFrom(s, hash, data, i, res)
    ensures var b := BlockAt(s, hash, data, i - 1); HoldsFrom(s, hash, data, i - 1, res[hash(b) := b])
  {
    hide WellFormed, BlockAt;
    var b := BlockAt(s, hash, data, i - 1);
    var res' := res[hash(b) := b];
    assert LinkAt(s, hash, data, i - 1) == hash(b);
    forall l | l in res' ensures HeldAt(s, hash, data, i - 1, res', l) {
      if l != hash(b) { assert HeldAt(s, hash, data, i, res, l); }
    }
  }

  /** Making block `i - 1` from the first links in the queue, and the data before `dataEnd`. */
  lemma EncodeStep(s: BlockSchema, hash: HashF, data: seq<Byte>, i: int,
                   res: Blocks, queue: seq<Link>, dataEnd: int)
    requires i > 0 && Encoded(s, hash, data, i, res, queue, dataEnd)
    ensures 0 <= s.LinkCount(i - 1) <= |queue| && s.LinkCount(i - 1) <= 65535
    ensures 0 <= dataEnd - s.DataSize(i - 1) <= dataEnd <= |data|
    ensures s.DataSize(i - 1) == s.maxBlockDataSize - 2 - LINK_SIZE * s.LinkCount(i - 1)
    ensures var l := s.LinkCount(i - 1); var dsz := s.DataSize(i - 1);
      EncodeBlock(Reversed(queue[..l]), data[dataEnd - dsz..dataEnd]) == BlockAt(s, hash, data, i - 1)
    ensures var l := s.LinkCount(i - 1); var dsz := s.DataSize(i - 1); var b := BlockAt(s, hash, data, i - 1);
      Encoded(s, hash, data, i - 1, res[hash(b) := b], queue[l..] + [hash(b)], dataEnd - dsz)
  {
    hide WellFormed, EncodeBlock, HoldsFrom, Descending, ChildLinks;
    QueueHead(s, hash, data, i, queue);
    OffsetBounds(s, |data|, i - 1);
    OffsetBounds(s, |data|, i);
    HoldsStep(s, hash, data, i, res);
    assert data[dataEnd - s.DataSize(i - 1)..dataEnd] == Slice(s, data, i - 1);
  }

  lemma LastBlock(s: BlockSchema, hash: HashF, data: seq<Byte>)
    requires WellFormed(s, |data|)
    ensures var dataEnd := |data| - s.lastLeafBlockDataSize;
      && 0 <= dataEnd <= |data| && dataEnd == Offset(s, s.numTotalBlocks - 1)
      && EncodeBlock([], data[dataEnd..]) == BlockAt(s, hash, data, s.numTotalBlocks - 1)
  {
    hide WellFormed, EncodeBlock;
    AtLeastOneBlock(s, |data|);
    var i := s.numTotalBlocks - 1;
    ChildrenInTree(s, |data|, i);
    OffsetTotal(s, |data|);
    OffsetBounds(s, |data|, i);
    assert ChildLinks(s, hash, data, i) == [];
    assert data[Offset(s, i)..] == Slice(s, data, i);
  }

  lemma EncodeFirst(s: BlockSchema, hash: HashF, data: seq<Byte>, b: seq<Byte>)
    requires WellFormed(s, |data|) && b == BlockAt(s, hash, data, s.numTotalBlocks - 1)
    ensures Encoded(s, hash, data, s.numTotalBlocks - 1, map[hash(b) := b], [hash(b)], Offset(s, s.numTotalBlocks - 1))
  {
    hide WellFormed, BlockAt;
    AtLeastOneBlock(s, |data|);
    var i := s.numTotalBlocks - 1;
    LinksBeforeBounds(s, |data|, i);
    assert LinkAt(s, hash, data, i) == hash(b);
    assert [hash(b)] == Descending(s, hash, data, i, i);
    assert HoldsFrom(s, hash, data, i, map[hash(b) := b]) by {
      assert HeldAt(s, hash, data, i, map[hash(b) := b], hash(b));
    }
  }

  lemma EncodedRoot(s: BlockSchema, hash: HashF, data: seq<Byte>, res: Blocks, queue: seq<Link>, dataEnd: int)
    requires Encoded(s, hash, data, 0, res, queue, dataEnd)
    ensures |queue| == 1 && dataEnd == 0 && queue[0] == LinkAt(s, hash, data, 0)
  {
    hide WellFormed, BlockAt;
  }

  /** Makes block `i - 1`, with its `l` links from the head of the queue and the data before `dataEnd`. */
  method AddBlock(s: BlockSchema, hash: HashF, data: seq<Byte>, ghost i: int, l: int,
                  res: Blocks, queue: seq<Link>, dataEnd: int)
    returns (res': Blocks, queue': seq<Link>, dataEnd': int)
    requires i > 0 && Encoded(s, hash, data, i, res, queue, dataEnd)
    requires l == s.LinkCount(i - 1)
    ensures Encoded(s, hash, data, i - 1, res', queue', dataEnd')
  {
    hide Encoded, EncodeBlock;
    EncodeStep(s, hash, data, i, res, queue, dataEnd);
    var dsz := s.maxBlockDataSize - 2 - l * LINK_SIZE;
    var block := MakeBlock(s.maxBlockDataSize, queue[..l], data[dataEnd - dsz..dataEnd]);
    res', queue', dataEnd' := res[hash(block) := block], queue[l..] + [hash(block)], dataEnd - dsz;
  }

  /** The bottom-up encoder. Its slices stay in range, no block is oversized, all data is consumed,
      the queue ends with the root alone, and the blocks are those of the top-down definition. */
  method SplitDataToBitswapBlocks(maxBlockDataSize: int, hash: HashF, data: seq<Byte>)
    returns (res: Blocks, root: Link)
    requires maxBlockDataSize > 2 + LINK_SIZE
    ensures WellFormed(MkSchema(maxBlockDataSize, |data|), |data|)
    ensures var s := MkSchema(maxBlockDataSize, |data|);
      root == LinkAt(s, hash, data, 0) && HoldsFrom(s, hash, data, 0, res)
  {
    hide MkSchema, BlockAt, EncodeBlock, HoldsFrom;
    SchemaWellFormed(maxBlockDataSize, |data|);
    var s := MkSchema(maxBlockDataSize, |data|);
    var n := s.numTotalBlocks;
    var numFullBranchBlocks := s.numFullBranchBlocks;
    var lRem := s.numLinksInPartialBranchBlock;

    LastBlock(s, hash, data);
    var dataEnd := |data| - s.lastLeafBlockDataSize;
    var block := MakeBlock(s.lastLeafBlockDataSize + 2, [], data[dataEnd..]);
    var queue := [hash(block)];
    res := map[hash(block) := block];
    EncodeFirst(s, hash, data, block);

    if n > 1 {
      FullBelow(s, |data|);
      hide WellFormed, Encoded;
      var dataBlocks := n - numFullBranchBlocks - 1;
      if lRem > 0 {
        dataBlocks := dataBlocks - 1;
      }
      for i := 0 to dataBlocks
        invariant Encoded(s, hash, data, n - 1 - i, res, queue, dataEnd)
      {
        res, queue, dataEnd := AddBlock(s, hash, data, n - 1 - i, 0, res, queue, dataEnd);
      }
      if lRem > 0 {
        res, queue, dataEnd := AddBlock(s, hash, data, numFullBranchBlocks + 1, lRem, res, queue, dataEnd);
      }
      for i := 0 to numFullBranchBlocks
        invariant Encoded(s, hash, data, numFullBranchBlocks - i, res, queue, dataEnd)
      {
        res, queue, dataEnd :=
          AddBlock(s, hash, data, numFullBranchBlocks - i, s.maxLinksPerBlock, res, queue, dataEnd);
      }
    }
    EncodedRoot(s, hash, data, res, queue, dataEnd);
    root := queue[0];
  }

  lemma FullBelow(s: BlockSchema, len: nat)
    requires WellFormed(s, len) && s.numTotalBlocks > 1
    ensures 0 <= s.numFullBranchBlocks <= s.numTotalBlocks - 1
    ensures 0 <= s.numLinksInPartialBranchBlock
    ensures s.numLinksInPartialBranchBlock > 0 ==> s.numFullBranchBlocks + 1 <= s.numTotalBlocks - 1
  {
    MulMono(s.numFullBranchBlocks, 1, s.maxLinksPerBlock);
  }

  // ----- round trip -----

  /** The hash does not collide on the blocks that splitting `data` produces. */
  ghost predicate NoCollision(maxBlockDataSize: int, hash: HashF, data: seq<Byte>)
    requires maxBlockDataSize > 2 + LINK_SIZE
  {
    SchemaWellFormed(maxBlockDataSize, |data|);
    CollisionFree(MkSchema(maxBlockDataSize, |data|), hash, data)
  }

  /** Splitting then joining gives the blob back, for every blob and every legal block size,
      provided the hash does not collide on the blocks produced. */
  method SplitThenJoin(maxBlockDataSize: int, hash: HashF, data: seq<Byte>) returns (r: JoinResult)
    requires maxBlockDataSize > 2 + LINK_SIZE
    requires NoCollision(maxBlockDataSize, hash, data)
    ensures r == Joined(data)
  {
    hide MkSchema, BlockAt, WellFormed;
    var blocks, root := SplitDataToBitswapBlocks(maxBlockDataSize, hash, data);
    ghost var s := MkSchema(maxBlockDataSize, |data|);
    ghost var tree := TreeOf(s, hash, data);
    SplitHoldsTree(s, hash, data, blocks);
    JoinOfSplit(s, hash, data, blocks);
    HeldTreeIsBlockTree(s, hash, data, blocks);
    CompleteWalkEnds(blocks, root, tree);
    r := JoinBitswapBlocks(blocks, root, tree, []);
  }

  lemma SplitHoldsTree(s: BlockSchema, hash: HashF, data: seq<Byte>, blocks: Blocks)
    requires WellFormed(s, |data|) && CollisionFree(s, hash, data) && HoldsFrom(s, hash, data, 0, blocks)
    ensures HoldsTree(s, hash, data, blocks)
    ensures forall l :: l in blocks ==> l in TreeOf(s, hash, data)
  {
    hide WellFormed, BlockAt;
    forall i | 0 <= i < s.numTotalBlocks
      ensures blocks[LinkAt(s, hash, data, i)] == BlockAt(s, hash, data, i)
    {
      assert HeldAt(s, hash, data, 0, blocks, LinkAt(s, hash, data, i));
    }
    forall l | l in blocks ensures l in TreeOf(s, hash, data) {
      assert HeldAt(s, hash, data, 0, blocks, l);
      var j :| 0 <= j < s.numTotalBlocks && l == LinkAt(s, hash, data, j);
      assert TreeOf(s, hash, data)[j] == l;
    }
  }
}
