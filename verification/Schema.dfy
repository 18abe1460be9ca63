/** Shape of a Bitswap block tree, predicted from the length of the data alone.

    A blob is cut into blocks that form a `k`-ary tree numbered in breadth-first order.
    All the arithmetic of the encoder and of the downloader lives here: how many blocks,
    how many links in each, how many bytes in each, and where the children of a block are. */
module Schema {

  const LINK_SIZE := 32

  datatype BlockSchema = BlockSchema(
    numTotalBlocks: int,
    numFullBranchBlocks: int,
    numLinksInPartialBranchBlock: int,
    lastLeafBlockDataSize: int,
    maxBlockDataSize: int,
    maxLinksPerBlock: int)
  {
    function BlockSize(id: int): int {
      if id == numTotalBlocks - 1 then lastLeafBlockDataSize + 2 else maxBlockDataSize
    }

    function LinkCount(id: int): int {
      if id < numFullBranchBlocks then maxLinksPerBlock
      else if id == numFullBranchBlocks then numLinksInPartialBranchBlock
      else 0
    }

    /** Number of data bytes carried by block `id`. */
    function DataSize(id: int): int {
      BlockSize(id) - 2 - LINK_SIZE * LinkCount(id)
    }
  }

  function LinksPerBlock(maxBlockDataSize: int): int
    requires maxBlockDataSize > 2 + LINK_SIZE
  {
    var linksPerBlock := (maxBlockDataSize - 2) / LINK_SIZE;
    if linksPerBlock > 65535 then 65535 else linksPerBlock
  }

  function RequiredBlockCount(maxBlockDataSize: int, dataLength: nat): int
    requires maxBlockDataSize > 2 + LINK_SIZE
  {
    if dataLength <= maxBlockDataSize - 2 then 1
    else
      var n1 := dataLength - LINK_SIZE;
      var n2 := maxBlockDataSize - LINK_SIZE - 2;
      (n1 + n2 - 1) / n2
  }

  function MkSchema(maxBlockDataSize: int, dataLength: nat): BlockSchema
    requires maxBlockDataSize > 2 + LINK_SIZE
  {
    var n := RequiredBlockCount(maxBlockDataSize, dataLength);
    var k := LinksPerBlock(maxBlockDataSize);
    var full := (n - 1) / k;
    BlockSchema(
      numTotalBlocks := n,
      numFullBranchBlocks := full,
      numLinksInPartialBranchBlock := n - 1 - full * k,
      lastLeafBlockDataSize := dataLength - (maxBlockDataSize - LINK_SIZE - 2) * (n - 1),
      maxBlockDataSize := maxBlockDataSize,
      maxLinksPerBlock := k)
  }

  /** What the schema of a blob of `dataLength` bytes guarantees; everything else follows from it. */
  ghost predicate WellFormed(s: BlockSchema, dataLength: nat) {
    && s.maxBlockDataSize > 2 + LINK_SIZE
    && 1 <= s.maxLinksPerBlock <= 65535
    && LINK_SIZE * s.maxLinksPerBlock <= s.maxBlockDataSize - 2
    && 1 <= s.numTotalBlocks
    && 0 <= s.numFullBranchBlocks
    && 0 <= s.numLinksInPartialBranchBlock < s.maxLinksPerBlock
    && s.numTotalBlocks - 1 == s.numFullBranchBlocks * s.maxLinksPerBlock + s.numLinksInPartialBranchBlock
    && 0 <= s.lastLeafBlockDataSize <= s.maxBlockDataSize - 2
    && (s.numTotalBlocks > 1 ==> LINK_SIZE < s.lastLeafBlockDataSize)
    && dataLength == (s.maxBlockDataSize - LINK_SIZE - 2) * (s.numTotalBlocks - 1) + s.lastLeafBlockDataSize
  }

  lemma CeilingBounds(a: int, b: int)
    requires a > 0 && b > 0
    ensures var n := (a + b - 1) / b; n >= 1 && b * (n - 1) < a <= b * n
  {
    var n := (a + b - 1) / b;
    assert a + b - 1 == b * n + (a + b - 1) % b;
    assert b * (n - 1) == b * n - b;
    if n < 1 { MulMono(b, n, 0); }
  }

  /** The schema computed from a length is well formed: in particular the last leaf carries
      more than one link's worth of bytes whenever there is more than one block, and fits. Full
      blocks hold as many links as fit, counted in two bytes. */
  lemma SchemaWellFormed(maxBlockDataSize: int, dataLength: nat)
    requires maxBlockDataSize > 2 + LINK_SIZE
    ensures WellFormed(MkSchema(maxBlockDataSize, dataLength), dataLength)
    ensures var k := MkSchema(maxBlockDataSize, dataLength).maxLinksPerBlock;
      k == 65535 || 2 + LINK_SIZE * (k + 1) > maxBlockDataSize
  {
    hide RequiredBlockCount, LinksPerBlock;
    LastLeafFits(maxBlockDataSize, dataLength);
    var n := RequiredBlockCount(maxBlockDataSize, dataLength);
    var k := LinksPerBlock(maxBlockDataSize);
    LinksFit(maxBlockDataSize);
    QuotientBounds(n - 1, k);
  }

  lemma LastLeafFits(maxBlockDataSize: int, dataLength: nat)
    requires maxBlockDataSize > 2 + LINK_SIZE
    ensures var n := RequiredBlockCount(maxBlockDataSize, dataLength);
      var last := dataLength - (maxBlockDataSize - LINK_SIZE - 2) * (n - 1);
      n >= 1 && 0 <= last <= maxBlockDataSize - 2 && (n > 1 ==> LINK_SIZE < last)
  {
    var n, b := RequiredBlockCount(maxBlockDataSize, dataLength), maxBlockDataSize - LINK_SIZE - 2;
    if dataLength > maxBlockDataSize - 2 {
      CeilingBounds(dataLength - LINK_SIZE, b);
      assert b * n == b * (n - 1) + b;
    }
  }

  lemma LinksFit(maxBlockDataSize: int)
    requires maxBlockDataSize > 2 + LINK_SIZE
    ensures 1 <= LinksPerBlock(maxBlockDataSize) <= 65535
    ensures LINK_SIZE * LinksPerBlock(maxBlockDataSize) <= maxBlockDataSize - 2
    ensures var k := LinksPerBlock(maxBlockDataSize); k == 65535 || 2 + LINK_SIZE * (k + 1) > maxBlockDataSize
  {}

  // ----- nonlinear facts, kept apart from everything that uses them -----

  lemma MulMono(k: int, a: int, b: int)
    requires k >= 0 && a <= b
    ensures k * a <= k * b
  {}

  /** Where a multiple of `k` lies relative to `full * k + rem`, `rem < k`. */
  lemma MultipleBelow(k: int, full: int, rem: int, i: int)
    requires 0 <= rem < k
    ensures i < full ==> k * i + k <= full * k
    ensures i == full ==> k * i == full * k
    ensures i > full ==> k * i >= full * k + k
  {
    if i < full { MulMono(k, i + 1, full); }
    if i > full { MulMono(k, full + 1, i); }
  }

  lemma LastOffset(max: int, i: int)
    ensures i * (max - 2) - LINK_SIZE * i == (max - LINK_SIZE - 2) * i
  {}

  lemma QuotientBounds(a: nat, k: int)
    requires k >= 1
    ensures 0 <= a / k <= a
    ensures k * (a / k) <= a < k * (a / k) + k
  {
    assert a == k * (a / k) + a % k;
    if a / k < 0 { MulMono(k, a / k, -1); }
    MulMono(a / k, 1, k);
  }

  // ----- running totals in breadth-first order -----

  /** Links held by the blocks before block `i`. */
  function LinksBefore(s: BlockSchema, i: nat): int {
    if i == 0 then 0 else LinksBefore(s, i - 1) + s.LinkCount(i - 1)
  }

  /** Bytes of data held by the blocks before block `i`. */
  function Offset(s: BlockSchema, i: nat): int {
    if i == 0 then 0 else Offset(s, i - 1) + s.DataSize(i - 1)
  }

  /** Index of the `c`-th child of block `i`: children come right after the children of earlier blocks. */
  function Child(s: BlockSchema, i: nat, c: int): int {
    1 + LinksBefore(s, i) + c
  }

  /** The running total of links is `k * i` until all n-1 links are placed. */
  lemma {:induction false} LinksBeforeClosed(s: BlockSchema, len: nat, i: nat)
    requires WellFormed(s, len) && i <= s.numTotalBlocks
    ensures LinksBefore(s, i) ==
      (if s.maxLinksPerBlock * i < s.numTotalBlocks - 1 then s.maxLinksPerBlock * i else s.numTotalBlocks - 1)
  {
    if i > 0 {
      var k := s.maxLinksPerBlock;
      LinksBeforeClosed(s, len, i - 1);
      MultipleBelow(k, s.numFullBranchBlocks, s.numLinksInPartialBranchBlock, i - 1);
      assert k * i == k * (i - 1) + k;
    }
  }

  lemma AtLeastOneBlock(s: BlockSchema, len: nat)
    requires WellFormed(s, len)
    ensures s.numTotalBlocks >= 1
  {}

  lemma LinksBeforeBounds(s: BlockSchema, len: nat, i: nat)
    requires WellFormed(s, len) && i <= s.numTotalBlocks
    ensures 0 <= LinksBefore(s, i) < s.numTotalBlocks
    ensures i < s.numTotalBlocks ==> i <= LinksBefore(s, i)
    ensures i >= s.numTotalBlocks - 1 ==> LinksBefore(s, i) == s.numTotalBlocks - 1
  {
    LinksBeforeClosed(s, len, i);
    MulMono(i, 1, s.maxLinksPerBlock);
  }

  /** Children of block `i` are blocks of the tree with larger indices, and the last block has none. */
  lemma ChildrenInTree(s: BlockSchema, len: nat, i: nat)
    requires WellFormed(s, len) && i < s.numTotalBlocks
    ensures 0 <= s.LinkCount(i) <= 65535
    ensures forall c :: 0 <= c < s.LinkCount(i) ==> i < Child(s, i, c) < s.numTotalBlocks
    ensures i == s.numTotalBlocks - 1 ==> s.LinkCount(i) == 0
  {
    LinksBeforeBounds(s, len, i);
    LinksBeforeBounds(s, len, i + 1);
  }

  /** The children of block `i` are blocks k*i+1, k*i+2, ... */
  lemma ChildIsMultiple(s: BlockSchema, len: nat, i: nat, c: int)
    requires WellFormed(s, len) && i < s.numTotalBlocks && s.LinkCount(i) > 0
    ensures Child(s, i, c) == s.maxLinksPerBlock * i + 1 + c
  {
    LinksBeforeClosed(s, len, i);
    MultipleBelow(s.maxLinksPerBlock, s.numFullBranchBlocks, s.numLinksInPartialBranchBlock, i);
  }

  lemma DataSizeNonNegative(s: BlockSchema, len: nat, i: nat)
    requires WellFormed(s, len) && i < s.numTotalBlocks
    ensures s.DataSize(i) >= 0
  {
    ChildrenInTree(s, len, i);
  }

  lemma {:induction false} OffsetClosed(s: BlockSchema, len: nat, i: nat)
    requires WellFormed(s, len) && i < s.numTotalBlocks
    ensures Offset(s, i) == i * (s.maxBlockDataSize - 2) - LINK_SIZE * LinksBefore(s, i)
  {
    if i > 0 {
      OffsetClosed(s, len, i - 1);
      assert i * (s.maxBlockDataSize - 2) == (i - 1) * (s.maxBlockDataSize - 2) + (s.maxBlockDataSize - 2);
    }
  }

  /** All data is placed: the data sizes of the blocks add up to the length of the blob. */
  lemma OffsetTotal(s: BlockSchema, len: nat)
    requires WellFormed(s, len)
    ensures Offset(s, s.numTotalBlocks) == len
  {
    var n := s.numTotalBlocks;
    OffsetClosed(s, len, n - 1);
    LinksBeforeBounds(s, len, n - 1);
    ChildrenInTree(s, len, n - 1);
    LastOffset(s.maxBlockDataSize, n - 1);
  }

  /** Every block's slice of the data is in range. */
  lemma {:induction false} OffsetBounds(s: BlockSchema, len: nat, i: nat)
    requires WellFormed(s, len) && i <= s.numTotalBlocks
    ensures 0 <= Offset(s, i) <= len
    ensures i < s.numTotalBlocks ==> s.DataSize(i) >= 0 && Offset(s, i) + s.DataSize(i) <= len
  {
    OffsetMonotone(s, len, 0, i);
    OffsetMonotone(s, len, i, s.numTotalBlocks);
    OffsetTotal(s, len);
    if i < s.numTotalBlocks {
      DataSizeNonNegative(s, len, i);
      OffsetMonotone(s, len, i + 1, s.numTotalBlocks);
    }
  }

  lemma {:induction false} OffsetMonotone(s: BlockSchema, len: nat, i: nat, j: nat)
    requires WellFormed(s, len) && i <= j <= s.numTotalBlocks
    ensures Offset(s, i) <= Offset(s, j)
  {
    if i < j {
      OffsetMonotone(s, len, i, j - 1);
      DataSizeNonNegative(s, len, j - 1);
    }
  }

  // ----- every block but the root is the child of exactly one block -----

  function Parent(s: BlockSchema, i: int): int
    requires s.maxLinksPerBlock > 0
  {
    (i - 1) / s.maxLinksPerBlock
  }

  lemma ParentChild(s: BlockSchema, len: nat, i: nat)
    requires WellFormed(s, len) && 0 < i < s.numTotalBlocks
    ensures var p := Parent(s, i); var c := i - 1 - s.maxLinksPerBlock * p;
      && 0 <= p < i
      && 0 <= c < s.LinkCount(p)
      && Child(s, p, c) == i
  {
    var p := Parent(s, i);
    var c := i - 1 - s.maxLinksPerBlock * p;
    QuotientBounds(i - 1, s.maxLinksPerBlock);
    MultipleBelow(s.maxLinksPerBlock, s.numFullBranchBlocks, s.numLinksInPartialBranchBlock, p);
    ChildIsMultiple(s, len, p, c);
  }

  lemma ParentOf(s: BlockSchema, len: nat, i: nat) returns (p: nat, c: nat)
    requires WellFormed(s, len) && 0 < i < s.numTotalBlocks
    ensures p < i && c < s.LinkCount(p) && Child(s, p, c) == i
  {
    ParentChild(s, len, i);
    p := Parent(s, i);
    c := i - 1 - s.maxLinksPerBlock * p;
  }

  lemma {:induction false} LinksBeforeMonotone(s: BlockSchema, len: nat, i: nat, j: nat)
    requires WellFormed(s, len) && i <= j <= s.numTotalBlocks
    ensures LinksBefore(s, i) <= LinksBefore(s, j)
  {
    if i < j {
      LinksBeforeMonotone(s, len, i, j - 1);
      ChildrenInTree(s, len, j - 1);
    }
  }

  lemma ChildUnique(s: BlockSchema, len: nat, p: nat, c: int, p': nat, c': int)
    requires WellFormed(s, len) && p < s.numTotalBlocks && p' < s.numTotalBlocks
    requires 0 <= c < s.LinkCount(p) && 0 <= c' < s.LinkCount(p')
    requires Child(s, p, c) == Child(s, p', c')
    ensures p == p' && c == c'
  {
    if p < p' {
      LinksBeforeMonotone(s, len, p + 1, p');
    } else if p' < p {
      LinksBeforeMonotone(s, len, p' + 1, p);
    }
  }

  // ----- minimality -----

  /** A block of an arbitrary tree: its link count and its data length. */
  datatype Node = Node(links: nat, data: nat)

  function TotalLinks(t: seq<Node>): nat { if t == [] then 0 else t[0].links + TotalLinks(t[1..]) }

  function TotalData(t: seq<Node>): nat { if t == [] then 0 else t[0].data + TotalData(t[1..]) }

  /** Any tree of blocks within the size limit: each block but the root is the target of one link. */
  ghost predicate CarriesWithin(t: seq<Node>, maxBlockDataSize: int, dataLength: nat) {
    && |t| >= 1
    && TotalLinks(t) == |t| - 1
    && TotalData(t) == dataLength
    && forall i :: 0 <= i < |t| ==> 2 + LINK_SIZE * t[i].links + t[i].data <= maxBlockDataSize
  }

  lemma AddOne(m: int, max: int)
    ensures m * max == (m - 1) * max + max
  {}

  lemma {:induction false} NodesSize(t: seq<Node>, max: int)
    requires forall i :: 0 <= i < |t| ==> 2 + LINK_SIZE * t[i].links + t[i].data <= max
    ensures 2 * |t| + LINK_SIZE * TotalLinks(t) + TotalData(t) <= |t| * max
  {
    if t != [] {
      NodesSize(t[1..], max);
      assert 2 + LINK_SIZE * t[0].links + t[0].data <= max;
      AddOne(|t|, max);
    }
  }

  lemma SplitProduct(m: int, b: int)
    ensures m * (b + LINK_SIZE + 2) == b * m + LINK_SIZE * m + 2 * m
  {}

  /** No tree of blocks can carry the data in fewer blocks than the encoder uses. */
  lemma BlockCountIsMinimal(t: seq<Node>, maxBlockDataSize: int, dataLength: nat)
    requires maxBlockDataSize > 2 + LINK_SIZE
    requires CarriesWithin(t, maxBlockDataSize, dataLength)
    ensures RequiredBlockCount(maxBlockDataSize, dataLength) <= |t|
  {
    NodesSize(t, maxBlockDataSize);
    if dataLength > maxBlockDataSize - 2 {
      var m, b := |t|, maxBlockDataSize - LINK_SIZE - 2;
      var n := RequiredBlockCount(maxBlockDataSize, dataLength);
      CeilingBounds(dataLength - LINK_SIZE, b);
      SplitProduct(m, b);
      if m <= n - 1 { MulMono(b, m, n - 1); }
    }
  }

  /** The tree the schema describes, as a list of nodes. */
  function SchemaNodes(s: BlockSchema, len: nat, i: nat): seq<Node>
    requires WellFormed(s, len) && i <= s.numTotalBlocks
    decreases s.numTotalBlocks - i
  {
    if i == s.numTotalBlocks then []
    else
      ChildrenInTree(s, len, i);
      DataSizeNonNegative(s, len, i);
      [Node(s.LinkCount(i), s.DataSize(i))] + SchemaNodes(s, len, i + 1)
  }

  lemma BlockSizeFits(s: BlockSchema, len: nat, i: nat)
    requires WellFormed(s, len)
    ensures 2 <= s.BlockSize(i) <= s.maxBlockDataSize
  {}

  lemma {:induction false} SchemaNodesTotals(s: BlockSchema, len: nat, i: nat)
    requires WellFormed(s, len) && i <= s.numTotalBlocks
    ensures var t := SchemaNodes(s, len, i);
      && |t| == s.numTotalBlocks - i
      && TotalData(t) == len - Offset(s, i)
      && TotalLinks(t) == s.numTotalBlocks - 1 - LinksBefore(s, i)
      && forall j :: 0 <= j < |t| ==> 2 + LINK_SIZE * t[j].links + t[j].data <= s.maxBlockDataSize
    decreases s.numTotalBlocks - i
  {
    if i == s.numTotalBlocks {
      LinksBeforeBounds(s, len, i);
      OffsetTotal(s, len);
    } else {
      hide WellFormed, Child;
      SchemaNodesTotals(s, len, i + 1);
      ChildrenInTree(s, len, i);
      assert s.BlockSize(i) <= s.maxBlockDataSize by { BlockSizeFits(s, len, i); }
    }
  }

  /** The minimum is attained: the schema's own tree carries the data within the limit. */
  lemma BlockCountIsAttained(maxBlockDataSize: int, dataLength: nat)
    requires maxBlockDataSize > 2 + LINK_SIZE
    ensures exists t: seq<Node> ::
      CarriesWithin(t, maxBlockDataSize, dataLength) && |t| == RequiredBlockCount(maxBlockDataSize, dataLength)
  {
    var s := MkSchema(maxBlockDataSize, dataLength);
    SchemaWellFormed(maxBlockDataSize, dataLength);
    var t := SchemaNodes(s, dataLength, 0);
    SchemaNodesTotals(s, dataLength, 0);
    assert CarriesWithin(t, maxBlockDataSize, dataLength);
  }
}
