/** The precomputed table of left-most node indices, one per depth of a block tree, and the
    lookup of a node's first child in it. */
module DepthIndices {
  import opened Schema

  datatype Depths = Depths(indices: seq<int>, linksPerBlock: int)

  /** `di` lists 0, 1, k + 1, k^2 + k + 1, ...: each left-most node is the first child of the one
      above it, and the table reaches past the last node of a tree of `maxTotalBlocks` blocks. */
  ghost predicate IsTable(di: Depths, k: int, maxTotalBlocks: int) {
    && k >= 1
    && di.linksPerBlock == k
    && |di.indices| >= 1
    && di.indices[0] == 0
    && (forall d :: 0 < d < |di.indices| ==> di.indices[d] == k * di.indices[d - 1] + 1)
    && k * di.indices[|di.indices| - 1] + 1 >= maxTotalBlocks
  }

  method MkDepthIndices(linksPerBlock: int, maxTotalBlocks: int) returns (di: Depths)
    requires linksPerBlock >= 1
    ensures IsTable(di, linksPerBlock, maxTotalBlocks)
    ensures forall d :: 0 < d < |di.indices| ==> di.indices[d] < maxTotalBlocks
  {
    var res := [0];
    var val := 1;
    while res[|res| - 1] + val < maxTotalBlocks
      invariant |res| >= 1 && res[0] == 0
      invariant forall d :: 0 <= d < |res| ==> res[d] >= 0
      invariant forall d :: 0 < d < |res| ==> res[d] == linksPerBlock * res[d - 1] + 1
      invariant forall d :: 0 < d < |res| ==> res[d] < maxTotalBlocks
      invariant val >= 1
      invariant res[|res| - 1] + val == linksPerBlock * res[|res| - 1] + 1
      decreases maxTotalBlocks - res[|res| - 1]
    {
      ghost var last := res[|res| - 1];
      res := res + [res[|res| - 1] + val];
      NextWidth(linksPerBlock, last, val);
      val := val * linksPerBlock;
    }
    di := Depths(res, linksPerBlock);
  }

  lemma NextWidth(k: int, last: int, val: int)
    requires k >= 1 && val >= 1
    requires last + val == k * last + 1
    ensures val * k >= 1
    ensures (last + val) + val * k == k * (last + val) + 1
  {
    assert k * (last + val) == k * last + k * val;
  }

  /** Least position whose entry exceeds `id`, or the length if there is none. */
  function Search(ixs: seq<int>, id: int): (depth: nat)
    ensures depth <= |ixs|
    ensures forall d :: 0 <= d < depth ==> ixs[d] <= id
    ensures depth < |ixs| ==> ixs[depth] > id
  {
    if ixs == [] || ixs[0] > id then 0 else 1 + Search(ixs[1..], id)
  }

  function FirstChildId(di: Depths, id: int): int {
    var depth := Search(di.indices, id);
    if depth >= |di.indices| || depth == 0 then -1
    else di.indices[depth] + (id - di.indices[depth - 1]) * di.linksPerBlock
  }

  lemma {:induction false} TableIncreasing(di: Depths, k: int, max: int, d: nat)
    requires IsTable(di, k, max) && d < |di.indices|
    ensures di.indices[d] >= 0
    ensures d + 1 < |di.indices| ==> di.indices[d] < di.indices[d + 1]
  {
    if d > 0 {
      TableIncreasing(di, k, max, d - 1);
    }
    Product(k, di.indices[d]);
  }

  lemma Product(k: int, x: int)
    requires k >= 1 && x >= 0
    ensures x <= k * x
  {}

  lemma {:induction false} TableSorted(di: Depths, k: int, max: int, d: nat, e: nat)
    requires IsTable(di, k, max) && d < e < |di.indices|
    ensures di.indices[d] < di.indices[e]
  {
    TableIncreasing(di, k, max, e - 1);
    if d < e - 1 {
      TableSorted(di, k, max, d, e - 1);
    }
  }

  /** The table lookup is `k * id + 1` below the last tabulated node and -1 from there on; a node
      whose first child lies in a tree of at most `maxTotalBlocks` blocks is always below it. */
  lemma FirstChildIdCorrect(di: Depths, k: int, maxTotalBlocks: int, id: nat)
    requires IsTable(di, k, maxTotalBlocks)
    ensures FirstChildId(di, id) == (if id < di.indices[|di.indices| - 1] then k * id + 1 else -1)
    ensures k * id + 1 < maxTotalBlocks ==> id < di.indices[|di.indices| - 1]
  {
    var ixs := di.indices;
    var last := |ixs| - 1;
    var depth := Search(ixs, id);
    if depth < |ixs| && depth < last { TableSorted(di, k, maxTotalBlocks, depth, last); }
    if 0 < depth < |ixs| {
      ShiftedChild(k, ixs[depth - 1], id);
    }
    if id >= ixs[last] { MulMono(k, ixs[last], id); }
  }

  lemma ShiftedChild(k: int, a: int, id: int)
    ensures k * a + 1 + (id - a) * k == k * id + 1
  {}
}
