/** Where the shared pool puts its blocks, and for how long a block stays intact.

    The pool is a bump allocator: a block starts where the previous one ended, or
    at 0 when the tail is too short. Nothing is freed, so a block lives until the
    cursor comes round to it again. This module computes exactly when that is. */
module PoolLayout {
  const POOL_SIZE: nat := 104857600

  datatype Block = Block(offset: nat, size: nat) {
    function End(): nat {
      offset + size
    }

    predicate Disjoint(b: Block) {
      End() <= b.offset || b.End() <= offset
    }

    predicate InPool() {
      offset % 8 == 0 && size % 8 == 0 && End() <= POOL_SIZE
    }
  }

  /** A request rounded up to the next multiple of eight. */
  function RoundUp8(n: nat): (r: nat)
    ensures r % 8 == 0 && n <= r < n + 8
    ensures n <= POOL_SIZE ==> r <= POOL_SIZE
  {
    (n + 7) / 8 * 8
  }

  /** The block given to a request of `size` bytes when the cursor stands at `head`. */
  function Place(head: nat, size: nat): Block {
    Block(if head + size > POOL_SIZE then 0 else head, size)
  }

  lemma AlignedGap(x: nat, y: nat)
    requires x % 8 == y % 8 == 0 && y < x
    ensures y + 8 <= x
  {
  }

  lemma AlignedSum(x: nat, y: nat)
    requires x % 8 == y % 8 == 0
    ensures (x + y) % 8 == 0
  {
  }

  predicate Cursor(head: nat) {
    head % 8 == 0 && head <= POOL_SIZE
  }

  predicate Sizes(sizes: seq<nat>) {
    forall i :: 0 <= i < |sizes| ==> sizes[i] % 8 == 0 && sizes[i] <= POOL_SIZE
  }

  /** The blocks handed out, in order, for requests of the given sizes. */
  function Layout(head: nat, sizes: seq<nat>): (blocks: seq<Block>)
    ensures |blocks| == |sizes|
    decreases sizes
  {
    if sizes == [] then []
    else var b := Place(head, sizes[0]); [b] + Layout(b.End(), sizes[1..])
  }

  function Sum(sizes: seq<nat>): nat {
    if sizes == [] then 0 else sizes[0] + Sum(sizes[1..])
  }

  function Max(sizes: seq<nat>): nat {
    if sizes == [] then 0
    else var m := Max(sizes[1..]); if sizes[0] > m then sizes[0] else m
  }

  /** How often the cursor jumps back to 0. */
  function Wraps(head: nat, sizes: seq<nat>): nat
    decreases sizes
  {
    if sizes == [] then 0
    else
      (if head + sizes[0] > POOL_SIZE then 1 else 0) + Wraps(Place(head, sizes[0]).End(), sizes[1..])
  }

  /** No block of the run from `head` touches `b`. */
  ghost predicate Clear(b: Block, head: nat, sizes: seq<nat>) {
    forall i :: 0 <= i < |sizes| ==> b.Disjoint(Layout(head, sizes)[i])
  }

  lemma ClearStep(b: Block, head: nat, sizes: seq<nat>)
    requires sizes != []
    ensures var p := Place(head, sizes[0]);
            Clear(b, head, sizes) <==> b.Disjoint(p) && Clear(b, p.End(), sizes[1..])
  {
    var p := Place(head, sizes[0]);
    var all, rest := Layout(head, sizes), Layout(p.End(), sizes[1..]);
    assert all[0] == p;
    assert forall i :: 0 <= i < |rest| ==> rest[i] == all[i + 1];
    assert forall i :: 0 < i < |all| ==> all[i] == rest[i - 1];
  }

  lemma {:induction false} MaxSplit(sizes: seq<nat>, w: nat)
    requires w < |sizes|
    ensures Sum(sizes) == Sum(sizes[..w]) + sizes[w] + Sum(sizes[w + 1..])
    ensures Max(sizes[w + 1..]) <= Max(sizes) && sizes[w] <= Max(sizes)
  {
    if w > 0 {
      MaxSplit(sizes[1..], w - 1);
      assert sizes[..w][1..] == sizes[1..][..w - 1];
      assert sizes[1..][w..] == sizes[w + 1..];
    }
  }

  lemma {:induction false} MaxIsReached(sizes: seq<nat>) returns (w: nat)
    requires Max(sizes) > 0
    ensures w < |sizes| && sizes[w] == Max(sizes)
  {
    if sizes[0] == Max(sizes) {
      w := 0;
    } else {
      w := MaxIsReached(sizes[1..]);
      w := w + 1;
    }
  }

  // ----- enough room: nothing touches the block -----

  /** After the wrap: everything still to come fits below the block. */
  lemma {:induction false} StaysBelow(b: Block, head: nat, sizes: seq<nat>)
    requires b.InPool() && head + Sum(sizes) <= b.offset
    ensures Clear(b, head, sizes) && Wraps(head, sizes) == 0
    decreases sizes
  {
    if sizes != [] {
      ClearStep(b, head, sizes);
      StaysBelow(b, head + sizes[0], sizes[1..]);
    }
  }

  /** Before the wrap: the cursor is above the block and the budget is not spent. */
  lemma {:induction false} StaysAbove(b: Block, head: nat, sizes: seq<nat>)
    requires b.InPool() && Sizes(sizes) && Cursor(head) && b.End() <= head
    requires head + Sum(sizes) + Max(sizes) <= POOL_SIZE + 8 + b.offset
    ensures Clear(b, head, sizes) && Wraps(head, sizes) <= 1
    decreases sizes
  {
    if sizes != [] {
      ClearStep(b, head, sizes);
      AlignedSum(head, sizes[0]);
      if head + sizes[0] <= POOL_SIZE {
        StaysAbove(b, head + sizes[0], sizes[1..]);
      } else {
        AlignedGap(head + sizes[0], POOL_SIZE);
        StaysBelow(b, sizes[0], sizes[1..]);
      }
    }
  }

  // ----- too little room: some placement is hit -----

  /** After the wrap, with too much still to come, the cursor climbs into the block. */
  lemma {:induction false} ClimbsInto(b: Block, head: nat, sizes: seq<nat>)
    requires b.size > 0 && head <= b.offset < head + Sum(sizes)
    requires b.offset + Max(sizes) <= POOL_SIZE
    ensures !Clear(b, head, sizes)
    decreases sizes
  {
    ClearStep(b, head, sizes);
    if head + sizes[0] <= b.offset {
      ClimbsInto(b, head + sizes[0], sizes[1..]);
    }
  }

  /** A run that does not fit in the tail wraps onto a block at 0. */
  lemma {:induction false} WrapsOntoZero(b: Block, head: nat, sizes: seq<nat>)
    requires b.offset == 0 && b.size > 0 && head <= POOL_SIZE < head + Sum(sizes)
    ensures !Clear(b, head, sizes)
    decreases sizes
  {
    ClearStep(b, head, sizes);
    if head + sizes[0] <= POOL_SIZE {
      WrapsOntoZero(b, head + sizes[0], sizes[1..]);
    }
  }

  /** Request `w` is the first that misses the tail, by the smallest step there is. */
  lemma {:induction false} WrapAt(b: Block, head: nat, sizes: seq<nat>, w: nat)
    requires b.size > 0 && w < |sizes|
    requires head + Sum(sizes[..w]) + sizes[w] == POOL_SIZE + 8 && sizes[w] >= 8
    requires b.offset < sizes[w] + Sum(sizes[w + 1..])
    requires b.offset + Max(sizes[w + 1..]) <= POOL_SIZE
    ensures !Clear(b, head, sizes)
    decreases sizes
  {
    ClearStep(b, head, sizes);
    if w > 0 {
      assert sizes[..w][1..] == sizes[1..][..w - 1];
      assert sizes[1..][w..] == sizes[w + 1..];
      WrapAt(b, head + sizes[0], sizes[1..], w - 1);
    } else if sizes[0] <= b.offset {
      ClimbsInto(b, sizes[0], sizes[1..]);
    }
  }

  lemma OverBudgetByAStep(size: nat, sizes: seq<nat>, w: nat)
    requires size % 8 == 0 && Sizes(sizes) && w < |sizes|
    requires size + Sum(sizes) + sizes[w] > POOL_SIZE + 8
    ensures size + Sum(sizes) + sizes[w] >= POOL_SIZE + 16
    ensures (size + Sum(sizes[..w]) + sizes[w]) % 8 == 0
  {
    SumAligned(sizes);
    AlignedSum(size, Sum(sizes));
    AlignedSum(size + Sum(sizes), sizes[w]);
    AlignedGap(size + Sum(sizes) + sizes[w], POOL_SIZE + 8);
    SumAligned(sizes[..w]);
    AlignedSum(size, Sum(sizes[..w]));
    AlignedSum(size + Sum(sizes[..w]), sizes[w]);
  }

  /** Where a block must sit to be hit when the budget is exceeded. */
  lemma UnluckyOffset(size: nat, sizes: seq<nat>) returns (b: Block)
    requires 0 < size <= POOL_SIZE && size % 8 == 0 && Sizes(sizes)
    requires size + Sum(sizes) + Max(sizes) > POOL_SIZE + 8
    ensures b.size == size && b.InPool() && !Clear(b, b.End(), sizes)
  {
    hide Sum, Max, Clear;
    ZeroMax(sizes);
    var w := MaxIsReached(sizes);
    MaxSplit(sizes, w);
    OverBudgetByAStep(size, sizes, w);
    var used := size + Sum(sizes[..w]) + sizes[w];
    if used > POOL_SIZE + 8 {
      b := Block(0, size);
      WrapsOntoZero(b, size, sizes);
    } else {
      b := Block(POOL_SIZE + 8 - used, size);
      WrapAt(b, b.End(), sizes, w);
    }
  }

  lemma {:induction false} ZeroMax(sizes: seq<nat>)
    ensures Max(sizes) == 0 ==> Sum(sizes) == 0
  {
    if sizes != [] {
      ZeroMax(sizes[1..]);
    }
  }

  lemma {:induction false} SumAligned(sizes: seq<nat>)
    requires Sizes(sizes)
    ensures Sum(sizes) % 8 == 0
  {
    if sizes != [] {
      SumAligned(sizes[1..]);
      AlignedSum(sizes[0], Sum(sizes[1..]));
    }
  }

  /** The budget within which a block of `size` bytes outlives the requests `sizes`. */
  predicate InBudget(size: nat, sizes: seq<nat>) {
    size + Sum(sizes) + Max(sizes) <= POOL_SIZE + 8
  }

  /** The survival window, exactly: a block is untouched by the requests that follow
      it, wherever the cursor stood when it was given out, if and only if all sizes
      together plus the largest later one stay within the pool and one step. */
  lemma SurvivalWindow(size: nat, sizes: seq<nat>)
    requires 0 < size <= POOL_SIZE && size % 8 == 0 && Sizes(sizes)
    ensures InBudget(size, sizes)
       <==> forall b: Block | b.size == size && b.InPool() :: Clear(b, b.End(), sizes)
    ensures InBudget(size, sizes)
        ==> forall b: Block | b.size == size && b.InPool() :: Wraps(b.End(), sizes) <= 1
  {
    if InBudget(size, sizes) {
      forall b: Block | b.size == size && b.InPool()
        ensures Clear(b, b.End(), sizes) && Wraps(b.End(), sizes) <= 1
      {
        StaysAbove(b, b.End(), sizes);
      }
    } else {
      var b := UnluckyOffset(size, sizes);
      assert !Clear(b, b.End(), sizes);
    }
  }

  // ----- the allocation history, which grows at its end -----

  function Head(blocks: seq<Block>): nat {
    if blocks == [] then 0 else blocks[|blocks| - 1].End()
  }

  /** Block `i` was given out where the block before it left the cursor. */
  ghost predicate Placed(blocks: seq<Block>, i: nat)
    requires i < |blocks|
  {
    blocks[i] == Place(Head(blocks[..i]), blocks[i].size)
  }

  /** `blocks` is what an initially empty pool hands out for some requests. */
  ghost predicate Chain(blocks: seq<Block>) {
    && (forall i :: 0 <= i < |blocks| ==> blocks[i].InPool())
    && (forall i: nat :: i < |blocks| ==> Placed(blocks, i))
  }

  function SizesOf(blocks: seq<Block>): (sizes: seq<nat>)
    ensures |sizes| == |blocks|
  {
    seq(|blocks|, i requires 0 <= i < |blocks| => blocks[i].size)
  }

  /** Block `j` has not been given out again. */
  ghost predicate Live(blocks: seq<Block>, j: nat)
    requires j < |blocks|
  {
    forall i :: j < i < |blocks| ==> blocks[j].Disjoint(blocks[i])
  }

  lemma ChainGrows(blocks: seq<Block>, size: nat)
    requires Chain(blocks) && size % 8 == 0 && size <= POOL_SIZE
    ensures Chain(blocks + [Place(Head(blocks), size)])
    ensures Cursor(Head(blocks))
  {
    var b := Place(Head(blocks), size);
    var more := blocks + [b];
    forall i: nat | i < |more|
      ensures Placed(more, i)
    {
      assert more[..i] == blocks[..i];
      assert blocks[..|blocks|] == blocks;
      assert i < |blocks| ==> Placed(blocks, i);
    }
  }

  /** A tail of the history is the layout of its own sizes. */
  lemma {:induction false} ChainTail(blocks: seq<Block>, k: nat)
    requires Chain(blocks) && k <= |blocks|
    ensures Layout(Head(blocks[..k]), SizesOf(blocks[k..])) == blocks[k..]
    decreases |blocks| - k
  {
    if k < |blocks| {
      ChainTail(blocks, k + 1);
      assert Placed(blocks, k);
      assert SizesOf(blocks[k..])[1..] == SizesOf(blocks[k + 1..]);
      assert blocks[k..] == [blocks[k]] + blocks[k + 1..];
      assert blocks[..k + 1][|blocks[..k + 1]| - 1] == blocks[k];
    }
  }

  /** Within its budget, a block of a real history is live. */
  lemma BudgetMeansLive(blocks: seq<Block>, j: nat)
    requires Chain(blocks) && j < |blocks| && blocks[j].size > 0
    requires InBudget(blocks[j].size, SizesOf(blocks[j + 1..]))
    ensures Live(blocks, j)
  {
    var sizes := SizesOf(blocks[j + 1..]);
    SurvivalWindow(blocks[j].size, sizes);
    ChainTail(blocks, j + 1);
    assert blocks[..j + 1][|blocks[..j + 1]| - 1] == blocks[j];
    forall i | j < i < |blocks|
      ensures blocks[j].Disjoint(blocks[i])
    {
      assert blocks[i] == Layout(blocks[j].End(), sizes)[i - j - 1];
    }
  }

  lemma {:induction false} LayoutChains(blocks: seq<Block>, sizes: seq<nat>)
    requires Chain(blocks) && Sizes(sizes)
    ensures Chain(blocks + Layout(Head(blocks), sizes))
    decreases sizes
  {
    if sizes == [] {
      assert blocks + Layout(Head(blocks), sizes) == blocks;
    } else {
      var b := Place(Head(blocks), sizes[0]);
      ChainGrows(blocks, sizes[0]);
      assert Head(blocks + [b]) == b.End();
      LayoutChains(blocks + [b], sizes[1..]);
      var rest := Layout(b.End(), sizes[1..]);
      assert Layout(Head(blocks), sizes) == [b] + rest;
      assert blocks + [b] + rest == blocks + ([b] + rest);
    }
  }

  /** `blocks` is a history in which allocation `j` had `size` bytes and was followed
      by allocations of the given sizes. */
  ghost predicate Occurs(blocks: seq<Block>, j: nat, size: nat, sizes: seq<nat>) {
    Chain(blocks) && j < |blocks| && blocks[j].size == size && SizesOf(blocks[j + 1..]) == sizes
  }

  lemma {:induction false} SizesOfLayout(head: nat, sizes: seq<nat>)
    ensures SizesOf(Layout(head, sizes)) == sizes
    decreases sizes
  {
    if sizes != [] {
      var b := Place(head, sizes[0]);
      SizesOfLayout(b.End(), sizes[1..]);
      var all, rest := SizesOf(Layout(head, sizes)), SizesOf(Layout(b.End(), sizes[1..]));
      assert forall i :: 0 < i < |sizes| ==> all[i] == rest[i - 1] == sizes[i];
    }
  }

  /** A history in which a block outside its budget has been given out again. */
  lemma LostInHistory(size: nat, sizes: seq<nat>) returns (blocks: seq<Block>, j: nat)
    requires 0 < size <= POOL_SIZE && size % 8 == 0 && Sizes(sizes)
    requires !InBudget(size, sizes)
    ensures Occurs(blocks, j, size, sizes) && !Live(blocks, j)
  {
    var b := UnluckyOffset(size, sizes);
    var before: seq<Block> := if b.offset == 0 then [] else [Block(0, b.offset)];
    var after := Layout(b.End(), sizes);
    j := |before|;
    blocks := before + [b] + after;
    assert Head(before) == b.offset;
    assert b == Place(Head(before), size);
    ChainGrows(before, size);
    assert Head(before + [b]) == b.End();
    LayoutChains(before + [b], sizes);
    SizesOfLayout(b.End(), sizes);
    assert blocks[j] == b && blocks[j + 1..] == after;
    var i :| 0 <= i < |sizes| && !b.Disjoint(after[i]);
    assert blocks[j + 1 + i] == after[i];
  }

  /** The survival window on real histories: the budget decides, exactly, whether a
      block is still live after the allocations that followed it. */
  lemma BudgetIsTight(size: nat, sizes: seq<nat>)
    requires 0 < size <= POOL_SIZE && size % 8 == 0 && Sizes(sizes)
    ensures InBudget(size, sizes)
       <==> forall blocks: seq<Block>, j: nat | Occurs(blocks, j, size, sizes) :: Live(blocks, j)
  {
    if InBudget(size, sizes) {
      forall blocks: seq<Block>, j: nat | Occurs(blocks, j, size, sizes)
        ensures Live(blocks, j)
      {
        BudgetMeansLive(blocks, j);
      }
    } else {
      var blocks, j := LostInHistory(size, sizes);
      assert Occurs(blocks, j, size, sizes) && !Live(blocks, j);
    }
  }
}
