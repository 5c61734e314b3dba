/** The shared pool every topic draws its payload memory from. */
module MemoryPool {
  import opened Words
  import opened Outcomes
  import opened PoolLayout

  /** `memcpy` to position `at` of an array. */
  method MemCpy(dst: array<byte>, at: nat, bytes: seq<byte>)
    requires at + |bytes| <= dst.Length
    modifies dst
    ensures dst[..] == old(dst[..at]) + bytes + old(dst[at + |bytes|..])
  {
    forall i | 0 <= i < |bytes| {
      dst[at + i] := bytes[i];
    }
  }

  class MemoryPool {
    var headOffset: u32
    const data: array<byte>
    /** Where the data area is mapped; pointers are addresses. */
    const base: nat
    /** Every allocation so far, oldest first. */
    ghost var blocks: seq<Block>

    ghost predicate Valid()
      reads this
    {
      data.Length == POOL_SIZE && Chain(blocks) && headOffset == Head(blocks)
    }

    constructor (base: nat)
      ensures Valid() && fresh(data) && blocks == [] && this.base == base
    {
      data := new byte[POOL_SIZE](i => 0);
      headOffset := 0;
      blocks := [];
      this.base := base;
    }

    /** Hands out the next block. Together with `Valid()` the history fixes the
        offset: it is where the previous block ended, or 0 if the tail is too short. */
    method Allocate(size: nat) returns (r: Result<u32>)
      requires Valid()
      modifies this`headOffset, this`blocks
      ensures Valid()
      ensures r.Ok? <==> size <= POOL_SIZE
      ensures r.Thrown? ==> blocks == old(blocks) && headOffset == old(headOffset)
      ensures r.Ok? ==> blocks == old(blocks) + [Block(r.value, RoundUp8(size))]
    {
      if size > POOL_SIZE {
        return Thrown("Requested size exceeds pool capacity!");
      }
      var rounded := RoundUp8(size);
      var offset := headOffset;
      if offset + rounded > POOL_SIZE {
        offset := 0;
      }
      headOffset := offset + rounded;
      ChainGrows(blocks, rounded);
      blocks := blocks + [Block(offset, rounded)];
      return Ok(offset);
    }

    function GetPointer(offset: u32): int {
      base + offset
    }

    function GetOffset(ptr: int): (r: Result<u32>) {
      if ptr < base || ptr >= base + POOL_SIZE then
        Thrown("Zero-Copy Publish Error: Pointer is not from MemoryPool!")
      else
        var offset: u32 := ptr - base;
        Ok(offset)
    }

    /** The pointer of an allocation finds its way back to the offset, except that of
        an empty allocation made with the cursor at the very end of the pool. */
    lemma LoanedPointerRoundTrip(history: seq<Block>, size: nat)
      requires Chain(history) && size <= POOL_SIZE
      ensures var b := Place(Head(history), RoundUp8(size));
              GetOffset(GetPointer(b.offset)) == Ok(b.offset) <==> size > 0 || Head(history) < POOL_SIZE
    {
      ChainGrows(history, RoundUp8(size));
    }
  }
}
