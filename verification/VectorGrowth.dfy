/** The capacity of the vector that a piece is assembled in, block by block. */
module VectorGrowth {
  import opened Basics
  import opened PeerWire

  /** How a vector grows: the capacity of a new allocation, given the capacity and the size before and
      the size wanted. */
  type Growth = (nat, nat, nat) -> nat

  /** The capacity of a vector after so many blocks. */
  function CapAfter(growth: Growth, blocks: nat): nat {
    if blocks == 0 then 0
    else
      var before := CapAfter(growth, blocks - 1);
      if MAX_BLOCK_SIZE * blocks <= before then before
      else growth(before, MAX_BLOCK_SIZE * (blocks - 1), MAX_BLOCK_SIZE * blocks)
  }

  /** A vector that grows only as far as it has to. */
  function ExactGrowth(): Growth {
    (capacity, size, wanted) => wanted
  }

  lemma {:induction false} ExactCapacity(blocks: nat)
    ensures CapAfter(ExactGrowth(), blocks) == MAX_BLOCK_SIZE * blocks
  {
    if blocks == 0 {
    } else {
      ExactCapacity(blocks - 1);
    }
  }

  /** A vector that at least doubles its size whenever it grows. */
  function DoublingGrowth(): Growth {
    (capacity, size, wanted) => if wanted <= 2 * size then 2 * size else wanted
  }

  lemma {:induction false} Pow2Doubles(i: nat, j: nat)
    requires i < j
    ensures 2 * Pow2(i) <= Pow2(j)
    decreases j
  {
    if i == j - 1 {
    } else {
      Pow2Doubles(i, j - 1);
    }
  }

  /** A doubling vector holds the least power of two of blocks that is enough. */
  lemma {:induction false} DoublingCapacity(blocks: nat) returns (j: nat)
    requires blocks > 0
    ensures CapAfter(DoublingGrowth(), blocks) == MAX_BLOCK_SIZE * Pow2(j)
    ensures blocks <= Pow2(j) < 2 * blocks
  {
    if blocks == 1 {
      j := 0;
      assert CapAfter(DoublingGrowth(), 0) == 0;
    } else {
      j := DoublingCapacity(blocks - 1);
      if Pow2(j) < blocks {
        j := j + 1;
      }
    }
  }

  /** With vectors that double, the blocks of a piece end up in an allocation of their own size exactly
      if their number is a power of two. */
  lemma DoublingFitsPowersOfTwo(blocks: nat)
    requires blocks > 0
    ensures CapAfter(DoublingGrowth(), blocks) == MAX_BLOCK_SIZE * blocks <==> exists j :: blocks == Pow2(j)
  {
    var j := DoublingCapacity(blocks);
    if i: nat :| blocks == Pow2(i) {
      if i < j {
        Pow2Doubles(i, j);
      } else if j < i {
        Pow2Doubles(j, i);
      }
    }
  }

  /** Three blocks end up in the room of four. */
  lemma ThreeBlocks()
    ensures CapAfter(DoublingGrowth(), 3) == 4 * MAX_BLOCK_SIZE
  {
    assert CapAfter(DoublingGrowth(), 1) == MAX_BLOCK_SIZE;
    assert CapAfter(DoublingGrowth(), 2) == 2 * MAX_BLOCK_SIZE;
  }
}
