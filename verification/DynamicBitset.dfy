/** The class `dynamic_bitset`: bytes of its own, or bytes of someone else that it writes in place. */
module DynamicBitset {
  import opened Basics
  import opened Bits

  class DynamicBitset {
    var bytes: array<bv8>
    var alternateBytes: array?<bv8>
    var bytesSize: nat
    var bitsSize: nat

    /** `data` and `const_data` */
    function Data(): array<bv8>
      reads this
    {
      if alternateBytes != null then alternateBytes else bytes
    }

    ghost predicate Valid()
      reads this, Data()
    {
      bitsSize == 8 * bytesSize && bytesSize <= Data().Length
    }

    /** The bytes that count. */
    ghost function Contents(): seq<bv8>
      reads this, Data()
      requires Valid()
    {
      Data()[..bytesSize]
    }

    constructor ()
      ensures Valid() && Contents() == [] && fresh(bytes) && alternateBytes == null
    {
      bytes, alternateBytes := new bv8[0], null;
      bytesSize, bitsSize := 0, 0;
    }

    method Boundary(bit: nat) returns (r: bool)
      requires Valid()
      ensures r <==> bit < 8 * |Contents()|
    {
      if bit >= bitsSize {
        return false;
      }
      return true;
    }

    /** Sets one bit of the set of indices, in place, and reports whether the index was in range. */
    method BitSet(bit: nat) returns (r: bool)
      requires Valid()
      modifies Data()
      ensures Valid() && r == (bit < 8 * |Contents()|)
      ensures Contents() == WithBit(old(Contents()), bit)
      ensures Members(Contents()) == old(Members(Contents())) + if r then {bit} else {}
      ensures Data()[bytesSize..] == old(Data()[bytesSize..])
    {
      WithBitAdds(Contents(), bit);
      var inside := Boundary(bit);
      if !inside {
        return false;
      }
      var d := Data();
      d[bit / 8] := d[bit / 8] | Mask(bit % 8);
      assert Contents() == WithBit(old(Contents()), bit);
      return true;
    }

    method BitClear(bit: nat) returns (r: bool)
      requires Valid()
      modifies Data()
      ensures Valid() && r == (bit < 8 * |Contents()|)
      ensures Contents() == WithoutBit(old(Contents()), bit)
      ensures Members(Contents()) == old(Members(Contents())) - {bit}
      ensures Data()[bytesSize..] == old(Data()[bytesSize..])
    {
      WithoutBitRemoves(Contents(), bit);
      var inside := Boundary(bit);
      if !inside {
        return false;
      }
      var d := Data();
      d[bit / 8] := d[bit / 8] & !Mask(bit % 8);
      assert Contents() == WithoutBit(old(Contents()), bit);
      return true;
    }

    method BitGet(bit: nat) returns (r: bool)
      requires Valid()
      ensures r <==> bit in Members(Contents())
    {
      var inside := Boundary(bit);
      if !inside {
        return false;
      }
      return Data()[bit / 8] & Mask(bit % 8) != 0;
    }

    /** New bytes, not initialised: they hold what the memory held before.  While foreign bytes are
        in use they stay in use, so they must be long enough for the new size. */
    method Resize(size: nat, memory: seq<bv8>)
      requires alternateBytes != null ==> size <= alternateBytes.Length
      modifies this
      ensures Valid() && |Contents()| == size
      ensures alternateBytes == old(alternateBytes) && fresh(bytes)
      ensures alternateBytes == null ==> Contents() == Sized(memory, size)
    {
      bytesSize, bitsSize := size, 8 * size;
      ghost var held := Sized(memory, size);
      bytes := new bv8[size](i requires 0 <= i => if i < |memory| then memory[i] else 0);
      assert bytes[..] == held;
    }

    /** Bytes written through `data` from its start, as a receive does. */
    method Store(source: seq<bv8>)
      requires Valid() && |source| <= bytesSize
      modifies Data()
      ensures Valid() && Contents() == source + old(Contents()[|source|..])
    {
      var d := Data();
      var i := 0;
      while i < |source|
        invariant 0 <= i <= |source|
        invariant forall k :: 0 <= k < i ==> d[k] == source[k]
        invariant forall k :: i <= k < d.Length ==> d[k] == old(d[k])
      {
        d[i] := source[i];
        i := i + 1;
      }
    }

    /** From now on the bytes of `source` are read and written. */
    method FromExistingBuffer(source: array<bv8>, size: nat)
      requires size <= source.Length
      modifies this
      ensures Valid() && Data() == source && Contents() == source[..size]
    {
      alternateBytes := source;
      bytesSize, bitsSize := size, 8 * size;
    }

    /** The loop over the bytes: passes over `skips` mismatched bytes, or all but the last. */
    method FindMismatch(other: DynamicBitset, skips: nat) returns (position: Option<nat>)
      requires Valid() && other.Valid()
      ensures position == Inspected(Contents(), other.Contents(), skips)
    {
      ghost var ours, theirs := Contents(), other.Contents();
      var size := if bytesSize <= other.bytesSize then bytesSize else other.bytesSize;
      position := None;
      var left := skips;
      var i := 0;
      while i < size
        invariant 0 <= i <= size
        invariant |Mismatches(ours, theirs, i)| + left == skips
        invariant position == LastOf(Mismatches(ours, theirs, i))
      {
        assert ours[i] == Data()[i] && theirs[i] == other.Data()[i];
        if other.Data()[i] != Data()[i] {
          position := Some(i);
          if left == 0 {
            NthMismatch(ours, theirs, i, size);
            return;
          }
          left := left - 1;
        }
        i := i + 1;
      }
    }

    /** The search.  `skips` is the random number of mismatched bytes to pass over. */
    method FindPositiveBitCompliment(other: DynamicBitset, skips: nat) returns (found: Option<nat>)
      requires Valid() && other.Valid()
      ensures found == Search(Contents(), other.Contents(), skips)
    {
      hide Has, Mask, Mismatches, Inspected, Bits.BitGet;
      found := None;
      var position := FindMismatch(other, skips);
      if position.None? {
        return;
      }
      ghost var ours, theirs := Contents(), other.Contents();
      var first := 8 * position.value;
      var i := 0;
      while i < 8
        invariant 0 <= i <= 8
        invariant LeastWanted(ours, theirs, first, first + 8) == LeastWanted(ours, theirs, first + i, first + 8)
      {
        var theirBit := other.BitGet(first + i);
        var ourBit := this.BitGet(first + i);
        if theirBit && !ourBit {
          found := Some(first + i);
          return;
        }
        i := i + 1;
      }
    }
  }

  function LastOf(s: seq<nat>): Option<nat> {
    if s == [] then None else Some(s[|s| - 1])
  }

  /** A mismatched byte stands in the list behind those before it. */
  lemma {:induction false} NthMismatch(ours: seq<bv8>, theirs: seq<bv8>, i: nat, n: nat)
    requires i < n <= Common(ours, theirs) && ours[i] != theirs[i]
    ensures var k, ms := |Mismatches(ours, theirs, i)|, Mismatches(ours, theirs, n);
            k < |ms| && ms[k] == i
    decreases n
  {
    if i + 1 >= n {
    } else {
      NthMismatch(ours, theirs, i, n - 1);
    }
  }
}
