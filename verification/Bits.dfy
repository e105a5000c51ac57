/** Bytes as sets of bit indices, low bit first, and the search for a bit that one side misses. */
module Bits {
  import opened Basics

  function Mask(k: nat): bv8
    requires k < 8
  {
    1 << k
  }

  lemma MaskValues()
    ensures Mask(0) == 1 && Mask(1) == 2 && Mask(2) == 4 && Mask(3) == 8
    ensures Mask(4) == 16 && Mask(5) == 32 && Mask(6) == 64 && Mask(7) == 128
  {
  }

  lemma MaskCases(k: nat)
    requires k < 8
    ensures Mask(k) in {1, 2, 4, 8, 16, 32, 64, 128}
    ensures forall j :: 0 <= j < 8 ==> (Mask(j) == Mask(k) <==> j == k)
  {
    MaskValues();
  }

  predicate Has(b: bv8, k: nat)
    requires k < 8
  {
    b & Mask(k) != 0
  }

  // ------------------------------------------------------------ bits as binary digits

  /** Bit `k` is the binary digit of weight 2^k. */
  lemma BitIsDigit(b: bv8, k: nat)
    requires k < 8
    ensures Has(b, k) <==> b as int / Pow2(k) % 2 == 1
  {
    MaskValues();
    SmallPowers();
    hide Mask, Pow2;
    LowBit(b);
    ShiftOne(b);
    ShiftTwoThree(b);
    ShiftFourFive(b);
    ShiftSixSeven(b);
  }

  lemma CastLowBits(b: byte)
    ensures (b as bv8) & 1 != 0 <==> b % 2 == 1
    ensures (b as bv8) & 2 != 0 <==> b / 2 % 2 == 1
    ensures (b as bv8) & 4 != 0 <==> b / 4 % 2 == 1
    ensures (b as bv8) & 8 != 0 <==> b / 8 % 2 == 1
  {
  }

  lemma CastHighBits(b: byte)
    ensures (b as bv8) & 16 != 0 <==> b / 16 % 2 == 1
    ensures (b as bv8) & 32 != 0 <==> b / 32 % 2 == 1
    ensures (b as bv8) & 64 != 0 <==> b / 64 % 2 == 1
    ensures (b as bv8) & 128 != 0 <==> b / 128 % 2 == 1
  {
  }

  lemma Half(b: nat)
    ensures b == 2 * (b / 2) + b % 2
  {
  }

  lemma SumOfDigits(b: byte)
    ensures b == b % 2 + 2 * (b / 2 % 2) + 4 * (b / 4 % 2) + 8 * (b / 8 % 2)
                 + 16 * (b / 16 % 2) + 32 * (b / 32 % 2) + 64 * (b / 64 % 2) + 128 * (b / 128 % 2)
  {
    assert b / 4 == b / 2 / 2 && b / 8 == b / 4 / 2 && b / 16 == b / 8 / 2;
    assert b / 32 == b / 16 / 2 && b / 64 == b / 32 / 2 && b / 128 == b / 64 / 2 && b / 128 / 2 == 0;
    Half(b);
    Half(b / 2);
    Half(b / 4);
    Half(b / 8);
    Half(b / 16);
    Half(b / 32);
    Half(b / 64);
    Half(b / 128);
  }

  lemma SameDigits(a: byte, b: byte)
    requires a % 2 == b % 2 && a / 2 % 2 == b / 2 % 2 && a / 4 % 2 == b / 4 % 2 && a / 8 % 2 == b / 8 % 2
    requires a / 16 % 2 == b / 16 % 2 && a / 32 % 2 == b / 32 % 2
    requires a / 64 % 2 == b / 64 % 2 && a / 128 % 2 == b / 128 % 2
    ensures a == b
  {
    SumOfDigits(a);
    SumOfDigits(b);
  }

  /** A byte stays the same number as a bit vector. */
  lemma CastKeeps(b: byte)
    ensures (b as bv8) as int == b
  {
    var r := b as bv8;
    CastLowBits(b);
    CastHighBits(b);
    LowBit(r);
    ShiftOne(r);
    ShiftTwoThree(r);
    ShiftFourFive(r);
    ShiftSixSeven(r);
    SameDigits(r as int, b);
  }

  lemma SmallPowers()
    ensures Pow2(0) == 1 && Pow2(1) == 2 && Pow2(2) == 4 && Pow2(3) == 8
    ensures Pow2(4) == 16 && Pow2(5) == 32 && Pow2(6) == 64 && Pow2(7) == 128
  {
    assert Pow2(4) == 16 * Pow2(0);
  }

  lemma LowBit(b: bv8)
    ensures b & 1 != 0 <==> b as int % 2 == 1
  {
  }

  lemma ShiftOne(b: bv8)
    ensures b & 2 != 0 <==> b as int / 2 % 2 == 1
  {
    LowBit(b >> 1);
  }

  lemma ShiftTwoThree(b: bv8)
    ensures b & 4 != 0 <==> b as int / 4 % 2 == 1
    ensures b & 8 != 0 <==> b as int / 8 % 2 == 1
  {
    LowBit(b >> 2);
    LowBit(b >> 3);
  }

  lemma ShiftFourFive(b: bv8)
    ensures b & 16 != 0 <==> b as int / 16 % 2 == 1
    ensures b & 32 != 0 <==> b as int / 32 % 2 == 1
  {
    LowBit(b >> 4);
    LowBit(b >> 5);
  }

  lemma ShiftSixSeven(b: bv8)
    ensures b & 64 != 0 <==> b as int / 64 % 2 == 1
    ensures b & 128 != 0 <==> b as int / 128 % 2 == 1
  {
    LowBit(b >> 6);
    LowBit(b >> 7);
  }

  lemma OrMask(b: bv8, k: nat, j: nat)
    requires k < 8 && j < 8
    ensures Has(b | Mask(k), j) <==> Has(b, j) || j == k
  {
    MaskCases(k);
    MaskCases(j);
    OrMaskBv(b, Mask(k), Mask(j));
  }

  lemma OrMaskBv(b: bv8, m: bv8, n: bv8)
    requires m in {1, 2, 4, 8, 16, 32, 64, 128} && n in {1, 2, 4, 8, 16, 32, 64, 128}
    ensures (b | m) & n != 0 <==> b & n != 0 || m == n
  {
  }

  lemma AndMask(b: bv8, k: nat, j: nat)
    requires k < 8 && j < 8
    ensures Has(b & !Mask(k), j) <==> Has(b, j) && j != k
  {
    MaskCases(k);
    MaskCases(j);
    AndMaskBv(b, Mask(k), Mask(j));
  }

  lemma AndMaskBv(b: bv8, m: bv8, n: bv8)
    requires m in {1, 2, 4, 8, 16, 32, 64, 128} && n in {1, 2, 4, 8, 16, 32, 64, 128}
    ensures (b & !m) & n != 0 <==> b & n != 0 && m != n
  {
  }

  lemma SameBits(a: bv8, b: bv8)
    requires forall k :: 0 <= k < 8 ==> (Has(a, k) <==> Has(b, k))
    ensures a == b
  {
    MaskValues();
    assert Has(a, 0) <==> Has(b, 0);
    assert Has(a, 1) <==> Has(b, 1);
    assert Has(a, 2) <==> Has(b, 2);
    assert Has(a, 3) <==> Has(b, 3);
    assert Has(a, 4) <==> Has(b, 4);
    assert Has(a, 5) <==> Has(b, 5);
    assert Has(a, 6) <==> Has(b, 6);
    assert Has(a, 7) <==> Has(b, 7);
    SameBitsBv(a, b);
  }

  lemma SameBitsBv(a: bv8, b: bv8)
    requires (a & 1 != 0) == (b & 1 != 0) && (a & 2 != 0) == (b & 2 != 0)
    requires (a & 4 != 0) == (b & 4 != 0) && (a & 8 != 0) == (b & 8 != 0)
    requires (a & 16 != 0) == (b & 16 != 0) && (a & 32 != 0) == (b & 32 != 0)
    requires (a & 64 != 0) == (b & 64 != 0) && (a & 128 != 0) == (b & 128 != 0)
    ensures a == b
  {
  }

  // ------------------------------------------------------------ bytes as sets

  /** The first `n` of some bytes, zeros behind them. */
  function Sized(bits: seq<bv8>, n: nat): (r: seq<bv8>)
    ensures |r| == n
    ensures forall i :: 0 <= i < n ==> r[i] == if i < |bits| then bits[i] else 0
  {
    seq(n, i requires 0 <= i => if i < |bits| then bits[i] else 0)
  }

  /** `bit_get`: out of range there is no bit. */
  predicate BitGet(bytes: seq<bv8>, i: nat) {
    i / 8 < |bytes| && Has(bytes[i / 8], i % 8)
  }

  function WithBit(bytes: seq<bv8>, i: nat): (r: seq<bv8>)
    ensures |r| == |bytes|
  {
    if i / 8 < |bytes| then bytes[i / 8 := bytes[i / 8] | Mask(i % 8)] else bytes
  }

  function WithoutBit(bytes: seq<bv8>, i: nat): (r: seq<bv8>)
    ensures |r| == |bytes|
  {
    if i / 8 < |bytes| then bytes[i / 8 := bytes[i / 8] & !Mask(i % 8)] else bytes
  }

  /** The indices whose bit is set. */
  function Members(bytes: seq<bv8>): (s: set<nat>)
    ensures forall i: nat :: i in s <==> BitGet(bytes, i)
  {
    assert forall i: nat :: i / 8 < |bytes| ==> i < 8 * |bytes|;
    set i: nat | 0 <= i < 8 * |bytes| && BitGet(bytes, i)
  }

  lemma WithBitGet(bytes: seq<bv8>, i: nat, j: nat)
    ensures BitGet(WithBit(bytes, i), j) <==> BitGet(bytes, j) || (j == i && i / 8 < |bytes|)
  {
    if i / 8 < |bytes| && j / 8 == i / 8 {
      OrMask(bytes[i / 8], i % 8, j % 8);
    }
  }

  lemma WithoutBitGet(bytes: seq<bv8>, i: nat, j: nat)
    ensures BitGet(WithoutBit(bytes, i), j) <==> BitGet(bytes, j) && j != i
  {
    if i / 8 < |bytes| && j / 8 == i / 8 {
      AndMask(bytes[i / 8], i % 8, j % 8);
    }
  }

  /** Setting an index in range adds it and nothing else; out of range nothing changes. */
  lemma WithBitAdds(bytes: seq<bv8>, i: nat)
    ensures Members(WithBit(bytes, i)) == Members(bytes) + if i < 8 * |bytes| then {i} else {}
  {
    forall j: nat
      ensures j in Members(WithBit(bytes, i)) <==> j in Members(bytes) + if i < 8 * |bytes| then {i} else {}
    {
      WithBitGet(bytes, i, j);
    }
  }

  lemma WithoutBitRemoves(bytes: seq<bv8>, i: nat)
    ensures Members(WithoutBit(bytes, i)) == Members(bytes) - {i}
  {
    forall j: nat
      ensures j in Members(WithoutBit(bytes, i)) <==> j in Members(bytes) - {i}
    {
      WithoutBitGet(bytes, i, j);
    }
  }

  /** The set tells the bytes apart. */
  lemma MembersInjective(a: seq<bv8>, b: seq<bv8>)
    requires |a| == |b| && Members(a) == Members(b)
    ensures a == b
  {
    forall n | 0 <= n < |a|
      ensures a[n] == b[n]
    {
      forall k | 0 <= k < 8
        ensures Has(a[n], k) <==> Has(b[n], k)
      {
        var i: nat := 8 * n + k;
        assert i / 8 == n && i % 8 == k;
        assert i in Members(a) <==> i in Members(b);
      }
      SameBits(a[n], b[n]);
    }
  }

  // ------------------------------------------------------------ the search

  function Common(ours: seq<bv8>, theirs: seq<bv8>): nat {
    if |ours| <= |theirs| then |ours| else |theirs|
  }

  /** The positions below `n` at which the bytes differ, ascending. */
  function Mismatches(ours: seq<bv8>, theirs: seq<bv8>, n: nat): (ms: seq<nat>)
    requires n <= Common(ours, theirs)
    ensures forall k :: 0 <= k < |ms| ==> ms[k] < n && ours[ms[k]] != theirs[ms[k]]
  {
    if n == 0 then []
    else if ours[n - 1] != theirs[n - 1] then Mismatches(ours, theirs, n - 1) + [n - 1]
    else Mismatches(ours, theirs, n - 1)
  }

  /** The list is complete, and ascending. */
  lemma {:induction false} MismatchesComplete(ours: seq<bv8>, theirs: seq<bv8>, n: nat)
    requires n <= Common(ours, theirs)
    ensures var ms := Mismatches(ours, theirs, n);
            && (forall k, l :: 0 <= k < l < |ms| ==> ms[k] < ms[l])
            && (forall p :: 0 <= p < n && ours[p] != theirs[p] ==> p in ms)
  {
    if n == 0 {
    } else {
      MismatchesComplete(ours, theirs, n - 1);
    }
  }

  /** The one byte position that the search looks into. */
  function Inspected(ours: seq<bv8>, theirs: seq<bv8>, skips: nat): (p: Option<nat>)
    ensures p.Some? ==> p.value < Common(ours, theirs) && ours[p.value] != theirs[p.value]
  {
    var ms := Mismatches(ours, theirs, Common(ours, theirs));
    if ms == [] then None else Some(ms[if skips < |ms| then skips else |ms| - 1])
  }

  /** Set on their side and clear on ours. */
  predicate Wanted(ours: seq<bv8>, theirs: seq<bv8>, i: nat) {
    BitGet(theirs, i) && !BitGet(ours, i)
  }

  function LeastWanted(ours: seq<bv8>, theirs: seq<bv8>, lo: nat, hi: nat): (r: Option<nat>)
    ensures r.Some? ==> lo <= r.value < hi && Wanted(ours, theirs, r.value)
    ensures r.Some? ==> (forall i :: lo <= i < r.value ==> !Wanted(ours, theirs, i))
    ensures r.None? ==> (forall i :: lo <= i < hi ==> !Wanted(ours, theirs, i))
    decreases hi - lo
  {
    if lo >= hi then None
    else if Wanted(ours, theirs, lo) then Some(lo)
    else LeastWanted(ours, theirs, lo + 1, hi)
  }

  /** `find_positive_bit_compliment` */
  function Search(ours: seq<bv8>, theirs: seq<bv8>, skips: nat): (r: Option<nat>)
    ensures r.Some? ==> Wanted(ours, theirs, r.value)
  {
    match Inspected(ours, theirs, skips)
    case None => None
    case Some(p) => LeastWanted(ours, theirs, 8 * p, 8 * p + 8)
  }

  /** The wanted indices in the bytes that both sides have. */
  function Missing(ours: seq<bv8>, theirs: seq<bv8>): (s: set<nat>)
    ensures forall i: nat :: i in s <==> i < 8 * Common(ours, theirs) && Wanted(ours, theirs, i)
  {
    set i: nat | 0 <= i < 8 * Common(ours, theirs) && Wanted(ours, theirs, i)
  }

  /** Over the common bytes, every bit of ours is one of theirs. */
  predicate Within(ours: seq<bv8>, theirs: seq<bv8>) {
    forall i :: 0 <= i < 8 * Common(ours, theirs) && BitGet(ours, i) ==> BitGet(theirs, i)
  }

  /** What is found is missing, and it is the least missing index of its byte.  The byte is the
      mismatched byte number `skips`, or the last one if there are not so many. */
  lemma SearchFinds(ours: seq<bv8>, theirs: seq<bv8>, skips: nat)
    requires Search(ours, theirs, skips).Some?
    ensures var i := Search(ours, theirs, skips).value;
            var ms := Mismatches(ours, theirs, Common(ours, theirs));
            && i in Missing(ours, theirs)
            && |ms| > 0 && i / 8 == ms[if skips < |ms| then skips else |ms| - 1]
            && forall j :: j in Missing(ours, theirs) && j / 8 == i / 8 ==> i <= j
  {
  }

  /** The search fails exactly when no byte differs or the inspected byte lacks nothing. */
  lemma SearchFailsExactly(ours: seq<bv8>, theirs: seq<bv8>, skips: nat)
    ensures Search(ours, theirs, skips).None? <==>
              Inspected(ours, theirs, skips).None? ||
              theirs[Inspected(ours, theirs, skips).value] & !ours[Inspected(ours, theirs, skips).value] == 0
  {
    if Inspected(ours, theirs, skips).Some? {
      LeastWantedInByte(ours, theirs, Inspected(ours, theirs, skips).value);
    }
  }

  lemma LeastWantedInByte(ours: seq<bv8>, theirs: seq<bv8>, p: nat)
    requires p < Common(ours, theirs)
    ensures LeastWanted(ours, theirs, 8 * p, 8 * p + 8).None? <==> theirs[p] & !ours[p] == 0
  {
    hide Has, Mask;
    LacksNothing(ours[p], theirs[p]);
    if theirs[p] & !ours[p] != 0 {
      var k :| 0 <= k < 8 && Lacks(ours[p], theirs[p], k);
      IndexInByte(p, k);
      assert Wanted(ours, theirs, 8 * p + k);
    } else {
      forall i | 8 * p <= i < 8 * p + 8
        ensures !Wanted(ours, theirs, i)
      {
        IndexInByte(p, i - 8 * p);
        assert !Lacks(ours[p], theirs[p], i - 8 * p);
      }
    }
  }

  lemma IndexInByte(p: nat, k: nat)
    requires k < 8
    ensures (8 * p + k) / 8 == p && (8 * p + k) % 8 == k
  {
  }

  predicate Lacks(a: bv8, b: bv8, k: nat)
    requires k < 8
  {
    Has(b, k) && !Has(a, k)
  }

  lemma LacksNothing(a: bv8, b: bv8)
    ensures b & !a == 0 <==> forall k :: 0 <= k < 8 ==> !Lacks(a, b, k)
  {
    hide Has, Lacks;
    var d := b & !a;
    NoBits(d);
    if k: nat :| k < 8 && Lacks(a, b, k) {
      LacksBit(a, b, k);
    }
    if k: nat :| k < 8 && Has(d, k) {
      LacksBit(a, b, k);
    }
  }

  lemma LacksBit(a: bv8, b: bv8, k: nat)
    requires k < 8
    ensures Lacks(a, b, k) <==> Has(b & !a, k)
  {
    MaskCases(k);
    DifferenceBv(a, b, Mask(k));
  }

  lemma DifferenceBv(a: bv8, b: bv8, m: bv8)
    requires m in {1, 2, 4, 8, 16, 32, 64, 128}
    ensures (b & !a) & m != 0 <==> b & m != 0 && a & m == 0
  {
  }

  lemma NoBits(b: bv8)
    ensures b == 0 <==> forall k :: 0 <= k < 8 ==> !Has(b, k)
  {
    assert forall k :: 0 <= k < 8 ==> !Has(0, k);
    if forall k :: 0 <= k < 8 ==> !Has(b, k) {
      SameBits(b, 0);
    }
  }

  /** Without skips, what is found is the least missing index of all. */
  lemma SearchWithoutSkips(ours: seq<bv8>, theirs: seq<bv8>)
    requires Search(ours, theirs, 0).Some?
    ensures forall j :: j in Missing(ours, theirs) ==> Search(ours, theirs, 0).value <= j
  {
    var n := Common(ours, theirs);
    var ms := Mismatches(ours, theirs, n);
    var i := Search(ours, theirs, 0).value;
    MismatchesComplete(ours, theirs, n);
    forall j | j in Missing(ours, theirs)
      ensures i <= j
    {
      assert ours[j / 8] != theirs[j / 8];
      var k :| 0 <= k < |ms| && ms[k] == j / 8;
      assert ms[0] <= j / 8;
    }
  }

  /** If ours lie within theirs, every skip count finds something as long as anything is missing. */
  lemma SearchCompleteWithin(ours: seq<bv8>, theirs: seq<bv8>, skips: nat)
    requires Within(ours, theirs)
    ensures Search(ours, theirs, skips).None? <==> Missing(ours, theirs) == {}
  {
    if Search(ours, theirs, skips).Some? {
      SearchFinds(ours, theirs, skips);
    } else {
      SearchFailsExactly(ours, theirs, skips);
      if Inspected(ours, theirs, skips).Some? {
        DifferenceShows(ours, theirs, Inspected(ours, theirs, skips).value);
      } else {
        MismatchesComplete(ours, theirs, Common(ours, theirs));
      }
    }
  }

  /** Wherever the bytes differ, ours lacks a bit of theirs. */
  predicate EveryDifferenceLacks(ours: seq<bv8>, theirs: seq<bv8>) {
    forall p :: 0 <= p < Common(ours, theirs) && ours[p] != theirs[p] ==> theirs[p] & !ours[p] != 0
  }

  /** No skip count overlooks a missing index exactly if none is missing or ours lacks a bit of theirs
      in every byte that differs. */
  lemma SearchCompleteExactly(ours: seq<bv8>, theirs: seq<bv8>)
    ensures (forall skips :: Search(ours, theirs, skips).None? ==> Missing(ours, theirs) == {})
       <==> Missing(ours, theirs) == {} || EveryDifferenceLacks(ours, theirs)
  {
    var n := Common(ours, theirs);
    var ms := Mismatches(ours, theirs, n);
    MismatchesComplete(ours, theirs, n);
    forall skips | EveryDifferenceLacks(ours, theirs) && Search(ours, theirs, skips).None?
      ensures Missing(ours, theirs) == {}
    {
      SearchFailsExactly(ours, theirs, skips);
      NothingMissing(ours, theirs);
    }
    if p :| 0 <= p < n && ours[p] != theirs[p] && theirs[p] & !ours[p] == 0 {
      var k :| 0 <= k < |ms| && ms[k] == p;
      SearchFailsExactly(ours, theirs, k);
      assert Search(ours, theirs, k).None?;
    }
  }

  lemma NothingMissing(ours: seq<bv8>, theirs: seq<bv8>)
    requires ours[..Common(ours, theirs)] == theirs[..Common(ours, theirs)]
    ensures Missing(ours, theirs) == {}
  {
    forall i: nat
      ensures i !in Missing(ours, theirs)
    {
      if i < 8 * Common(ours, theirs) {
        assert ours[i / 8] == ours[..Common(ours, theirs)][i / 8];
        assert theirs[i / 8] == theirs[..Common(ours, theirs)][i / 8];
      }
    }
  }

  /** A byte that differs lacks something, if ours lie within theirs. */
  lemma DifferenceShows(ours: seq<bv8>, theirs: seq<bv8>, p: nat)
    requires Within(ours, theirs) && p < Common(ours, theirs) && ours[p] != theirs[p]
    ensures theirs[p] & !ours[p] != 0
  {
    hide Has;
    if theirs[p] & !ours[p] == 0 {
      LacksNothing(ours[p], theirs[p]);
      forall k | 0 <= k < 8
        ensures Has(ours[p], k) <==> Has(theirs[p], k)
      {
        IndexInByte(p, k);
        assert BitGet(ours, 8 * p + k) ==> BitGet(theirs, 8 * p + k);
        assert !Lacks(ours[p], theirs[p], k);
      }
      SameBits(ours[p], theirs[p]);
    }
  }

  /** The search looks into one differing byte only.  Here the first one lacks nothing, the second
      one does, and nothing is found: the documented index exists and is not reported. */
  lemma SearchOverlooks()
    ensures Search([1, 0], [0, 1], 0) == None && 8 in Missing([1, 0], [0, 1])
  {
    var a: seq<bv8>, b: seq<bv8> := [1, 0], [0, 1];
    hide Search, LeastWanted, Mask;
    SearchFailsExactly(a, b, 0);
    MaskValues();
    IndexInByte(1, 0);
    assert Wanted(a, b, 8);
    hide Has;
    assert Mismatches(a, b, 1) == [0];
    assert Mismatches(a, b, 2) == [0, 1];
    assert Inspected(a, b, 0) == Some(0);
  }
}
