/** Which pieces a peer means by its messages, and which ones the bits that are kept of it say. */
module PieceNumbers {
  import opened Basics
  import opened Bits
  import opened Endian
  import opened PeerMachine
  import opened PeerWire

  /** Binary digit `k` of a byte. */
  function Digit(b: byte, k: nat): nat {
    b / Pow2(k) % 2
  }

  // ------------------------------------------------------------ bitfield

  /** Does a bitfield say that the peer has piece `i`?  The high bit of a byte is that of the first of its
      eight pieces (BEP 3, section "peer messages"). */
  predicate Offers(bs: seq<byte>, i: nat) {
    i / 8 < |bs| && Digit(bs[i / 8], 7 - i % 8) == 1
  }

  /** Index `i` is kept exactly if binary digit `i % 8` of byte `i / 8` is set. */
  ghost predicate Keeps(bits: seq<bv8>, bs: seq<byte>) {
    forall i: nat :: i in Members(bits) <==> i / 8 < |bs| && Digit(bs[i / 8], i % 8) == 1
  }

  lemma SameBytesKept(bits: seq<bv8>, bs: seq<byte>)
    requires |bits| == |bs| && forall n :: 0 <= n < |bs| ==> bits[n] as int == bs[n]
    ensures Keeps(bits, bs)
  {
    hide Has, Pow2;
    forall i: nat
      ensures i in Members(bits) <==> i / 8 < |bs| && Digit(bs[i / 8], i % 8) == 1
    {
      if i / 8 < |bs| {
        BitIsDigit(bits[i / 8], i % 8);
      }
    }
  }

  lemma KeptOfBitfield(bs: seq<byte>, i: nat)
    ensures i in Members(ToBits(bs)) <==> i / 8 < |bs| && Digit(bs[i / 8], i % 8) == 1
  {
    SameBytesKept(ToBits(bs), bs);
    hide Has, Pow2;
  }

  /** A byte that reads the same in both directions. */
  predicate Palindrome(b: byte) {
    forall k :: 0 <= k < 8 ==> Digit(b, k) == Digit(b, 7 - k)
  }

  lemma KeptAt(bs: seq<byte>, i: nat)
    requires i / 8 < |bs|
    ensures (i in Members(ToBits(bs)) <==> Offers(bs, i)) <==> Digit(bs[i / 8], i % 8) == Digit(bs[i / 8], 7 - i % 8)
  {
    KeptOfBitfield(bs, i);
    DigitBinary(bs[i / 8], i % 8);
    DigitBinary(bs[i / 8], 7 - i % 8);
    hide Members, Digit;
  }

  /** What is kept of a bitfield is what the peer has exactly if all its bytes are palindromes. */
  lemma BitfieldKeptExactly(bs: seq<byte>)
    ensures (forall i: nat :: i in Members(ToBits(bs)) <==> Offers(bs, i))
       <==> (forall n :: 0 <= n < |bs| ==> Palindrome(bs[n]))
  {
    hide Digit, BitGet, Offers, ToBits;
    forall i: nat | forall n :: 0 <= n < |bs| ==> Palindrome(bs[n])
      ensures i in Members(ToBits(bs)) <==> Offers(bs, i)
    {
      KeptOrOffered(bs, i);
      if i / 8 < |bs| {
        KeptAt(bs, i);
      }
    }
    if forall i: nat :: i in Members(ToBits(bs)) <==> Offers(bs, i) {
      forall n, k | 0 <= n < |bs| && 0 <= k < 8
        ensures Digit(bs[n], k) == Digit(bs[n], 7 - k)
      {
        IndexInByte(n, k);
        KeptAt(bs, 8 * n + k);
      }
    }
  }

  lemma KeptOrOffered(bs: seq<byte>, i: nat)
    ensures i in Members(ToBits(bs)) || Offers(bs, i) ==> i / 8 < |bs|
  {
    KeptOfBitfield(bs, i);
  }

  lemma DigitBinary(b: byte, k: nat)
    ensures Digit(b, k) == 0 || Digit(b, k) == 1
  {
  }

  /** A peer that has only the first piece is taken for one that has only the eighth. */
  lemma FirstPieceIsTakenForEighth()
    ensures Offers([128], 0) && !Offers([128], 7)
    ensures Members(ToBits([128])) == {7}
  {
    SmallPowers();
    forall i: nat
      ensures i in Members(ToBits([128])) <==> i == 7
    {
      KeptOfBitfield([128], i);
      if i / 8 == 0 && i != 7 {
        assert i in {0, 1, 2, 3, 4, 5, 6};
      }
    }
  }

  // ------------------------------------------------------------ have

  /** What a `have` for piece `x` adds: its index is sent high byte first and read low byte first. */
  lemma KeptOfHave(s: PeerState, x: uint32, look: Look, slack: seq<byte>, pieceLength: nat)
    ensures var before, h := Members(s.theirs), Handle(s, Have(Wrap32(x).Memory()), look, slack, pieceLength);
            && h.out == [] && h.state == s.(theirs := h.state.theirs)
            && Members(h.state.theirs) == before + if Htonl(x) < 8 * |s.theirs| then {Htonl(x)} else {}
  {
    var raw := Wrap32(x).Memory();
    Weights();
    ReadImage(Htonl(x), 4);
    hide Image, Swapped, WithBit, Htonl;
    WithBitAdds(s.theirs, Htonl(x));
  }

  /** The four bytes of an index read the same in both directions. */
  predicate SameSwapped(x: uint32) {
    x / 0x100_0000 == x % 256 && x / 0x1_0000 % 256 == x / 256 % 256
  }

  lemma SwappedSameExactly(x: uint32)
    ensures Htonl(x) == x <==> SameSwapped(x)
  {
    WrapMemory32(x);
    ImageOf32(x);
    Weights();
    ReadImage(x, 4);
    ReadImage(Htonl(x), 4);
    hide Image, Swapped, Read, Htonl;
  }

  /** A `have` for a piece in range that was not there adds that piece exactly if its index reads the same
      in both byte orders; the others add another piece or none. */
  lemma HaveKeptExactly(s: PeerState, x: uint32, look: Look, slack: seq<byte>, pieceLength: nat)
    requires x < 8 * |s.theirs| && x !in Members(s.theirs)
    ensures var h := Handle(s, Have(Wrap32(x).Memory()), look, slack, pieceLength);
            x in Members(h.state.theirs) <==> SameSwapped(x)
  {
    hide SameSwapped, Htonl, Handle, Members;
    KeptOfHave(s, x, look, slack, pieceLength);
    SwappedSameExactly(x);
  }

  /** With up to 2^21 bytes of bits a `have` for one of the pieces 1 to 255 adds nothing at all. */
  lemma HaveIsLost(s: PeerState, x: uint32, look: Look, slack: seq<byte>, pieceLength: nat)
    requires 0 < x < 256 && |s.theirs| <= 0x20_0000
    ensures var h := Handle(s, Have(Wrap32(x).Memory()), look, slack, pieceLength);
            Members(h.state.theirs) == Members(s.theirs)
  {
    hide Htonl, Handle, Members;
    KeptOfHave(s, x, look, slack, pieceLength);
    SmallSwapped(x);
  }

  lemma SmallSwapped(x: uint32)
    requires x < 256
    ensures Htonl(x) == 0x100_0000 * x
  {
    SmallWrapped(x);
    LargeImage(x);
    Weights();
    hide Image, Swapped, Read, Htonl;
    ReadImage(Htonl(x), 4);
    ReadImage(0x100_0000 * x, 4);
  }

  lemma SmallWrapped(x: uint32)
    requires x < 256
    ensures Image(Htonl(x), 4) == [0, 0, 0, x]
  {
    hide Image, Swapped;
    WrapMemory32(x);
    assert x / 256 == 0 && x / 0x1_0000 == 0 && x / 0x100_0000 == 0;
  }

  lemma LargeImage(x: uint32)
    requires x < 256
    ensures Image(0x100_0000 * x, 4) == [0, 0, 0, x]
  {
    var y := 0x100_0000 * x;
    assert y / 256 == 0x1_0000 * x && y / 256 / 256 == 256 * x && y / 256 / 256 / 256 == x;
    assert Image(y, 4) == [0] + Image(0x1_0000 * x, 3);
    assert Image(0x1_0000 * x, 3) == [0] + Image(256 * x, 2);
    assert Image(256 * x, 2) == [0] + Image(x, 1);
    assert Image(x, 1) == [x] + Image(0, 0);
  }
}
