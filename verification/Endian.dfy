/** Byte order on a little-endian host: the memory image of an integer, the `htonX` macros, and
    the three big-endian wrapper classes. */
module Endian {
  import opened Basics

  const TWO_TO_THE_16: int := 0x1_0000

  type uint16 = x: int | 0 <= x < TWO_TO_THE_16
  type uint32 = x: int | 0 <= x < TWO_TO_THE_32
  type uint64 = x: int | 0 <= x < TWO_TO_THE_64

  function Pow256(n: nat): (p: nat)
    ensures p > 0
  {
    if n == 0 then 1 else 256 * Pow256(n - 1)
  }

  /** The memory image of the low `n` bytes of an integer on the host. */
  function Image(x: nat, n: nat): (bs: seq<byte>)
    ensures |bs| == n
  {
    if n == 0 then [] else [x % 256] + Image(x / 256, n - 1)
  }

  /** The integer that the host reads from memory. */
  function Read(bs: seq<byte>): nat {
    if bs == [] then 0 else bs[0] + 256 * Read(bs[1..])
  }

  function Reverse(bs: seq<byte>): (r: seq<byte>)
    ensures |r| == |bs| && forall i :: 0 <= i < |bs| ==> r[i] == bs[|bs| - 1 - i]
  {
    if bs == [] then [] else Reverse(bs[1..]) + [bs[0]]
  }

  lemma {:induction false} ReadBound(bs: seq<byte>)
    ensures Read(bs) < Pow256(|bs|)
  {
    if bs == [] {
    } else {
      ReadBound(bs[1..]);
    }
  }

  lemma {:induction false} ReadImage(x: nat, n: nat)
    requires x < Pow256(n)
    ensures Read(Image(x, n)) == x
  {
    if n == 0 {
    } else {
      ReadImage(x / 256, n - 1);
      assert Image(x, n)[1..] == Image(x / 256, n - 1);
    }
  }

  lemma {:induction false} ImageRead(bs: seq<byte>)
    ensures Image(Read(bs), |bs|) == bs
  {
    if bs == [] {
    } else {
      ImageRead(bs[1..]);
      assert (bs[0] + 256 * Read(bs[1..])) / 256 == Read(bs[1..]);
    }
  }

  lemma ReverseConcat(a: seq<byte>, b: seq<byte>)
    ensures Reverse(a + b) == Reverse(b) + Reverse(a)
  {
  }

  /** Four bytes at a time: dividing by 256 four times is dividing by 2^32. */
  lemma Quarters(x: nat)
    ensures x / 256 / 256 == x / 0x1_0000
    ensures x / 0x1_0000 / 256 == x / 0x100_0000
    ensures x / 0x100_0000 / 256 == x / TWO_TO_THE_32
  {
  }

  lemma LowDigit(low: nat, q: nat)
    ensures (low + 256 * q) % 256 == low % 256 && (low + 256 * q) / 256 == low / 256 + q
  {
  }

  lemma SecondDigit(low: nat, q: nat)
    ensures (low + 0x1_0000 * q) / 0x1_0000 == low / 0x1_0000 + q
  {
  }

  lemma ThirdDigit(low: nat, q: nat)
    ensures (low + 0x100_0000 * q) / 0x100_0000 == low / 0x100_0000 + q
  {
  }

  lemma LowDigits(low: nat, high: nat)
    ensures (low + TWO_TO_THE_32 * high) % 256 == low % 256
    ensures (low + TWO_TO_THE_32 * high) / 256 % 256 == low / 256 % 256
    ensures (low + TWO_TO_THE_32 * high) / 0x1_0000 % 256 == low / 0x1_0000 % 256
    ensures (low + TWO_TO_THE_32 * high) / 0x100_0000 % 256 == low / 0x100_0000 % 256
  {
    LowDigit(low, 0x100_0000 * high);
    LowDigit(low / 256, 0x1_0000 * high);
    SecondDigit(low, 0x1_0000 * high);
    LowDigit(low / 0x1_0000, 0x100 * high);
    ThirdDigit(low, 0x100 * high);
    LowDigit(low / 0x100_0000, high);
  }

  lemma Image4(x: nat, n: nat)
    ensures Image(x, n + 4)
         == [x % 256, x / 256 % 256, x / 0x1_0000 % 256, x / 0x100_0000 % 256] + Image(x / TWO_TO_THE_32, n)
  {
    Quarters(x);
    var a, b, c := x / 256, x / 0x1_0000, x / 0x100_0000;
    assert Image(x, n + 4) == [x % 256] + Image(a, n + 3);
    assert Image(a, n + 3) == [a % 256] + Image(b, n + 2);
    assert Image(b, n + 2) == [b % 256] + Image(c, n + 1);
    assert Image(c, n + 1) == [c % 256] + Image(x / TWO_TO_THE_32, n);
  }

  /** The image of a number below 256. */
  lemma SmallImage(b: nat)
    requires b < 256
    ensures Image(b, 4) == [b, 0, 0, 0]
    ensures Image(b, 8) == [b, 0, 0, 0, 0, 0, 0, 0]
  {
    Image4(b, 0);
    Image4(0, 0);
    Image4(b, 4);
    assert b / 256 == 0 && b / 0x1_0000 == 0 && b / 0x100_0000 == 0 && b / TWO_TO_THE_32 == 0 && b % 256 == b;
    hide Image;
  }

  lemma ImageHalves(x: nat)
    ensures Image(x, 8) == Image(x % TWO_TO_THE_32, 4) + Image(x / TWO_TO_THE_32, 4)
  {
    Image4(x, 4);
    Image4(x % TWO_TO_THE_32, 0);
    LowDigits(x % TWO_TO_THE_32, x / TWO_TO_THE_32);
  }

  // ------------------------------------------------------------ the macros

  /** The integer with the memory image of `x` reversed, over `n` bytes. */
  function Swapped(x: nat, n: nat): (y: nat)
    ensures y < Pow256(n)
  {
    ReadBound(Reverse(Image(x, n)));
    Read(Reverse(Image(x, n)))
  }

  lemma SwappedImage(x: nat, n: nat)
    ensures Image(Swapped(x, n), n) == Reverse(Image(x, n))
  {
    ImageRead(Reverse(Image(x, n)));
  }

  lemma SwappedTwice(x: nat, n: nat)
    requires x < Pow256(n)
    ensures Swapped(Swapped(x, n), n) == x
  {
    SwappedImage(x, n);
    assert Reverse(Reverse(Image(x, n))) == Image(x, n);
    ReadImage(x, n);
  }

  lemma Weights()
    ensures Pow256(2) == TWO_TO_THE_16 && Pow256(4) == TWO_TO_THE_32 && Pow256(8) == TWO_TO_THE_64
  {
    assert Pow256(4) == 256 * 256 * Pow256(2);
    assert Pow256(8) == 256 * 256 * 256 * 256 * Pow256(4);
  }

  /** `htons` and `ntohs` */
  function Htons(x: uint16): uint16 {
    Weights();
    Swapped(x, 2)
  }

  /** `htonl` and `ntohl` */
  function Htonl(x: uint32): uint32 {
    Weights();
    Swapped(x, 4)
  }

  /** `htonll` and `ntohll`: two swapped halves, the lower one shifted up. */
  function Htonll(x: uint64): uint64 {
    Htonl(x % TWO_TO_THE_32) * TWO_TO_THE_32 + Htonl(x / TWO_TO_THE_32)
  }

  /** A 64-bit value built of two swapped halves is the swapped value. */
  lemma HtonllSwaps(x: uint64)
    ensures Htonll(x) == Swapped(x, 8)
  {
    Weights();
    var low, high := x % TWO_TO_THE_32, x / TWO_TO_THE_32;
    ImageHalves(x);
    var y := Htonll(x);
    ImageHalves(y);
    assert y / TWO_TO_THE_32 == Htonl(low) && y % TWO_TO_THE_32 == Htonl(high);
    SwappedImage(low, 4);
    SwappedImage(high, 4);
    ReverseConcat(Image(low, 4), Image(high, 4));
    ReadImage(y, 8);
  }

  // ------------------------------------------------------------ the wrapper classes

  /** What a wrapper holds: the swapped value. */
  datatype BigEndian = Be16(be16: uint16) | Be32(be32: uint32) | Be64(be64: uint64)
  {
    /** The bytes of the wrapper in memory, as they are sent. */
    function Memory(): seq<byte> {
      match this
      case Be16(v) => Image(v, 2)
      case Be32(v) => Image(v, 4)
      case Be64(v) => Image(v, 8)
    }

    /** `as_small_endian` */
    function AsSmallEndian(): nat {
      match this
      case Be16(v) => Htons(v)
      case Be32(v) => Htonl(v)
      case Be64(v) => Htonll(v)
    }
  }

  function Wrap16(x: uint16): BigEndian { Be16(Htons(x)) }
  function Wrap32(x: uint32): BigEndian { Be32(Htonl(x)) }
  function Wrap64(x: uint64): BigEndian { Be64(Htonll(x)) }

  /** Wrapped values read back unchanged. */
  lemma WrapRoundTrips(a: uint16, b: uint32, c: uint64)
    ensures Wrap16(a).AsSmallEndian() == a
    ensures Wrap32(b).AsSmallEndian() == b
    ensures Wrap64(c).AsSmallEndian() == c
  {
    Weights();
    SwappedTwice(a, 2);
    SwappedTwice(b, 4);
    HtonllSwaps(c);
    HtonllSwaps(Htonll(c));
    SwappedTwice(c, 8);
  }

  /** Wrapped values stand in memory most significant byte first. */
  lemma WrapMemory16(a: uint16)
    ensures Wrap16(a).Memory() == [a / 256, a % 256]
  {
    SwappedImage(a, 2);
    ImageOf16(a);
    hide Image, Swapped;
    Reverse2(a % 256, a / 256);
  }

  lemma ImageOf16(a: uint16)
    ensures Image(a, 2) == [a % 256, a / 256]
  {
    assert Image(a / 256, 1) == [a / 256 % 256];
  }

  lemma Reverse2(a: byte, b: byte)
    ensures Reverse([a, b]) == [b, a]
  {
  }

  lemma Reverse4(a: byte, b: byte, c: byte, d: byte)
    ensures Reverse([a, b, c, d]) == [d, c, b, a]
  {
  }

  lemma WrapMemory32(b: uint32)
    ensures Wrap32(b).Memory() == [b / 0x100_0000, b / 0x1_0000 % 256, b / 256 % 256, b % 256]
  {
    SwappedImage(b, 4);
    ImageOf32(b);
    hide Image, Swapped;
    var d0, d1, d2, d3 := b % 256, b / 256 % 256, b / 0x1_0000 % 256, b / 0x100_0000;
    Reverse4(d0, d1, d2, d3);
  }

  lemma ImageOf32(b: uint32)
    ensures Image(b, 4) == [b % 256, b / 256 % 256, b / 0x1_0000 % 256, b / 0x100_0000]
  {
    Image4(b, 0);
    hide Image;
  }

  lemma WrapMemory64(c: uint64)
    ensures Wrap64(c).Memory() == Wrap32(c / TWO_TO_THE_32).Memory() + Wrap32(c % TWO_TO_THE_32).Memory()
  {
    var low, high := c % TWO_TO_THE_32, c / TWO_TO_THE_32;
    HtonllSwaps(c);
    SwappedImage(c, 8);
    SwappedImage(high, 4);
    SwappedImage(low, 4);
    ImageHalves(c);
    ReverseConcat(Image(low, 4), Image(high, 4));
  }

  /** Received bytes, laid over a wrapper: `as_small_endian` reads them most significant first. */
  function Received32(bs: seq<byte>): BigEndian
    requires |bs| == 4
  {
    Weights();
    ReadBound(bs);
    Be32(Read(bs))
  }

  function Received16(bs: seq<byte>): BigEndian
    requires |bs| == 2
  {
    Weights();
    ReadBound(bs);
    Be16(Read(bs))
  }

  /** What was sent from a wrapper is received in a wrapper. */
  lemma ReceivedIsSent(a: uint16, b: uint32)
    ensures Received16(Wrap16(a).Memory()) == Wrap16(a)
    ensures Received32(Wrap32(b).Memory()) == Wrap32(b)
  {
    Weights();
    ReadImage(Htons(a), 2);
    ReadImage(Htonl(b), 4);
  }
}
