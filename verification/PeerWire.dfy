/** The messages of the peer protocol as bytes (BEP 3, section "peer protocol"). */
module PeerWire {
  import opened Basics
  import opened Endian
  import opened Stream

  const HEADER: nat := 5
  const MAX_BLOCK_SIZE: nat := 16384

  /** What a peer sends us.  The index of `Have` is kept as the four bytes that arrive. */
  datatype Message =
    | Choke
    | Unchoke
    | Interested
    | NotInterested
    | Have(raw: seq<byte>)
    | Bitfield(bits: seq<byte>)
    | Block(index: uint32, offset: uint32, payload: seq<byte>)

  predicate Sendable(m: Message) {
    match m
    case Have(raw) => |raw| == 4
    case Bitfield(bits) => 1 + |bits| < TWO_TO_THE_32
    case Block(_, _, payload) => 9 + |payload| < TWO_TO_THE_32
    case _ => true
  }

  function TypeOf(m: Message): byte {
    match m
    case Choke => 0
    case Unchoke => 1
    case Interested => 2
    case NotInterested => 3
    case Have(_) => 4
    case Bitfield(_) => 5
    case Block(_, _, _) => 7
  }

  function Body(m: Message): seq<byte> {
    match m
    case Have(raw) => raw
    case Bitfield(bits) => bits
    case Block(index, offset, payload) => Wrap32(index).Memory() + Wrap32(offset).Memory() + payload
    case _ => []
  }

  function Frame(m: Message): (bs: seq<byte>)
    requires Sendable(m)
    ensures |bs| == HEADER + |Body(m)|
  {
    Wrap32(1 + |Body(m)|).Memory() + [TypeOf(m)] + Body(m)
  }

  /** The length field of a received header. */
  function LengthOf(header: seq<byte>): uint32
    requires |header| == HEADER
  {
    Received32(header[..4]).AsSmallEndian()
  }

  lemma HeaderOfFrame(m: Message)
    requires Sendable(m)
    ensures LengthOf(Frame(m)[..HEADER]) == 1 + |Body(m)| && Frame(m)[..HEADER][4] == TypeOf(m)
  {
    var n := 1 + |Body(m)|;
    assert Frame(m)[..HEADER][..4] == Wrap32(n).Memory();
    ReceivedIsSent(0, n);
    WrapRoundTrips(0, n, 0);
  }

  lemma FrameParts(m: Message, rest: seq<byte>)
    requires Sendable(m)
    ensures var all := Frame(m) + rest;
            && |all| >= |Frame(m)|
            && all[..HEADER] == Frame(m)[..HEADER]
            && all[HEADER..|Frame(m)|] == Body(m)
            && all[|Frame(m)|..] == rest
  {
  }

  lemma BodyTells(a: Message, b: Message)
    requires TypeOf(a) == TypeOf(b) && Body(a) == Body(b)
    ensures a == b
  {
    if a.Block? {
      BlockFields(a);
      BlockFields(b);
    }
  }

  /** A frame tells its message. */
  lemma FrameInjective(a: Message, b: Message, rest: seq<byte>, more: seq<byte>)
    requires Sendable(a) && Sendable(b) && Frame(a) + rest == Frame(b) + more
    ensures a == b && rest == more
  {
    FrameParts(a, rest);
    FrameParts(b, more);
    HeaderOfFrame(a);
    HeaderOfFrame(b);
    hide Frame, Body, TypeOf;
    BodyTells(a, b);
  }

  lemma BlockFields(m: Message)
    requires m.Block?
    ensures |Body(m)| >= 8
    ensures Received32(Body(m)[..4]).AsSmallEndian() == m.index
    ensures Received32(Body(m)[4..8]).AsSmallEndian() == m.offset
    ensures Body(m)[8..] == m.payload
  {
    assert Body(m)[..4] == Wrap32(m.index).Memory() && Body(m)[4..8] == Wrap32(m.offset).Memory();
    ReceivedIsSent(0, m.index);
    ReceivedIsSent(0, m.offset);
    WrapRoundTrips(0, m.index, 0);
    WrapRoundTrips(0, m.offset, 0);
  }

  /** How much of the body is read by a single receive. */
  function FixedPart(m: Message): nat {
    match m
    case Block(_, _, _) => 8
    case _ => |Body(m)|
  }

  /** A message is next in the stream, and no segment boundary falls inside its header or inside
      the part of its body that is read at once.  A block's payload may be cut anywhere. */
  predicate Arrives(segs: Segments, m: Message) {
    && NoEmpty(segs) && Sendable(m)
    && Frame(m) <= Concat(segs)
    && Whole(segs, HEADER)
    && (FixedPart(m) > 0 ==> Whole(Skip(segs, HEADER), FixedPart(m)))
  }

  /** What is left of the stream behind a message. */
  function Behind(segs: Segments, m: Message): Segments
    requires Arrives(segs, m)
  {
    Skip(segs, |Frame(m)|)
  }

  lemma PrefixSplit(a: seq<byte>, b: seq<byte>)
    requires a <= b
    ensures b == a + b[|a|..]
  {
  }

  /** At most one message is next. */
  lemma ArrivesAlone(segs: Segments, m: Message, n: Message)
    requires Arrives(segs, m) && Arrives(segs, n)
    ensures m == n && Behind(segs, m) == Behind(segs, n)
  {
    var all := Concat(segs);
    hide Frame, Skip, Concat, Body, FixedPart, Whole;
    PrefixSplit(Frame(m), all);
    PrefixSplit(Frame(n), all);
    FrameInjective(m, n, all[|Frame(m)|..], all[|Frame(n)|..]);
  }

  /** One receive takes the whole header of a message that arrives, and leaves its body next. */
  lemma ArrivingHeader(segs: Segments, m: Message)
    requires Arrives(segs, m)
    ensures segs != [] && Taken(segs, HEADER) == HEADER
    ensures var header := Overlay(Concat(segs)[..HEADER], Zeros(HEADER));
            header[4] == TypeOf(m) && LengthOf(header) == 1 + |Body(m)|
    ensures Body(m) <= Concat(Skip(segs, HEADER))
  {
    var all := Concat(segs);
    hide Frame, Skip, Concat, Body, FixedPart;
    PrefixSplit(Frame(m), all);
    FrameParts(m, all[|Frame(m)|..]);
    HeaderOfFrame(m);
    assert Overlay(all[..HEADER], Zeros(HEADER)) == Frame(m)[..HEADER];
    BodyNext(all, Body(m), |Frame(m)|);
  }

  lemma BodyNext(all: seq<byte>, body: seq<byte>, n: nat)
    requires HEADER <= n <= |all| && all[HEADER..n] == body
    ensures body <= all[HEADER..]
  {
    assert all[HEADER..][..|body|] == all[HEADER..n];
  }

  /** One receive takes the whole fixed part of its body. */
  lemma ArrivingBody(segs: Segments, m: Message)
    requires Arrives(segs, m) && FixedPart(m) > 0
    ensures var rest, n := Skip(segs, HEADER), FixedPart(m);
            && rest != [] && n <= |Body(m)|
            && Taken(rest, n) == n && Concat(rest)[..n] == Body(m)[..n]
            && HEADER + n <= |Concat(segs)| && Skip(rest, n) == Skip(segs, HEADER + n)
  {
    ArrivingHeader(segs, m);
    FixedPartFits(m);
    assert |Frame(m)| == HEADER + |Body(m)| <= |Concat(segs)|;
    var rest, n := Skip(segs, HEADER), FixedPart(m);
    assert Whole(rest, n);
    hide Frame, Concat, Skip, Body, FixedPart;
    PrefixOfPrefix(Body(m), Concat(rest), n);
    SkipSkip(segs, HEADER, n);
  }

  lemma FixedPartFits(m: Message)
    ensures FixedPart(m) <= |Body(m)|
  {
    if m.Block? {
      BlockFields(m);
    }
  }

  lemma PrefixOfPrefix(a: seq<byte>, b: seq<byte>, n: nat)
    requires a <= b && n <= |a|
    ensures b[..n] == a[..n]
  {
  }

  /** The payload of a block that arrives stands behind its prefix. */
  lemma ArrivingPayload(segs: Segments, m: Message)
    requires Arrives(segs, m) && m.Block?
    ensures var rest := Skip(segs, HEADER + 8);
            && |m.payload| <= |Concat(rest)| && Concat(rest)[..|m.payload|] == m.payload
            && Skip(rest, |m.payload|) == Behind(segs, m)
            && Received32(Body(m)[..8][..4]).AsSmallEndian() == m.index
  {
    ArrivingHeader(segs, m);
    BlockFields(m);
    var all := Concat(segs);
    assert |Frame(m)| == HEADER + 8 + |m.payload| <= |all|;
    hide Frame, Concat, Skip, Whole, FixedPart, Sendable;
    TailOfBody(all, Body(m), m.payload);
    SkipSkip(segs, HEADER + 8, |m.payload|);
  }

  lemma TailOfBody(all: seq<byte>, body: seq<byte>, payload: seq<byte>)
    requires |all| >= HEADER && body <= all[HEADER..] && |body| >= 8 && body[8..] == payload
    ensures HEADER + 8 <= |all| && payload <= all[HEADER + 8..] && body[..8][..4] == body[..4]
  {
    assert all[HEADER..][..|body|] == body;
    assert all[HEADER + 8..][..|payload|] == body[8..];
  }

  function HighFirst(x: uint32): (bs: seq<byte>)
    ensures |bs| == 4
  {
    [x / 0x100_0000, x / 0x1_0000 % 256, x / 256 % 256, x % 256]
  }

  /** The messages byte by byte: four bytes of length, high one first, one of type, and the body. */
  lemma FrameBytes(m: Message)
    requires Sendable(m) && !m.Bitfield? && !m.Block?
    ensures m.Choke? ==> Frame(m) == [0, 0, 0, 1, 0]
    ensures m.Unchoke? ==> Frame(m) == [0, 0, 0, 1, 1]
    ensures m.Interested? ==> Frame(m) == [0, 0, 0, 1, 2]
    ensures m.NotInterested? ==> Frame(m) == [0, 0, 0, 1, 3]
    ensures m.Have? ==> Frame(m) == [0, 0, 0, 5, 4] + m.raw
  {
    hide Frame;
    FrameParted(m);
    assert HighFirst(1) + [TypeOf(m)] == [0, 0, 0, 1, TypeOf(m)];
    assert HighFirst(5) + [4] == [0, 0, 0, 5, 4];
  }

  lemma BitfieldBytes(m: Message)
    requires Sendable(m) && m.Bitfield?
    ensures Frame(m) == HighFirst(1 + |m.bits|) + [5] + m.bits
  {
    hide Frame, HighFirst;
    FrameParted(m);
  }

  lemma OneByteFrames()
    ensures Frame(Unchoke) == [0, 0, 0, 1, 1] && Frame(Choke) == [0, 0, 0, 1, 0]
  {
    hide Frame;
    FrameBytes(Unchoke);
    FrameBytes(Choke);
  }

  lemma FrameParted(m: Message)
    requires Sendable(m)
    ensures 1 + |Body(m)| < TWO_TO_THE_32
    ensures Frame(m) == HighFirst(1 + |Body(m)|) + [TypeOf(m)] + Body(m)
  {
    hide Image, Swapped, Reverse, Wrap32, BigEndian.Memory;
    if m.Block? {
      BlockFields(m);
    }
    WrapMemory32(1 + |Body(m)|);
  }

  lemma BlockBytes(m: Message)
    requires Sendable(m) && m.Block?
    ensures Frame(m)
         == HighFirst(9 + |m.payload|) + [7] + HighFirst(m.index) + HighFirst(m.offset) + m.payload
  {
    hide Frame, Image, Swapped, Wrap32, BigEndian.Memory, HighFirst;
    FrameParted(m);
    Words(m.index, m.offset, 0);
    FiveParts(HighFirst(9 + |m.payload|), [7], HighFirst(m.index), HighFirst(m.offset), m.payload);
  }

  lemma Words(x: uint32, y: uint32, z: uint32)
    ensures Wrap32(x).Memory() == HighFirst(x) && Wrap32(y).Memory() == HighFirst(y)
    ensures Wrap32(z).Memory() == HighFirst(z)
  {
    hide Image, Swapped, Wrap32, BigEndian.Memory;
    WrapMemory32(x);
    WrapMemory32(y);
    WrapMemory32(z);
  }

  /** A length is read high byte first. */
  lemma LengthRead(length: uint32, kind: byte)
    ensures LengthOf(HighFirst(length) + [kind]) == length
  {
    hide HighFirst;
    Words(length, 0, 0);
    assert (HighFirst(length) + [kind])[..4] == HighFirst(length);
    Sent32(length);
    hide Received32, BigEndian.AsSmallEndian, Wrap32, BigEndian.Memory;
  }

  lemma FiveParts(a: seq<byte>, b: seq<byte>, c: seq<byte>, d: seq<byte>, e: seq<byte>)
    ensures a + b + (c + d + e) == a + b + c + d + e
  {
  }

  // ------------------------------------------------------------ what we send

  datatype Outgoing =
    | Request(index: uint32, begin: uint32, length: uint32)
    | HavePiece(index: uint32)
    | InterestedToo
    | KeepAlive

  /** The packed structure that is sent. */
  function Packet(o: Outgoing): seq<byte> {
    match o
    case Request(index, begin, length) =>
      Wrap32(13).Memory() + [6] + Wrap32(index).Memory() + Wrap32(begin).Memory() + Wrap32(length).Memory()
    case HavePiece(index) => Wrap32(5).Memory() + [4] + Wrap32(index).Memory()
    case InterestedToo => Wrap32(1).Memory() + [2]
    case KeepAlive => [0, 0, 0, 0, 0]
  }

  function Packets(os: seq<Outgoing>): (ps: seq<seq<byte>>)
    ensures |ps| == |os|
    ensures forall i :: 0 <= i < |os| ==> ps[i] == Packet(os[i])
  {
    seq(|os|, i requires 0 <= i < |os| => Packet(os[i]))
  }

  lemma NothingSent(sent: seq<seq<byte>>)
    ensures sent + Packets([]) == sent
  {
  }

  lemma PacketsMore(a: seq<Outgoing>, b: seq<Outgoing>)
    ensures Packets(a + b) == Packets(a) + Packets(b)
  {
  }

  /** The 17 bytes of a request decode to its fields, the length field to the 13 bytes after it. */
  lemma RequestDecodes(o: Outgoing)
    requires o.Request?
    ensures var bs := Packet(o);
            && |bs| == 17 && bs[4] == 6
            && LengthOf(bs[..5]) == 13
            && Received32(bs[5..9]).AsSmallEndian() == o.index
            && Received32(bs[9..13]).AsSmallEndian() == o.begin
            && Received32(bs[13..17]).AsSmallEndian() == o.length
  {
    var l, x := Wrap32(13).Memory(), Wrap32(o.index).Memory();
    var y, z := Wrap32(o.begin).Memory(), Wrap32(o.length).Memory();
    Sent32(13);
    Sent32(o.index);
    Sent32(o.begin);
    Sent32(o.length);
    Fields(l, x, y, z);
  }

  /** What we send, byte by byte. */
  lemma PacketBytes(o: Outgoing)
    ensures o.InterestedToo? ==> Packet(o) == [0, 0, 0, 1, 2] == Frame(Interested)
    ensures o.KeepAlive? ==> Packet(o) == [0, 0, 0, 0, 0]
    ensures o.HavePiece? ==> Packet(o) == [0, 0, 0, 5, 4] + HighFirst(o.index) == Frame(Have(HighFirst(o.index)))
    ensures o.Request? ==>
              Packet(o) == [0, 0, 0, 13, 6] + HighFirst(o.index) + HighFirst(o.begin) + HighFirst(o.length)
  {
    hide Image, Swapped, Wrap32, BigEndian.Memory, Frame;
    FrameBytes(Interested);
    Words(1, 5, 13);
    match o
    case HavePiece(index) =>
      FrameBytes(Have(HighFirst(index)));
      Words(index, 0, 0);
      hide HighFirst;
    case Request(index, begin, length) => RequestBytes(o);
    case _ =>
  }

  lemma RequestBytes(o: Outgoing)
    requires o.Request?
    ensures Packet(o) == [0, 0, 0, 13, 6] + HighFirst(o.index) + HighFirst(o.begin) + HighFirst(o.length)
  {
    hide Image, Swapped, Wrap32, BigEndian.Memory;
    Words(13, 0, 0);
    assert HighFirst(13) + [6] == [0, 0, 0, 13, 6];
    hide HighFirst;
    Words(o.index, o.begin, o.length);
  }

  lemma Fields(l: seq<byte>, x: seq<byte>, y: seq<byte>, z: seq<byte>)
    requires |l| == |x| == |y| == |z| == 4
    ensures var bs := l + [6] + x + y + z;
            && |bs| == 17 && bs[4] == 6 && bs[..5][..4] == l
            && bs[5..9] == x && bs[9..13] == y && bs[13..17] == z
  {
  }

  lemma Sent32(x: uint32)
    ensures Received32(Wrap32(x).Memory()).AsSmallEndian() == x
  {
    ReceivedIsSent(0, x);
    WrapRoundTrips(0, x, 0);
  }
}
