/** What `receive_message` does with the bytes of a connection, wherever they are cut into segments.
    A structure that is read by a single receive holds what that receive brought, over what it held
    before. */
module Reception {
  import opened Basics
  import opened Bits
  import opened Endian
  import opened PeerMachine
  import opened PeerWire
  import opened Stream

  /** What memory holds where the program has not written: behind the elements of a vector that had
      to grow, in a new array of bits, and in the local variable for the index of a `have`. */
  datatype Memory = Memory(slack: seq<byte>, bits: seq<bv8>, local: Word)

  /** The fields of `torrent_peer` that messages depend on, the bytes still to come, and whether the
      peer closes the connection behind them. */
  datatype Link = Link(ready: bool, healthy: bool, keepAlive: nat, peer: PeerState, segs: Segments, closed: bool)

  /** The new state, what was sent, and the payload if a block was accepted. */
  datatype Received = Received(link: Link, out: seq<Outgoing>, accepted: Option<seq<byte>>)

  // ------------------------------------------------------------ blocks

  /** The block index of the eight bytes read in front of a payload. */
  function BlockIndex(prefix: seq<byte>): uint32
    requires |prefix| == 8
  {
    Received32(prefix[..4]).AsSmallEndian()
  }

  /** The payload length that a message length announces, in 32 and then 64 bits unsigned. */
  function BlockLength(length: uint32): (n: nat)
    ensures n == if length >= 9 then length - 9 else (if length == 0 then TWO_TO_THE_32 else TWO_TO_THE_64 + length) - 9
  {
    var packetSize := if length == 0 then TWO_TO_THE_32 - 1 else length - 1;
    if packetSize >= 8 then packetSize - 8 else TWO_TO_THE_64 - 8 + packetSize
  }

  datatype BlockEffect = BlockEffect(piece: Piece, rest: Segments, out: seq<Outgoing>, accepted: Option<seq<byte>>)

  /** The size that the vector is given for a payload of `n` bytes, in 64 bits unsigned. */
  function NewSize(downloaded: nat, n: nat): nat {
    (downloaded + n) % TWO_TO_THE_64
  }

  /** The payload of a block: room behind what was downloaded, filled by as many receives as it
      takes.  If the sum wraps around, the first receive is handed bytes beyond the end of the data.  On
      a closed connection that has fewer bytes the receives go on for ever. */
  function ReceivePayload(piece: Piece, segs: Segments, closed: bool, n: nat, slack: seq<byte>)
    : (r: Outcome<BlockEffect>)
    requires NoEmpty(segs)
    ensures r.Ok? ==> NoEmpty(r.value.rest)
  {
    var d, size := piece.downloaded, NewSize(piece.downloaded, n);
    if size >= TWO_TO_THE_63 then Fails(LengthError)
    else if size < d + n then Fails(Undefined)
    else if n > |Concat(segs)| then
      if closed then Fails(Endless) else
      var room := WithSize(piece, size, slack);
      Ok(BlockEffect(room.(data := Written(room.data, d, Concat(segs))), [], [], None))
    else
      var payload := Concat(segs)[..n];
      var e := BlockReceived(piece, piece.index, payload, slack);
      Ok(BlockEffect(e.piece, Skip(segs, n), e.out, Some(payload)))
  }

  /** `receive_message_block` */
  function ReceiveBlock(piece: Piece, segs: Segments, closed: bool, length: uint32, slack: seq<byte>)
    : (r: Outcome<BlockEffect>)
    requires NoEmpty(segs)
    ensures r.Ok? ==> NoEmpty(r.value.rest)
  {
    if segs == [] && !closed then Ok(BlockEffect(piece, [], [], None))
    else
      var k := Taken(segs, 8);
      var rest := Skip(segs, k);
      if BlockIndex(Overlay(Concat(segs)[..k], Zeros(8))) != piece.index then Ok(BlockEffect(piece, rest, [], None))
      else ReceivePayload(piece, rest, closed, BlockLength(length), slack)
  }

  /** The prefix of a block that is cut behind its index: the rest of its offset is taken for payload. */
  lemma CutPrefixIsPayload(piece: Piece, segs: Segments, closed: bool, index: uint32, length: uint32, slack: seq<byte>)
    requires NoEmpty(segs) && segs != [] && 4 <= |segs[0]| < 8 && segs[0][..4] == HighFirst(index)
    ensures ReceiveBlock(piece, segs, closed, length, slack)
         == if index == piece.index then ReceivePayload(piece, segs[1..], closed, BlockLength(length), slack)
            else Ok(BlockEffect(piece, segs[1..], [], None))
  {
    hide Concat, HighFirst, ReceivePayload, BlockLength;
    TakenBytes(segs, 8);
    IndexRead(index, segs[0][4..] + Zeros(8)[|segs[0]|..]);
    var k := |segs[0]|;
    assert segs[0][..k] == segs[0] && Skip(segs, k) == segs[1..];
    assert segs[0] + Zeros(8)[|segs[0]|..] == HighFirst(index) + (segs[0][4..] + Zeros(8)[|segs[0]|..]);
  }

  lemma IndexRead(index: uint32, rest: seq<byte>)
    requires |rest| == 4
    ensures BlockIndex(HighFirst(index) + rest) == index
  {
    hide HighFirst;
    Words(index, 0, 0);
    assert (HighFirst(index) + rest)[..4] == HighFirst(index);
    Sent32(index);
    hide Received32, BigEndian.AsSmallEndian, Wrap32, BigEndian.Memory;
  }

  /** The bytes handed to the receives of a payload stay inside the data exactly if the message is
      long enough for the prefix of a block, or so little was downloaded that the sum does not wrap
      around; in that case the vector refuses the size. */
  lemma StaysInsideExactly(piece: Piece, segs: Segments, closed: bool, length: uint32, slack: seq<byte>)
    requires NoEmpty(segs) && piece.downloaded < TWO_TO_THE_63
    ensures var d, n := piece.downloaded, BlockLength(length);
            var r := ReceivePayload(piece, segs, closed, n, slack);
            && (r != Fails(Undefined) <==> length == 0 || length >= 9 || d < 9 - length)
            && (r == Fails(LengthError) <==>
                  if 1 <= length <= 8 then d < 9 - length else d + n >= TWO_TO_THE_63)
            && (r == Fails(Endless) <==>
                  !(1 <= length <= 8) && d + n < TWO_TO_THE_63 && closed && |Concat(segs)| < n)
  {
  }

  /** A block message of length 1 behind one block of a piece: the data shrinks to 16376 bytes, and
      the receive is handed 2^64 - 8 bytes from byte 16384 on. */
  lemma ShortBlockLeavesBuffer(piece: Piece, segs: Segments, closed: bool, slack: seq<byte>)
    requires NoEmpty(segs) && piece.downloaded == |piece.data| == MAX_BLOCK_SIZE
    ensures BlockLength(1) == TWO_TO_THE_64 - 8
    ensures WithSize(piece, NewSize(piece.downloaded, BlockLength(1)), slack).data == piece.data[..16376]
    ensures ReceivePayload(piece, segs, closed, BlockLength(1), slack) == Fails(Undefined)
  {
  }

  // ------------------------------------------------------------ the other bodies

  datatype BitsEffect = BitsEffect(theirs: seq<bv8>, rest: Segments, out: seq<Outgoing>)

  /** `receive_message_have`: the index is taken in the byte order of the host. */
  function ReceiveHave(theirs: seq<bv8>, segs: Segments, closed: bool, length: uint32, local: Word): (r: BitsEffect)
    requires NoEmpty(segs)
    ensures NoEmpty(r.rest) && r.out == []
  {
    if length != 5 || (segs == [] && !closed) then BitsEffect(theirs, segs, [])
    else
      var k := Taken(segs, 4);
      BitsEffect(WithBit(theirs, Read(Overlay(Concat(segs)[..k], local))), Skip(segs, k), [])
  }

  /** A `have` whose index is cut: the bytes that came, low one first, over those the variable held. */
  lemma HaveReceived(theirs: seq<bv8>, segs: Segments, closed: bool, local: Word)
    requires NoEmpty(segs) && segs != []
    ensures var k := if |segs[0]| <= 4 then |segs[0]| else 4;
            ReceiveHave(theirs, segs, closed, 5, local)
            == BitsEffect(WithBit(theirs, Read(segs[0][..k] + local[k..])), Skip(segs, k), [])
  {
    hide Skip, Concat, WithBit, Read;
    TakenBytes(segs, 4);
    var k := if |segs[0]| <= 4 then |segs[0]| else 4;
    assert k == 4 ==> segs[0][..k] + local[k..] == segs[0][..k];
  }

  /** How many bytes a bitfield message announces, in 32 bits unsigned. */
  function BitfieldSize(length: uint32): (n: uint32)
    ensures (n + 1 - length) % TWO_TO_THE_32 == 0
  {
    if length == 0 then TWO_TO_THE_32 - 1 else length - 1
  }

  /** `receive_message_bitfield`: a new array, filled by a single receive. */
  function ReceiveBitfield(segs: Segments, closed: bool, length: uint32, memory: seq<bv8>): (r: BitsEffect)
    requires NoEmpty(segs)
    ensures NoEmpty(r.rest)
    ensures segs == [] && !closed && length != 1 ==> r.out == [] && r.rest == []
  {
    var size := BitfieldSize(length);
    if size == 0 then BitsEffect([], segs, [InterestedToo])
    else if segs == [] && !closed then BitsEffect(Sized(memory, size), [], [])
    else
      var k := Taken(segs, size);
      BitsEffect(ToBits(Concat(segs)[..k]) + Sized(memory, size)[k..], Skip(segs, k), [InterestedToo])
  }

  /** What a bitfield leaves: the bytes of one receive, at their places, and behind them what the new array
      held. */
  lemma BitfieldReceived(segs: Segments, closed: bool, length: uint32, memory: seq<bv8>)
    requires NoEmpty(segs) && segs != [] && length > 1
    ensures var r, k := ReceiveBitfield(segs, closed, length, memory), Taken(segs, length - 1);
            && k == (if length - 1 <= |segs[0]| then length - 1 else |segs[0]|)
            && |r.theirs| == length - 1 && r.rest == Skip(segs, k) && r.out == [InterestedToo]
            && (forall i :: 0 <= i < k ==> r.theirs[i] as int == segs[0][i])
            && (forall i :: k <= i < length - 1 ==> r.theirs[i] == if i < |memory| then memory[i] else 0)
  {
    hide Skip, Concat;
    TakenBytes(segs, length - 1);
    var k, bs := Taken(segs, length - 1), Concat(segs);
    assert forall i :: 0 <= i < k ==> bs[..k][i] == segs[0][..k][i];
  }

  /** `receive_message_keep_alive`, which a choke of any length but 1 is taken for. */
  function KeepAliveReceived(link: Link, length: uint32, now: nat): Received {
    if length != 0 then Received(link.(healthy := true), [], None)
    else if now == link.keepAlive then Received(link.(healthy := false), [], None)
    else Received(link.(healthy := true, keepAlive := now), [KeepAlive], None)
  }

  // ------------------------------------------------------------ messages

  /** The switch over the message type.  The bodies of other messages stay in the stream. */
  function Dispatch(link: Link, kind: byte, length: uint32, look: Look, memory: Memory, now: nat, pieceLength: nat)
    : (r: Outcome<Received>)
    requires NoEmpty(link.segs)
    ensures r.Ok? ==> NoEmpty(r.value.link.segs)
  {
    var s := link.peer;
    match kind
    case 0 =>
      Ok(if length == 1 then Received(link.(peer := s.(choking := true)), [], None)
         else KeepAliveReceived(link, length, now))
    case 1 =>
      var e := DownloadNext(s.(choking := false), look, pieceLength);
      Ok(Received(link.(peer := e.state), e.out, None))
    case 2 => Ok(Received(link.(peer := s.(peerInterested := true)), [], None))
    case 3 => Ok(Received(link.(peer := s.(peerInterested := false)), [], None))
    case 4 =>
      var e := ReceiveHave(s.theirs, link.segs, link.closed, length, memory.local);
      Ok(Received(link.(peer := s.(theirs := e.theirs), segs := e.rest), e.out, None))
    case 5 =>
      var e := ReceiveBitfield(link.segs, link.closed, length, memory.bits);
      Ok(Received(link.(peer := s.(theirs := e.theirs), segs := e.rest), e.out, None))
    case 7 =>
      var e :- ReceiveBlock(s.piece, link.segs, link.closed, length, memory.slack);
      Ok(Received(link.(peer := s.(piece := e.piece), segs := e.rest), e.out, e.accepted))
    case _ => Ok(Received(link, [], None))
  }

  /** `receive_message` */
  function Receive(link: Link, look: Look, memory: Memory, now: nat, pieceLength: nat): (r: Outcome<Received>)
    requires NoEmpty(link.segs)
    ensures r.Ok? ==> NoEmpty(r.value.link.segs)
    ensures !link.ready || (link.segs == [] && !link.closed) ==> r == Ok(Received(link, [], None))
  {
    if !link.ready || (link.segs == [] && !link.closed) then Ok(Received(link, [], None))
    else
      var k := Taken(link.segs, HEADER);
      var header := Overlay(Concat(link.segs)[..k], Zeros(HEADER));
      Dispatch(link.(segs := Skip(link.segs, k)), header[4], LengthOf(header), look, memory, now, pieceLength)
  }

  // ------------------------------------------------------------ messages that arrive completely

  /** Where reading goes on after a message: a block of another piece is left in the stream behind
      its prefix. */
  function After(segs: Segments, m: Message, index: nat): (r: Segments)
    requires Arrives(segs, m)
    ensures NoEmpty(r)
  {
    if m.Block? && m.index != index then (ArrivingBody(segs, m); Skip(segs, HEADER + 8)) else Behind(segs, m)
  }

  /** The payload of a block of this piece. */
  function AcceptedOf(piece: Piece, m: Message): Option<seq<byte>> {
    if m.Block? && m.index == piece.index then Some(m.payload) else None
  }

  /** No vector is longer than 2^63 - 1 bytes. */
  predicate Fits(piece: Piece, m: Message) {
    m.Block? && m.index == piece.index ==> piece.downloaded + |m.payload| < TWO_TO_THE_63
  }

  lemma HaveArrives(segs: Segments, closed: bool, m: Message, theirs: seq<bv8>, local: Word)
    requires Arrives(segs, m) && m.Have?
    ensures HEADER <= |Concat(segs)|
    ensures ReceiveHave(theirs, Skip(segs, HEADER), closed, 5, local)
         == BitsEffect(WithBit(theirs, Read(m.raw)), Behind(segs, m), [])
    ensures |Body(m)| == 4
  {
    ArrivingBody(segs, m);
    var rest := Skip(segs, HEADER);
    assert Concat(rest)[..4] == m.raw && Skip(rest, 4) == Behind(segs, m);
    hide Skip, Concat, Frame, Arrives, Read, WithBit, Taken, FixedPart;
    OverlayWhole(m.raw, local);
  }

  lemma OverlayWhole(bs: seq<byte>, before: seq<byte>)
    requires |bs| == |before|
    ensures Overlay(bs, before) == bs
  {
  }

  lemma BitfieldArrives(segs: Segments, closed: bool, m: Message, memory: seq<bv8>)
    requires Arrives(segs, m) && m.Bitfield?
    ensures HEADER <= |Concat(segs)|
    ensures ReceiveBitfield(Skip(segs, HEADER), closed, 1 + |m.bits|, memory)
         == BitsEffect(ToBits(m.bits), Behind(segs, m), [InterestedToo])
  {
    hide Frame, Concat, Skip, Taken, ToBits, Sized;
    assert |Frame(m)| == HEADER + |m.bits| <= |Concat(segs)| && 1 + |m.bits| < TWO_TO_THE_32;
    if |m.bits| > 0 {
      ArrivingBody(segs, m);
      var rest := Skip(segs, HEADER);
      assert Concat(rest)[..|m.bits|] == m.bits && Skip(rest, |m.bits|) == Behind(segs, m);
      hide Arrives, Behind;
      assert ToBits(m.bits) + Sized(memory, |m.bits|)[|m.bits|..] == ToBits(m.bits);
    } else {
      hide Arrives;
      assert ToBits(m.bits) == [];
    }
  }

  lemma BlockArrives(segs: Segments, closed: bool, m: Message, piece: Piece, slack: seq<byte>)
    requires Arrives(segs, m) && m.Block? && Fits(piece, m)
    ensures HEADER <= |Concat(segs)| && 9 + |m.payload| < TWO_TO_THE_32
    ensures var e := BlockReceived(piece, m.index, m.payload, slack);
            ReceiveBlock(piece, Skip(segs, HEADER), closed, 9 + |m.payload|, slack)
            == Ok(BlockEffect(e.piece, After(segs, m, piece.index), e.out, AcceptedOf(piece, m)))
  {
    ArrivingBody(segs, m);
    ArrivingPayload(segs, m);
    BlockFields(m);
    var rest := Skip(segs, HEADER);
    assert Concat(rest)[..8] == Body(m)[..8];
    hide Skip, Concat, Resized, Frame, Arrives, Body, Taken, BlockReceived, FixedPart, Image, Swapped;
    OverlayWhole(Body(m)[..8], Zeros(8));
    PayloadArrives(piece, Skip(segs, HEADER + 8), closed, m, slack);
  }

  lemma PayloadArrives(piece: Piece, segs: Segments, closed: bool, m: Message, slack: seq<byte>)
    requires NoEmpty(segs) && m.Block? && Fits(piece, m) && 9 + |m.payload| < TWO_TO_THE_32
    requires |m.payload| <= |Concat(segs)| && Concat(segs)[..|m.payload|] == m.payload
    ensures m.index == piece.index ==>
              var e := BlockReceived(piece, m.index, m.payload, slack);
              ReceivePayload(piece, segs, closed, BlockLength(9 + |m.payload|), slack)
              == Ok(BlockEffect(e.piece, Skip(segs, |m.payload|), e.out, Some(m.payload)))
  {
    hide BlockReceived, Skip, Concat;
  }

  lemma SimpleArrives(segs: Segments, m: Message)
    requires Arrives(segs, m) && Body(m) == []
    ensures HEADER <= |Concat(segs)| && Behind(segs, m) == Skip(segs, HEADER)
  {
  }

  /** A message that arrives completely is handled as the model says, and the stream goes on behind
      it. */
  lemma ArrivingIsHandled(link: Link, m: Message, look: Look, memory: Memory, now: nat, pieceLength: nat)
    requires link.ready && Arrives(link.segs, m) && Fits(link.peer.piece, m)
    ensures var e := Handle(link.peer, m, look, memory.slack, pieceLength);
            Receive(link, look, memory, now, pieceLength)
            == Ok(Received(link.(peer := e.state, segs := After(link.segs, m, link.peer.piece.index)),
                           e.out, AcceptedOf(link.peer.piece, m)))
  {
    ArrivingHeader(link.segs, m);
    BodyIsHandled(link, m, look, memory, now, pieceLength);
    hide Skip, Concat, Frame, Body, Taken, Overlay, LengthOf, Arrives, Handle, Dispatch, After, AcceptedOf;
  }

  lemma BodyIsHandled(link: Link, m: Message, look: Look, memory: Memory, now: nat, pieceLength: nat)
    requires link.ready && Arrives(link.segs, m) && Fits(link.peer.piece, m)
    ensures HEADER <= |Concat(link.segs)| && 1 + |Body(m)| < TWO_TO_THE_32
    ensures var e := Handle(link.peer, m, look, memory.slack, pieceLength);
            Dispatch(link.(segs := Skip(link.segs, HEADER)), TypeOf(m), 1 + |Body(m)|, look, memory, now, pieceLength)
            == Ok(Received(link.(peer := e.state, segs := After(link.segs, m, link.peer.piece.index)),
                           e.out, AcceptedOf(link.peer.piece, m)))
  {
    match m
    case Have(_) => HaveIsHandled(link, m, look, memory, now, pieceLength);
    case Bitfield(_) => BitfieldIsHandled(link, m, look, memory, now, pieceLength);
    case Block(_, _, _) => BlockIsHandled(link, m, look, memory, now, pieceLength);
    case _ => SimpleIsHandled(link, m, look, memory, now, pieceLength);
    hide *;
  }

  lemma HaveIsHandled(link: Link, m: Message, look: Look, memory: Memory, now: nat, pieceLength: nat)
    requires Arrives(link.segs, m) && m.Have?
    ensures HEADER <= |Concat(link.segs)| && |Body(m)| == 4
    ensures var e := Handle(link.peer, m, look, memory.slack, pieceLength);
            Dispatch(link.(segs := Skip(link.segs, HEADER)), TypeOf(m), 1 + |Body(m)|, look, memory, now, pieceLength)
            == Ok(Received(link.(peer := e.state, segs := After(link.segs, m, link.peer.piece.index)), e.out,
                           AcceptedOf(link.peer.piece, m)))
  {
    HaveArrives(link.segs, link.closed, m, link.peer.theirs, memory.local);
    hide Skip, Concat, Frame, Body, Arrives, Taken, ReceiveHave, WithBit, Read;
  }

  lemma BitfieldIsHandled(link: Link, m: Message, look: Look, memory: Memory, now: nat, pieceLength: nat)
    requires Arrives(link.segs, m) && m.Bitfield?
    ensures HEADER <= |Concat(link.segs)| && 1 + |Body(m)| < TWO_TO_THE_32
    ensures var e := Handle(link.peer, m, look, memory.slack, pieceLength);
            Dispatch(link.(segs := Skip(link.segs, HEADER)), TypeOf(m), 1 + |Body(m)|, look, memory, now, pieceLength)
            == Ok(Received(link.(peer := e.state, segs := After(link.segs, m, link.peer.piece.index)), e.out,
                           AcceptedOf(link.peer.piece, m)))
  {
    BitfieldArrives(link.segs, link.closed, m, memory.bits);
    hide Skip, Concat, Frame, Arrives, Taken, ReceiveBitfield, ToBits;
  }

  lemma BlockIsHandled(link: Link, m: Message, look: Look, memory: Memory, now: nat, pieceLength: nat)
    requires Arrives(link.segs, m) && m.Block? && Fits(link.peer.piece, m)
    ensures HEADER <= |Concat(link.segs)| && 1 + |Body(m)| < TWO_TO_THE_32
    ensures var e := Handle(link.peer, m, look, memory.slack, pieceLength);
            Dispatch(link.(segs := Skip(link.segs, HEADER)), TypeOf(m), 1 + |Body(m)|, look, memory, now, pieceLength)
            == Ok(Received(link.(peer := e.state, segs := After(link.segs, m, link.peer.piece.index)), e.out,
                           AcceptedOf(link.peer.piece, m)))
  {
    hide Skip, Concat, Frame, Arrives, BlockReceived, ReceiveBlock, After, AcceptedOf, Wrap32, BigEndian.Memory;
    BlockArrives(link.segs, link.closed, m, link.peer.piece, memory.slack);
    BlockFields(m);
    assert |Body(m)| == 8 + |m.payload|;
  }

  lemma SimpleIsHandled(link: Link, m: Message, look: Look, memory: Memory, now: nat, pieceLength: nat)
    requires Arrives(link.segs, m) && Body(m) == [] && (m.Choke? || m.Unchoke? || m.Interested? || m.NotInterested?)
    ensures HEADER <= |Concat(link.segs)|
    ensures var e := Handle(link.peer, m, look, memory.slack, pieceLength);
            Dispatch(link.(segs := Skip(link.segs, HEADER)), TypeOf(m), 1, look, memory, now, pieceLength)
            == Ok(Received(link.(peer := e.state, segs := After(link.segs, m, link.peer.piece.index)), e.out,
                           AcceptedOf(link.peer.piece, m)))
  {
    SimpleArrives(link.segs, m);
    hide Skip, Concat, Frame, Arrives, DownloadNext;
  }

  // ------------------------------------------------------------ headers of any length

  /** Behind a header that came in one piece: what is left of the link. */
  function BehindHeader(link: Link): (r: Link)
    requires NoEmpty(link.segs) && Whole(link.segs, 5)
  {
    link.(segs := Skip(link.segs, 5))
  }

  lemma HeaderReceived(link: Link, length: uint32, kind: byte, look: Look, memory: Memory, now: nat, pieceLength: nat)
    requires link.ready && NoEmpty(link.segs) && Whole(link.segs, 5)
    requires link.segs[0][..5] == HighFirst(length) + [kind]
    ensures Receive(link, look, memory, now, pieceLength)
         == Dispatch(BehindHeader(link), kind, length, look, memory, now, pieceLength)
  {
    hide HighFirst, Dispatch, Skip, LengthOf, Overlay;
    TakenBytes(link.segs, 5);
    LengthRead(length, kind);
    OverlayWhole(link.segs[0][..5], Zeros(5));
  }

  /** A request (6), a port (9) or anything unknown leaves the connection as it is behind its header,
      and so does a `have` of a length other than 5.  An unchoke (1) selects, and `interested` (2) and
      `not interested` (3) are noted, whatever their length.  A choke (0) chokes only with length 1;
      with more it makes the socket healthy, and with none it is a keep-alive. */
  lemma HeaderAlone(link: Link, length: uint32, kind: byte, look: Look, memory: Memory, now: nat, pieceLength: nat)
    requires link.ready && NoEmpty(link.segs) && Whole(link.segs, 5)
    requires link.segs[0][..5] == HighFirst(length) + [kind]
    ensures var r, u, s := Receive(link, look, memory, now, pieceLength), BehindHeader(link), link.peer;
            && (kind == 6 || kind >= 8 || (kind == 4 && length != 5) ==> r == Ok(Received(u, [], None)))
            && (kind == 2 ==> r == Ok(Received(u.(peer := s.(peerInterested := true)), [], None)))
            && (kind == 3 ==> r == Ok(Received(u.(peer := s.(peerInterested := false)), [], None)))
            && (kind == 0 && length == 1 ==> r == Ok(Received(u.(peer := s.(choking := true)), [], None)))
            && (kind == 0 && length > 1 ==> r == Ok(Received(u.(healthy := true), [], None)))
            && (kind == 0 && length == 0 ==>
                  r == Ok(if now == link.keepAlive then Received(u.(healthy := false), [], None)
                          else Received(u.(healthy := true, keepAlive := now), [KeepAlive], None)))
            && (kind == 1 ==> r.Ok? && r.value.link == u.(peer := r.value.link.peer)
                              && !r.value.link.peer.choking && r.value.link.peer.theirs == s.theirs
                              && r.value.link.peer.peerInterested == s.peerInterested)
  {
    HeaderReceived(link, length, kind, look, memory, now, pieceLength);
    hide Receive, HighFirst, Skip, ReceiveBlock, ReceiveBitfield, Search, RequestsFor;
  }

  // ------------------------------------------------------------ messages that do not

  /** A header cut behind its length is completed with a zero type: an unchoke that arrives as four
      bytes and one byte chokes, and the last byte is taken for the start of the next message. */
  lemma CutUnchokeChokes(link: Link, look: Look, memory: Memory, now: nat, pieceLength: nat)
    requires link.ready && link.segs == [[0, 0, 0, 1], [1]]
    ensures Concat(link.segs) == Frame(Unchoke)
    ensures Receive(link, look, memory, now, pieceLength)
         == Ok(Received(link.(peer := link.peer.(choking := true), segs := [[1]]), [], None))
  {
    var header: seq<byte> := [0, 0, 0, 1, 0];
    CutUnchoke(link.segs);
    OneByteFrames();
    HeaderOfFrame(Choke);
    assert header[..HEADER] == header;
    hide Frame, LengthOf, Overlay, Concat, Skip, Taken, DownloadNext;
  }

  lemma CutUnchoke(segs: Segments)
    requires segs == [[0, 0, 0, 1], [1]]
    ensures Concat(segs) == [0, 0, 0, 1, 1] && Taken(segs, HEADER) == 4 && Skip(segs, 4) == [[1]]
    ensures Overlay(Concat(segs)[..4], Zeros(HEADER)) == [0, 0, 0, 1, 0]
  {
    assert segs[1..] == [[1]] && [[1]][1..] == [];
    assert Concat([[1]]) == [1];
    assert Concat(segs) == [0, 0, 0, 1] + [1];
  }

  /** A keep-alive has four bytes (BEP 3, section "peer messages"), and a header is read of five.  It is
      answered, and the stream goes on behind it exactly if nothing follows it in its segment; otherwise the
      first byte of the next message is taken with it. */
  lemma KeepAliveTakesNext(link: Link, look: Look, memory: Memory, now: nat, pieceLength: nat)
    requires link.ready && NoEmpty(link.segs) && link.segs != [] && now != link.keepAlive
    requires [0, 0, 0, 0] <= link.segs[0] && (|link.segs[0]| > 4 ==> link.segs[0][4] == 0)
    ensures var r := Receive(link, look, memory, now, pieceLength);
            && r.Ok? && r.value.out == [KeepAlive] && r.value.link.healthy
            && (Concat(r.value.link.segs) == Concat(link.segs)[4..] <==> |link.segs[0]| == 4)
  {
    hide Skip, LengthOf, Overlay;
    var segs, k := link.segs, Taken(link.segs, HEADER);
    TakenBytes(segs, HEADER);
    assert Overlay(segs[0][..k], Zeros(HEADER)) == Zeros(HEADER) by {
      ZerosOverZeros(segs[0][..k]);
    }
    NoHeader();
    assert |Concat(segs)[4..]| == |Concat(segs)| - 4 && |Concat(segs)[k..]| == |Concat(segs)| - k;
  }

  lemma ZerosOverZeros(bs: seq<byte>)
    requires |bs| <= HEADER && forall i :: 0 <= i < |bs| ==> bs[i] == 0
    ensures Overlay(bs, Zeros(HEADER)) == Zeros(HEADER)
  {
  }

  // ------------------------------------------------------------ the end of a connection

  lemma NoHeader()
    ensures Overlay([], Zeros(HEADER)) == Zeros(HEADER)
    ensures Zeros(HEADER)[4] == 0 && LengthOf(Zeros(HEADER)) == 0
  {
    assert Zeros(HEADER)[..4] == Wrap32(0).Memory() by {
      WrapMemory32(0);
    }
    ReceivedIsSent(0, 0);
    WrapRoundTrips(0, 0, 0);
  }

  /** Behind the last byte of a closed connection every receive reports zero bytes, so a message reads
      as a keep-alive: it is answered once a second, and the second one in a second ends the worker. */
  lemma ClosedReadsAsKeepAlive(link: Link, look: Look, memory: Memory, now: nat, pieceLength: nat)
    requires link.ready && link.segs == [] && link.closed
    ensures Receive(link, look, memory, now, pieceLength)
         == Ok(if now == link.keepAlive then Received(link.(healthy := false), [], None)
               else Received(link.(healthy := true, keepAlive := now), [KeepAlive], None))
  {
    NoHeader();
    hide LengthOf, Overlay;
  }
}
