/** The class `torrent_peer`: message handlers that change its fields in place, reading from a
    connection whose bytes arrive in arbitrary segments. */
module TorrentPeer {
  import opened Basics
  import opened Bits
  import opened DynamicBitset
  import opened Endian
  import opened PeerMachine
  import opened PeerWire
  import opened PieceNumbers
  import opened Reception
  import opened Stream

  /** What is used of the class `peer`: our own bits and the torrent's piece length. */
  class Ourself {
    const bitfieldPieces: DynamicBitset
    const pieceLength: nat

    constructor (bits: DynamicBitset, length: nat)
      ensures bitfieldPieces == bits && pieceLength == length
    {
      bitfieldPieces, pieceLength := bits, length;
    }
  }

  class TorrentPeer {
    const tcp: Tcp
    const bitfield: DynamicBitset
    var piece: Piece
    var handshakeComplete: bool
    var socketHealthy: bool
    var amChoking: bool
    var peerInterested: bool
    var lastKeepAlive: nat

    ghost predicate Valid()
      reads this, tcp, bitfield, bitfield.bytes
    {
      && tcp.Valid() && bitfield.alternateBytes == null && bitfield.Valid()
      && piece.downloaded < TWO_TO_THE_63
    }

    ghost function Snapshot(): PeerState
      reads this, bitfield, bitfield.bytes
      requires bitfield.alternateBytes == null && bitfield.Valid()
    {
      PeerState(amChoking, peerInterested, bitfield.Contents(), piece)
    }

    /** The state that the next message meets. */
    ghost function Connection(): (link: Link)
      reads this, tcp, bitfield, bitfield.bytes
      requires Valid()
      ensures NoEmpty(link.segs)
    {
      Link(handshakeComplete, socketHealthy, lastKeepAlive, Snapshot(), tcp.segments, tcp.closed)
    }

    /** Our bits are kept elsewhere than the peer's. */
    ghost predicate Apart(ourself: Ourself)
      reads this, bitfield, ourself.bitfieldPieces, ourself.bitfieldPieces.Data()
    {
      && ourself.bitfieldPieces.Valid()
      && ourself.bitfieldPieces != bitfield && ourself.bitfieldPieces.Data() != bitfield.bytes
    }

    constructor (connection: Tcp, bits: DynamicBitset)
      ensures tcp == connection && bitfield == bits
      ensures connection.Valid() && bits.Valid() && bits.alternateBytes == null ==> Valid()
      ensures piece == NO_PIECE && !handshakeComplete && amChoking && !peerInterested && lastKeepAlive == 0
    {
      tcp, bitfield := connection, bits;
      piece, handshakeComplete, socketHealthy := NO_PIECE, false, false;
      amChoking, peerInterested, lastKeepAlive := true, false, 0;
    }

    /** What a successful `handshake` leaves behind; its exchange of bytes is not modelled. */
    method HandshakeSucceeded()
      modifies this`handshakeComplete, this`socketHealthy
      ensures handshakeComplete && socketHealthy
    {
      handshakeComplete := true;
      socketHealthy := true;
    }

    // ---------------------------------------------------------- requesting

    method SendMessageRequest(offset: uint32)
      modifies tcp`sent
      ensures tcp.sent == old(tcp.sent) + [Packet(RequestAt(piece, offset))]
    {
      hide Packet;
      tcp.Send(Packet(Request(ToU32(piece.index), ToU32(piece.downloaded + offset), MAX_BLOCK_SIZE)));
    }

    /** The request loop, over as many whole blocks as a piece has, counted in 32 bits. */
    method FillOutstandingRequests(ourself: Ourself)
      modifies tcp`sent
      ensures tcp.sent == old(tcp.sent) + Packets(RequestsFor(piece, ourself.pieceLength))
    {
      hide Packet, RequestAt;
      var outstanding := ToU32(ourself.pieceLength / MAX_BLOCK_SIZE);
      ghost var all := RequestsFor(piece, ourself.pieceLength);
      var i := 0;
      while i < outstanding
        invariant 0 <= i <= outstanding
        invariant tcp.sent == old(tcp.sent) + Packets(all[..i])
      {
        assert all[..i + 1] == all[..i] + [all[i]];
        PacketsMore(all[..i], [all[i]]);
        SendMessageRequest(ToU32(MAX_BLOCK_SIZE * i));
        assert Packets([all[i]]) == [Packet(all[i])];
        i := i + 1;
      }
      assert all[..i] == all;
    }

    method DetermineDownloadPiece(ourself: Ourself, skips: nat) returns (r: bool)
      requires Valid() && Apart(ourself)
      modifies this`piece
      ensures var found := Search(ourself.bitfieldPieces.Contents(), bitfield.Contents(), skips);
              && r == found.Some?
              && piece == if r then Piece(found.value, ourself.pieceLength, 0, true, [], []) else old(piece)
    {
      var found := ourself.bitfieldPieces.FindPositiveBitCompliment(bitfield, skips);
      if found.None? {
        return false;
      }
      piece := NO_PIECE;
      piece := piece.(index := found.value);
      piece := piece.(size := ourself.pieceLength);
      piece := piece.(present := true);
      return true;
    }

    method DownloadNextPiece(ourself: Ourself, skips: nat) returns (r: bool)
      requires Valid() && Apart(ourself)
      modifies this`piece, tcp`sent
      ensures Valid() && Apart(ourself)
      ensures ourself.bitfieldPieces.Contents() == old(ourself.bitfieldPieces.Contents())
      ensures var look := Look(ourself.bitfieldPieces.Contents(), skips);
              var e := DownloadNext(old(Snapshot()), look, ourself.pieceLength);
              && Snapshot() == e.state && tcp.sent == old(tcp.sent) + Packets(e.out)
    {
      assert Packets([]) == [] && tcp.sent + [] == tcp.sent;
      if amChoking {
        return false;
      }
      if !piece.present {
        var determined := DetermineDownloadPiece(ourself, skips);
        if !determined {
          return false;
        }
      }
      if piece.downloaded != 0 && piece.downloaded >= piece.size {
        return false;
      }
      FillOutstandingRequests(ourself);
      return true;
    }

    // ---------------------------------------------------------- messages

    /** The receive loop.  Unless the payload reaches beyond the end of the data, every receive is
        handed bytes inside the data.  A receive of zero bytes is one of a closed connection, and so are
        all that follow: then the loop never ends. */
    method FillPayload(blockLength: nat) returns (r: Outcome<bool>)
      requires Valid() && (blockLength == 0 ==> piece.downloaded <= |piece.data|)
      modifies this`piece, tcp`segments
      ensures Valid()
      ensures var rest, d := old(tcp.segments), old(piece).downloaded;
              if blockLength > 0 && d + blockLength > |old(piece).data| then r == Fails(Undefined)
              else if blockLength > |Concat(rest)| && tcp.closed then r == Fails(Endless)
              else
                var n := if blockLength <= |Concat(rest)| then blockLength else |Concat(rest)|;
                && r == Ok(blockLength <= |Concat(rest)|) && tcp.segments == Skip(rest, n)
                && piece == old(piece).(data := Written(old(piece).data, d, Concat(rest)[..n]))
    {
      hide Skip, Concat, NoEmpty, Taken, Written;
      ghost var rest, data := tcp.segments, piece.data;
      SkipNothing(rest);
      var d, packetOffset := piece.downloaded, 0;
      WrittenNothing(data, d);
      while packetOffset < blockLength
        invariant 0 <= packetOffset <= blockLength && packetOffset <= |Concat(rest)|
        invariant tcp.Valid() && tcp.segments == Skip(rest, packetOffset)
        invariant piece == old(piece).(data := piece.data) && |piece.data| == |data|
        invariant packetOffset > 0 ==> d + blockLength <= |data|
        invariant d + packetOffset <= |data| ==> piece.data == Written(data, d, Concat(rest)[..packetOffset])
        decreases blockLength - packetOffset
      {
        if d + blockLength > |piece.data| {
          return Fails(Undefined);
        }
        var received := tcp.Receive(blockLength - packetOffset);
        if received.None? {
          NothingLeft(rest, packetOffset);
          return Ok(false);
        }
        var chunk := received.value;
        if chunk == [] {
          NothingLeft(rest, packetOffset);
          return Fails(Endless);
        }
        ChunkReceived(rest, packetOffset, |chunk|);
        WrittenMore(data, d, Concat(rest)[..packetOffset], chunk);
        piece := piece.(data := Written(piece.data, d + packetOffset, chunk));
        packetOffset := packetOffset + |chunk|;
      }
      return Ok(true);
    }

    /** Gives the data a new size and receives a payload behind what was downloaded, in as many pieces
        as it takes. */
    method ReceivePayload(blockLength: nat, slack: seq<byte>) returns (r: Outcome<bool>)
      requires Valid() && blockLength < TWO_TO_THE_64
      modifies this`piece, tcp
      ensures Valid()
      ensures match Reception.ReceivePayload(old(piece), old(tcp.segments), tcp.closed, blockLength, slack)
              case Fails(f) => r == Fails(f)
              case Ok(e) =>
                && r == Ok(e.accepted.Some?) && piece == e.piece && tcp.segments == e.rest
                && tcp.sent == old(tcp.sent) + Packets(e.out)
      ensures r.Ok? ==> tcp.sent == old(tcp.sent) + if r.value then Announcement(piece) else []
    {
      hide Concat, Resized, Taken, Packet, Packets, Skip, Announcement;
      ghost var rest := tcp.segments;
      assert Packets([]) == [] && tcp.sent + [] == tcp.sent;
      var size := NewSize(piece.downloaded, blockLength);
      if size >= TWO_TO_THE_63 {
        return Fails(LengthError);
      }
      piece := WithSize(piece, size, slack);
      assert blockLength == 0 ==> size == piece.downloaded;
      ghost var d, room := piece.downloaded, piece.data;
      r := FillPayload(blockLength);
      if r == Ok(false) {
        SkipAll(rest);
      }
      if r == Ok(true) {
        PayloadBehind(room, d, Concat(rest)[..blockLength]);
        PayloadComplete(blockLength);
      }
    }

    /** Counts the payload behind what was downloaded, and announces the piece if that completes it. */
    method PayloadComplete(blockLength: nat)
      modifies this`piece, tcp`sent
      ensures piece == old(piece).(downloaded := old(piece).downloaded + blockLength)
      ensures tcp.sent == old(tcp.sent) +
                Packets(if piece.downloaded >= piece.size then [HavePiece(ToU32(piece.index)), InterestedToo] else [])
      ensures tcp.sent == old(tcp.sent) + Announcement(piece)
      ensures tcp.segments == old(tcp.segments)
    {
      hide Packet, HighFirst;
      PacketBytes(HavePiece(ToU32(piece.index)));
      PacketBytes(InterestedToo);
      piece := piece.(downloaded := piece.downloaded + blockLength);
      if piece.downloaded >= piece.size {
        tcp.Send(Packet(HavePiece(ToU32(piece.index))));
        tcp.Send(Packet(InterestedToo));
      }
      assert Packets([HavePiece(ToU32(piece.index)), InterestedToo])
          == [Packet(HavePiece(ToU32(piece.index))), Packet(InterestedToo)];
      assert Packets([]) == [] && old(tcp.sent) + [] == old(tcp.sent);
    }

    /** A block: its prefix is one receive, and its payload as many as it takes. */
    method ReceiveMessageBlock(length: uint32, slack: seq<byte>) returns (r: Outcome<bool>)
      requires Valid()
      modifies this`piece, tcp
      ensures Valid()
      ensures match ReceiveBlock(old(piece), old(tcp.segments), tcp.closed, length, slack)
              case Fails(f) => r == Fails(f)
              case Ok(e) =>
                && r == Ok(e.accepted.Some?) && piece == e.piece && tcp.segments == e.rest
                && tcp.sent == old(tcp.sent) + Packets(e.out)
    {
      hide Skip, Concat, Resized, NoEmpty, Taken, Packet, Overlay, BlockIndex, BlockLength, Reception.ReceivePayload;
      assert Packets([]) == [] && tcp.sent + [] == tcp.sent;
      var blockLength := BlockLength(length);
      var prefix := tcp.Receive(8);
      if prefix.None? {
        return Ok(false);
      }
      var payload := Overlay(prefix.value, Zeros(8));
      if BlockIndex(payload) != piece.index {
        return Ok(false);
      }
      r := ReceivePayload(blockLength, slack);
    }

    /** The new health of the socket. */
    method ReceiveMessageKeepAlive(length: uint32, now: nat) returns (r: bool)
      requires Valid()
      modifies this`lastKeepAlive, tcp`sent
      ensures Valid()
      ensures var e := KeepAliveReceived(old(Connection()), length, now);
              && Connection() == e.link.(healthy := old(socketHealthy)) && r == e.link.healthy
              && tcp.sent == old(tcp.sent) + Packets(e.out)
    {
      assert Packets([]) == [] && tcp.sent + [] == tcp.sent && Packets([KeepAlive]) == [Packet(KeepAlive)];
      if length != 0 {
        return true;
      }
      if now == lastKeepAlive {
        return false;
      }
      lastKeepAlive := now;
      tcp.Send(Packet(KeepAlive));
      return true;
    }

    /** `local` is what the local variable for the index holds before the receive. */
    method ReceiveMessageHave(length: uint32, local: Word)
      requires Valid()
      modifies tcp`segments, bitfield.bytes
      ensures Valid()
      ensures var e := ReceiveHave(old(bitfield.Contents()), old(tcp.segments), tcp.closed, length, local);
              bitfield.Contents() == e.theirs && tcp.segments == e.rest
    {
      hide Skip, Concat, Taken, NoEmpty, Overlay, WithBit, Read;
      if length != 5 {
        return;
      }
      var raw := tcp.Receive(4);
      if raw.None? {
        return;
      }
      var done := bitfield.BitSet(Read(Overlay(raw.value, local)));
    }

    /** New bytes for the peer's bits, filled by a single receive. */
    method ReceiveMessageBitfield(length: uint32, memory: seq<bv8>)
      requires Valid()
      modifies tcp, bitfield
      ensures Valid() && fresh(bitfield.bytes)
      ensures var e := ReceiveBitfield(old(tcp.segments), tcp.closed, length, memory);
              && bitfield.Contents() == e.theirs && tcp.segments == e.rest
              && tcp.sent == old(tcp.sent) + Packets(e.out)
      ensures KeptWhole(old(tcp.segments), length, bitfield.Contents(), old(tcp.sent), tcp.sent)
    {
      hide Skip, Concat, Taken, NoEmpty, Packet, ToBits, Keeps, Sized;
      WholeBitfieldKept(tcp.segments, tcp.closed, length, memory);
      assert Packets([]) == [] && tcp.sent + [] == tcp.sent && Packets([InterestedToo]) == [Packet(InterestedToo)];
      var size := BitfieldSize(length);
      bitfield.Resize(size, memory);
      var received := tcp.Receive(size);
      if received.None? {
        return;
      }
      bitfield.Store(ToBits(received.value));
      tcp.Send(Packet(InterestedToo));
    }

    /** `receive_message`, for every way the bytes are cut.  In particular an unchoke whose header is
        cut behind its length chokes. */
    method ReceiveMessage(ourself: Ourself, skips: nat, memory: Memory, now: nat) returns (r: Outcome<()>)
      requires Valid() && Apart(ourself)
      modifies this, tcp, bitfield, bitfield.bytes
      ensures Valid() && Apart(ourself)
      ensures ourself.bitfieldPieces.Contents() == old(ourself.bitfieldPieces.Contents())
      ensures bitfield.bytes == old(bitfield.bytes) || fresh(bitfield.bytes)
      ensures match Receive(old(Connection()), Look(ourself.bitfieldPieces.Contents(), skips), memory, now,
                            ourself.pieceLength)
              case Fails(f) => r == Fails(f)
              case Ok(e) =>
                r == Ok(()) && Connection() == e.link && tcp.sent == old(tcp.sent) + Packets(e.out)
      ensures old(handshakeComplete && tcp.segments == [[0, 0, 0, 1], [1]]) ==> amChoking && tcp.segments == [[1]]
      ensures forall bits :: old(handshakeComplete) && Arrives(old(tcp.segments), Bitfield(bits)) ==>
                Keeps(bitfield.Contents(), bits) && tcp.sent == old(tcp.sent) + [[0, 0, 0, 1, 2]]
    {
      hide Skip, Concat, Taken, NoEmpty, Overlay, LengthOf, Packet, Reception.Dispatch, Search, Frame, Resized;
      hide Arrives, Keeps;
      ghost var link, look := Connection(), Look(ourself.bitfieldPieces.Contents(), skips);
      if handshakeComplete && tcp.segments == [[0, 0, 0, 1], [1]] {
        CutUnchokeChokes(link, look, memory, now, ourself.pieceLength);
      }
      forall bits | handshakeComplete && Arrives(tcp.segments, Bitfield(bits))
        ensures var e := Receive(link, look, memory, now, ourself.pieceLength);
                && e.Ok? && Keeps(e.value.link.peer.theirs, bits) && Packets(e.value.out) == [[0, 0, 0, 1, 2]]
      {
        ArrivingBitfieldKept(link, bits, look, memory, now, ourself.pieceLength);
      }
      assert Packets([]) == [] && tcp.sent + [] == tcp.sent;
      r := Ok(());
      if !handshakeComplete {
        return;
      }
      var received := tcp.Receive(HEADER);
      if received.None? {
        return;
      }
      var header := Overlay(received.value, Zeros(HEADER));
      r := Dispatch(ourself, header[4], LengthOf(header), skips, memory, now);
    }

    /** The switch over the message type. */
    method Dispatch(ourself: Ourself, kind: byte, length: uint32, skips: nat, memory: Memory, now: nat)
      returns (r: Outcome<()>)
      requires Valid() && Apart(ourself)
      modifies this, tcp, bitfield, bitfield.bytes
      ensures Valid() && Apart(ourself)
      ensures ourself.bitfieldPieces.Contents() == old(ourself.bitfieldPieces.Contents())
      ensures bitfield.bytes == old(bitfield.bytes) || fresh(bitfield.bytes)
      ensures match Reception.Dispatch(old(Connection()), kind, length, Look(ourself.bitfieldPieces.Contents(), skips),
                                       memory, now, ourself.pieceLength)
              case Fails(f) => r == Fails(f)
              case Ok(e) =>
                r == Ok(()) && Connection() == e.link && tcp.sent == old(tcp.sent) + Packets(e.out)
    {
      hide Skip, Concat, Taken, NoEmpty, Overlay, Packet, Search, DownloadNext;
      hide ReceiveBlock, ReceiveHave, ReceiveBitfield, KeepAliveReceived, KeptWhole, Members;
      hide Packets;
      NothingSent(tcp.sent);
      r := Ok(());
      match kind {
        case 0 =>
          if length == 1 {
            amChoking := true;
          } else {
            socketHealthy := ReceiveMessageKeepAlive(length, now);
          }
        case 1 =>
          amChoking := false;
          var started := DownloadNextPiece(ourself, skips);
        case 2 =>
          peerInterested := true;
        case 3 =>
          peerInterested := false;
        case 4 =>
          ReceiveMessageHave(length, memory.local);
        case 5 =>
          ReceiveMessageBitfield(length, memory.bits);
        case 7 =>
          var done := ReceiveMessageBlock(length, memory.slack);
          if done.Fails? {
            return Fails(done.fault);
          }
        case _ =>
      }
    }

    method EmptyDownloadPiece()
      modifies this`piece
      ensures piece == Emptied(old(piece))
    {
      piece := piece.(spare := piece.data + piece.spare, data := []);
      piece := piece.(present := false);
    }
  }

  /** Once a piece is complete: a `have` with its index, and an `interested`. */
  function Announcement(piece: Piece): seq<seq<byte>> {
    if piece.downloaded < piece.size then []
    else [[0, 0, 0, 5, 4] + HighFirst(ToU32(piece.index)), [0, 0, 0, 1, 2]]
  }

  /** A bitfield that stands in one segment: what is kept of it are its bits, and interest is sent. */
  ghost predicate KeptWhole(segs: Segments, length: uint32, bits: seq<bv8>, before: seq<seq<byte>>,
                            sent: seq<seq<byte>>) {
    segs != [] && 1 < length <= 1 + |segs[0]| ==>
      Keeps(bits, segs[0][..length - 1]) && sent == before + [[0, 0, 0, 1, 2]]
  }

  lemma InterestedSent()
    ensures Packets([InterestedToo]) == [[0, 0, 0, 1, 2]]
  {
    PacketBytes(InterestedToo);
    hide Packet;
  }

  /** A bitfield that one receive takes whole. */
  lemma WholeBitfieldKept(segs: Segments, closed: bool, length: uint32, memory: seq<bv8>)
    requires NoEmpty(segs)
    ensures segs != [] && 1 < length <= 1 + |segs[0]| ==>
              var e := ReceiveBitfield(segs, closed, length, memory);
              Keeps(e.theirs, segs[0][..length - 1]) && Packets(e.out) == [[0, 0, 0, 1, 2]]
  {
    if segs != [] && 1 < length <= 1 + |segs[0]| {
      InterestedSent();
      BitfieldReceived(segs, closed, length, memory);
      hide ReceiveBitfield, Taken, Concat, Skip, Keeps;
      SameBytesKept(ReceiveBitfield(segs, closed, length, memory).theirs, segs[0][..length - 1]);
    }
  }

  lemma ArrivingBitfieldKept(link: Link, bits: seq<byte>, look: Look, memory: Memory, now: nat, pieceLength: nat)
    requires link.ready && Arrives(link.segs, Bitfield(bits))
    ensures var e := Receive(link, look, memory, now, pieceLength);
            e.Ok? && Keeps(e.value.link.peer.theirs, bits) && Packets(e.value.out) == [[0, 0, 0, 1, 2]]
  {
    hide Receive, Arrives, Keeps, After;
    InterestedSent();
    ArrivingIsHandled(link, Bitfield(bits), look, memory, now, pieceLength);
    SameBytesKept(ToBits(bits), bits);
  }

  lemma SkipNothing(rest: Segments)
    requires NoEmpty(rest)
    ensures Skip(rest, 0) == rest
  {
  }

  lemma SkipAll(rest: Segments)
    requires NoEmpty(rest)
    ensures Skip(rest, |Concat(rest)|) == [] && Concat(rest)[..|Concat(rest)|] == Concat(rest)
  {
    var r := Skip(rest, |Concat(rest)|);
    assert Concat(r) == [];
  }

  lemma NothingLeft(rest: Segments, n: nat)
    requires NoEmpty(rest) && n <= |Concat(rest)| && Skip(rest, n) == []
    ensures n == |Concat(rest)| && Concat(rest)[..n] == Concat(rest)
  {
    assert |Concat(rest)[n..]| == |Concat(rest)| - n;
  }

  lemma ChunkReceived(rest: Segments, n: nat, k: nat)
    requires NoEmpty(rest) && n <= |Concat(rest)| && k <= |Concat(Skip(rest, n))|
    ensures n + k <= |Concat(rest)| && Skip(Skip(rest, n), k) == Skip(rest, n + k)
    ensures Concat(rest)[..n] + Concat(Skip(rest, n))[..k] == Concat(rest)[..n + k]
  {
    SkipSkip(rest, n, k);
    var all := Concat(rest);
    hide Concat, Skip;
    assert all[n..][..k] == all[n..n + k];
  }

  lemma WrittenNothing(data: seq<byte>, at: nat)
    ensures at <= |data| ==> Written(data, at, []) == data
  {
  }

  lemma WrittenMore(data: seq<byte>, at: nat, a: seq<byte>, b: seq<byte>)
    requires at + |a| + |b| <= |data|
    ensures Written(Written(data, at, a), at + |a|, b) == Written(data, at, a + b)
  {
  }

  lemma PayloadBehind(data: seq<byte>, at: nat, payload: seq<byte>)
    ensures at + |payload| == |data| ==> Written(data, at, payload) == data[..at] + payload
  {
  }
}
