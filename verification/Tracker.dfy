/** Announcing to a tracker: the peer list of an HTTP response and of a UDP datagram. */
module Tracker {
  import opened Basics
  import opened Endian
  import opened CompactPeers
  import opened Http
  import opened TargetTree
  import opened Bencode
  import opened BencodeMachine
  import opened BencodeTheorems
  import opened BencodeMap

  const PEERS: seq<byte> := Ascii("peers")

  datatype Announcement = PeersReceived | NotCompact | ReceiveFailed | WrongTransaction | WrongAction

  /** The 20-byte header of a UDP announce reply is five 32-bit integers. */
  const UDP_HEADER: nat := 20

  function Field(reply: seq<byte>, k: nat): uint32
    requires 4 * (k + 1) <= |reply|
  {
    Received32(reply[4 * k..4 * (k + 1)]).AsSmallEndian()
  }

  /** The reply that a tracker sends (BEP 15, section "UDP tracker protocol"). */
  function UdpReply(action: uint32, transaction: uint32, interval: uint32, leechers: uint32, seeders: uint32,
                    ps: seq<PeerAddress>): (bs: seq<byte>)
    ensures |bs| == 20 + 6 * |ps|
  {
    Wrap32(action).Memory() + Wrap32(transaction).Memory() + Wrap32(interval).Memory()
    + Wrap32(leechers).Memory() + Wrap32(seeders).Memory() + EncodePeers(ps)
  }

  /** What a client makes of the fields of a reply: the transaction must be its own, the action 1. */
  function Expected(own: uint32, action: uint32, transaction: uint32): Announcement {
    if transaction != own then WrongTransaction else if action != 1 then WrongAction else PeersReceived
  }

  lemma FiveWords(a: Word, b: Word, c: Word, d: Word, e: Word, rest: seq<byte>)
    ensures var bs := a + b + c + d + e + rest;
            bs[0..4] == a && bs[4..8] == b && bs[8..12] == c && bs[20..] == rest
  {
  }

  /** For all fields and all peers: a reply is accepted exactly if its transaction and its action are
      the expected ones, and its interval and its peers, as far as there is room for them, are read
      back from its bytes. */
  lemma ReplyDecodes(own: uint32, action: uint32, transaction: uint32, interval: uint32, leechers: uint32,
                     seeders: uint32, ps: seq<PeerAddress>)
    ensures var reply := UdpReply(action, transaction, interval, leechers, seeders, ps);
            && Checked(own, Some(reply)) == Expected(own, action, transaction)
            && Field(reply, 2) == interval
            && DecodeFrom(Overlaid(reply[20..]), 0) == Announced(ps, 1024)
  {
    hide BigEndian.AsSmallEndian, Image, Received32, DecodeFrom, Announced, Overlaid, EncodePeers;
    FiveWords(Wrap32(action).Memory(), Wrap32(transaction).Memory(), Wrap32(interval).Memory(),
              Wrap32(leechers).Memory(), Wrap32(seeders).Memory(), EncodePeers(ps));
    hide BigEndian.Memory;
    ReceivedIsSent(0, action);
    ReceivedIsSent(0, transaction);
    ReceivedIsSent(0, interval);
    WrapRoundTrips(0, action, 0);
    WrapRoundTrips(0, transaction, 0);
    WrapRoundTrips(0, interval, 0);
    DecodeEncoded(ps);
  }

  /** A reply byte by byte: to transaction 7, to ask again in half an hour, and one peer, 127.0.0.1:8080. */
  lemma OneReply()
    ensures var reply := [0, 0, 0, 1, 0, 0, 0, 7, 0, 0, 7, 8, 0, 0, 0, 2, 0, 0, 0, 3, 127, 0, 0, 1, 31, 144];
            reply == UdpReply(1, 7, 1800, 2, 3, [LOOPBACK])
  {
    hide Image, Swapped, EncodePeers, Wrap32, BigEndian.Memory;
    ReplyWords();
    LoopbackBytes();
    var words: seq<byte> := [0, 0, 0, 1] + [0, 0, 0, 7] + [0, 0, 7, 8] + [0, 0, 0, 2] + [0, 0, 0, 3];
    assert words == [0, 0, 0, 1, 0, 0, 0, 7, 0, 0, 7, 8, 0, 0, 0, 2, 0, 0, 0, 3];
    assert UdpReply(1, 7, 1800, 2, 3, [LOOPBACK]) == words + [127, 0, 0, 1, 31, 144];
  }

  lemma ReplyWords()
    ensures Wrap32(1).Memory() == [0, 0, 0, 1] && Wrap32(7).Memory() == [0, 0, 0, 7]
    ensures Wrap32(1800).Memory() == [0, 0, 7, 8]
    ensures Wrap32(2).Memory() == [0, 0, 0, 2] && Wrap32(3).Memory() == [0, 0, 0, 3]
  {
    hide Image, Swapped, Reverse, Wrap32, BigEndian.Memory;
    WrapMemory32(1);
    WrapMemory32(7);
    WrapMemory32(1800);
    WrapMemory32(2);
    WrapMemory32(3);
  }

  /** 127.0.0.1:8080 */
  const LOOPBACK: PeerAddress := PeerAddress(127 + 0x100_0000, 8080)

  lemma LoopbackBytes()
    ensures EncodePeers([LOOPBACK]) == [127, 0, 0, 1, 31, 144]
  {
    ImageOf32(LOOPBACK.sAddr);
    WrapMemory16(8080);
    hide Image, Wrap16;
    assert [LOOPBACK][1..] == [];
  }

  /** Which announcement a UDP reply is, checked in the order of the source. */
  function Checked(transaction: uint32, reply: Option<seq<byte>>): Announcement {
    if reply.None? || |reply.value| < UDP_HEADER then ReceiveFailed
    else if Field(reply.value, 1) != transaction then WrongTransaction
    else if Field(reply.value, 0) != 1 then WrongAction
    else PeersReceived
  }

  /** A response byte by byte: a status line, an empty line, and a dictionary with one peer under `peers`. */
  lemma OneResponse(line: seq<byte>)
    requires HeaderLine(line)
    ensures var record := [127, 0, 0, 1, 31, 144];
            var body := [100, 53, 58, 112, 101, 101, 114, 115, 54, 58] + record + [101];
            IsAnnounceResponse(line + [13, 10, 13, 10] + body, [line], DictValue([Entry(PEERS, StrValue(record))]),
                               [LOOPBACK])
  {
    hide EncodePeers, Ascii, HeaderLine, LastValue, Encode;
    LoopbackBytes();
    var record := [127, 0, 0, 1, 31, 144];
    var e := Entry(PEERS, StrValue(record));
    OneEntry(PEERS, StrValue(record));
    EncodedOnePeer(record);
    assert [line][..0] == [] && Head([line]) == [] + (line + CRLF);
    assert Head([line]) + CRLF == line + [13, 10, 13, 10];
    assert |PEERS| == 5;
  }

  lemma EncodedOnePeer(record: seq<byte>)
    requires |record| == 6
    ensures Encode(DictValue([Entry(PEERS, StrValue(record))]))
         == [100, 53, 58, 112, 101, 101, 114, 115, 54, 58] + record + [101]
  {
    hide Ascii, EncodeEntries, EncodeStr;
    OneEntry(PEERS, StrValue(record));
    ShortText(PEERS);
    ShortText(record);
    assert PEERS == [112, 101, 101, 114, 115];
  }

  /** The tree at `peers`, or the root itself if the root is not a dictionary. */
  function PeersNode(root: Target): Outcome<Target> {
    Lookup(root, [Key(PEERS)])
  }

  /** Is the receive loop ended by an error that throws? */
  predicate Interrupted(receipts: seq<Receipt>, secure: bool) {
    var n := ChunkRun(receipts);
    n < |receipts| && receipts[n].Error? && !secure
  }

  /** How an announce ends on the data of a response. */
  function Announces(data: seq<byte>): Outcome<Announcement> {
    var parsed :- Run(Fresh(false), data);
    var node :- PeersNode(parsed.root);
    Ok(if node.kind == Strings then PeersReceived else NotCompact)
  }

  /** A response: header lines, an empty line, and a bencoded dictionary whose `peers` is the
      compact encoding of a list of peers. */
  ghost predicate IsAnnounceResponse(received: seq<byte>, lines: seq<seq<byte>>, v: Value, ps: seq<PeerAddress>) {
    && lines != [] && (forall i :: 0 <= i < |lines| ==> HeaderLine(lines[i]))
    && received == Head(lines) + CRLF + Encode(v)
    && WellFormed(v) && v.DictValue?
    && LastValue(v.entries, PEERS) == Some(StrValue(EncodePeers(ps)))
  }

  /** The stages in a row: the body is found behind the header, parsing ignores the zero bytes
      left in the receive buffer, and decoding stops at the zeros after the last peer. */
  lemma AnnounceDelivers(received: seq<byte>, lines: seq<seq<byte>>, v: Value, ps: seq<PeerAddress>, data: seq<byte>)
    requires IsAnnounceResponse(received, lines, v, ps)
    requires forall i :: FirstBlankLine(received + Zeros(CHUNK_SIZE), i) ==>
               data == (received + Zeros(CHUNK_SIZE))[i + 1..]
    ensures var parsed := Run(Fresh(false), data);
            && parsed.Ok?
            && var node := PeersNode(parsed.value.root);
               && node.Ok? && node.value.kind == Strings
               && DecodeFrom(Overlaid(node.value.text), 0) == Announced(ps, MAX_PEERS)
  {
    var rest := Encode(v) + Zeros(CHUNK_SIZE);
    assert received + Zeros(CHUNK_SIZE) == Head(lines) + CRLF + rest;
    BlankLineOfResponse(lines, rest);
    assert data == rest;
    ParseEncoded(v, false);
    var s := Fresh(false).(root := Denote(v, false));
    PaddingIgnored(s, CHUNK_SIZE);
    RunConcat(Fresh(false), Encode(v), Zeros(CHUNK_SIZE));
    assert Run(Fresh(false), data) == Ok(s);
    PeersOfTree(v, ps);
    DecodeEncoded(ps);
  }

  lemma PeersOfTree(v: Value, ps: seq<PeerAddress>)
    requires v.DictValue? && LastValue(v.entries, PEERS) == Some(StrValue(EncodePeers(ps)))
    ensures PeersNode(Denote(v, false)) == Ok(StringTarget(EncodePeers(ps)))
  {
    hide Ascii;
    KindsOfEntry(v.entries, false, PEERS);
    Lookup1(Denote(v, false), Key(PEERS));
  }

  class Tracker {
    var peerAddresses: seq<PeerAddress>
    var interval: nat

    constructor ()
      ensures peerAddresses == [] && interval == 0
    {
      peerAddresses, interval := [], 0;
    }

    /** The loop over the records of the array. */
    method PushPeers(peers: seq<byte>)
      requires |peers| == BUFFER
      modifies this`peerAddresses
      ensures peerAddresses == old(peerAddresses) + DecodeFrom(peers, 0)
    {
      hide Htonl, IpOf, PortOf, RecordAt;
      var i := 0;
      while i < MAX_PEERS
        invariant 0 <= i <= MAX_PEERS
        invariant peerAddresses + DecodeFrom(peers, i) == old(peerAddresses) + DecodeFrom(peers, 0)
      {
        var record := RecordAt(peers, i);
        if IpOf(record) == 0 && PortOf(record) == 0 {
          break;
        }
        ghost var rest := DecodeFrom(peers, i + 1);
        assert peerAddresses + ([DecodeRecord(record)] + rest) == peerAddresses + [DecodeRecord(record)] + rest;
        peerAddresses := peerAddresses + [PeerAddress(Htonl(IpOf(record)), PortOf(record))];
        i := i + 1;
      }
      assert peerAddresses + [] == peerAddresses;
    }

    /** `udp_announce_transaction` from the receipt of the reply on.  Bytes beyond the room for the
        reply are not received, and records beyond a short reply are zero. */
    method UdpAnnounce(transaction: uint32, reply: Option<seq<byte>>) returns (r: Announcement)
      requires reply.Some? ==> |reply.value| <= UDP_HEADER + BUFFER
      modifies this
      ensures r == Checked(transaction, reply)
      ensures reply.None? || |reply.value| < 20 ==> r == ReceiveFailed
      ensures forall a, t, i, l, s, ps :: reply == Some(UdpReply(a, t, i, l, s, ps)) ==>
                && r == Expected(transaction, a, t)
                && (r == PeersReceived ==> interval == i && peerAddresses == Announced(ps, 1024))
      ensures r == PeersReceived ==>
                && interval == Field(reply.value, 2)
                && peerAddresses == DecodeFrom(Overlaid(reply.value[UDP_HEADER..]), 0)
      ensures r != PeersReceived ==> interval == old(interval) && peerAddresses == old(peerAddresses)
    {
      hide Field, UdpReply, DecodeFrom, Overlaid, Announced;
      forall a, t, i, l, s, ps | reply == Some(UdpReply(a, t, i, l, s, ps))
        ensures Checked(transaction, reply) == Expected(transaction, a, t)
        ensures Field(reply.value, 2) == i
        ensures DecodeFrom(Overlaid(reply.value[20..]), 0) == Announced(ps, 1024)
      {
        ReplyDecodes(transaction, a, t, i, l, s, ps);
      }
      if reply.None? || |reply.value| < UDP_HEADER {
        return ReceiveFailed;
      }
      if Field(reply.value, 1) != transaction {
        return WrongTransaction;
      }
      if Field(reply.value, 0) != 1 {
        return WrongAction;
      }
      interval := Field(reply.value, 2);
      peerAddresses := [];
      PushPeers(Overlaid(reply.value[UDP_HEADER..]));
      return PeersReceived;
    }

    /** `http_announce` from the sending of the request on.  It adds to the peers known before. */
    method HttpAnnounce(request: Http, receipts: seq<Receipt>, secure: bool) returns (r: Outcome<Announcement>)
      requires forall x :: x in receipts && x.Chunk? ==> |x.bytes| <= CHUNK_SIZE
      requires request.data == []
      modifies this`peerAddresses, request
      ensures r != Ok(PeersReceived) ==> peerAddresses == old(peerAddresses)
      ensures !Interrupted(receipts, secure) ==> r == Announces(request.data)
      ensures r == Ok(PeersReceived) ==>
                var parsed := Run(Fresh(false), request.data);
                && parsed.Ok?
                && var node := PeersNode(parsed.value.root);
                   && node.Ok? && node.value.kind == Strings
                   && peerAddresses == old(peerAddresses) + DecodeFrom(Overlaid(node.value.text), 0)
      ensures Interrupted(receipts, secure) ==> r == Fails(BadAccess)
      ensures !Interrupted(receipts, secure) ==>
                forall lines, v, ps ::
                  IsAnnounceResponse(Payload(receipts[..ChunkRun(receipts)]), lines, v, ps) ==>
                  && r == Ok(PeersReceived)
                  && peerAddresses == old(peerAddresses) + Announced(ps, MAX_PEERS)
    {
      var data := request.GetRequest(receipts, secure);
      if data.Fails? {
        return Fails(data.fault);
      }
      var bencode := new BencodeMap();
      var fed := bencode.FromBuffer(data.value);
      ghost var received := Payload(receipts[..ChunkRun(receipts)]);
      forall lines, v, ps | IsAnnounceResponse(received, lines, v, ps)
        ensures fed.Ok?
        ensures var node := PeersNode(bencode.root);
                && node.Ok? && node.value.kind == Strings
                && DecodeFrom(Overlaid(node.value.text), 0) == Announced(ps, MAX_PEERS)
      {
        AnnounceDelivers(received, lines, v, ps, data.value);
      }
      if fed.Fails? {
        return Fails(fed.fault);
      }
      var kind := bencode.TypeAt([Key(PEERS)]);
      if kind.Fails? {
        return Fails(kind.fault);
      }
      if kind.value != Strings {
        return Ok(NotCompact);
      }
      var text := bencode.StrAt([Key(PEERS)]);
      PushPeers(Overlaid(text.value));
      return Ok(PeersReceived);
    }
  }
}
