/** Peer lists as trackers send them: six bytes a peer, the address and the port in network order (BEP 23). */
module CompactPeers {
  import opened Basics
  import opened Endian

  const MAX_PEERS: nat := 1024
  const RECORD: nat := 6
  const BUFFER: nat := 6144

  /** An address as the socket calls take it, and a port number. */
  datatype PeerAddress = PeerAddress(sAddr: uint32, port: uint16)

  const NO_PEER: PeerAddress := PeerAddress(0, 0)

  /** The bytes of a peer on the wire: those of its address in memory, then the port, high byte first. */
  function EncodePeer(p: PeerAddress): (bs: seq<byte>)
    ensures |bs| == RECORD
  {
    Image(p.sAddr, 4) + Wrap16(p.port).Memory()
  }

  function EncodePeers(ps: seq<PeerAddress>): (bs: seq<byte>)
    ensures |bs| == RECORD * |ps|
  {
    if ps == [] then [] else EncodePeer(ps[0]) + EncodePeers(ps[1..])
  }

  /** The string copied over a cleared array of records: cut at its end, or followed by zeros. */
  function Overlaid(text: seq<byte>): (buffer: seq<byte>)
    ensures |buffer| == BUFFER
    ensures forall i :: 0 <= i < BUFFER ==> buffer[i] == if i < |text| then text[i] else 0
  {
    if |text| < BUFFER then text + Zeros(BUFFER - |text|) else text[..BUFFER]
  }

  function RecordAt(buffer: seq<byte>, i: nat): (bs: seq<byte>)
    requires |buffer| == BUFFER && i < MAX_PEERS
    ensures |bs| == RECORD
  {
    buffer[RECORD * i..RECORD * (i + 1)]
  }

  function IpOf(bs: seq<byte>): uint32
    requires |bs| == RECORD
  {
    Received32(bs[..4]).AsSmallEndian()
  }

  function PortOf(bs: seq<byte>): uint16
    requires |bs| == RECORD
  {
    Received16(bs[4..]).AsSmallEndian()
  }

  /** What a record is turned into: the address is swapped a second time. */
  function DecodeRecord(bs: seq<byte>): PeerAddress
    requires |bs| == RECORD
  {
    PeerAddress(Htonl(IpOf(bs)), PortOf(bs))
  }

  predicate Ends(bs: seq<byte>)
    requires |bs| == RECORD
  {
    IpOf(bs) == 0 && PortOf(bs) == 0
  }

  /** The peers of the records from `i` on, up to the first record of zeros. */
  function DecodeFrom(buffer: seq<byte>, i: nat): (ps: seq<PeerAddress>)
    requires |buffer| == BUFFER && i <= MAX_PEERS
    ensures |ps| <= MAX_PEERS - i
    decreases MAX_PEERS - i
  {
    if i == MAX_PEERS || Ends(RecordAt(buffer, i)) then []
    else [DecodeRecord(RecordAt(buffer, i))] + DecodeFrom(buffer, i + 1)
  }

  lemma DecodeEncodedPeer(p: PeerAddress)
    ensures DecodeRecord(EncodePeer(p)) == p
    ensures Ends(EncodePeer(p)) <==> p == NO_PEER
  {
    var bs := EncodePeer(p);
    assert bs[..4] == Image(p.sAddr, 4) && bs[4..] == Wrap16(p.port).Memory();
    Weights();
    ReadImage(p.sAddr, 4);
    SwappedTwice(p.sAddr, 4);
    ReceivedIsSent(p.port, 0);
    WrapRoundTrips(p.port, 0, 0);
    SwappedZero(p.sAddr);
  }

  lemma SwappedZero(x: uint32)
    ensures Htonl(x) == 0 <==> x == 0
  {
    Weights();
    SwappedTwice(x, 4);
    assert Image(0, 4) == [0, 0, 0, 0] by { Image4(0, 0); }
    assert Reverse([0, 0, 0, 0]) == [0, 0, 0, 0] by { Reverse4(0, 0, 0, 0); }
    ReadImage(0, 4);
  }

  /** Every address keeps its four bytes and every port its two; a record ends the list exactly if
      all its six bytes are zero. */
  lemma RecordPreserved(bs: seq<byte>)
    requires |bs| == RECORD
    ensures EncodePeer(DecodeRecord(bs)) == bs
    ensures Ends(bs) <==> bs == Zeros(RECORD)
  {
    var ip, port := bs[..4], bs[4..];
    Weights();
    ReadBound(ip);
    ReadBound(port);
    SwappedTwice(Read(ip), 4);
    SwappedTwice(Read(port), 2);
    ImageRead(ip);
    ImageRead(port);
    assert ip + port == bs;
    assert EncodePeer(NO_PEER) == Zeros(RECORD) by {
      Image4(0, 0);
      WrapMemory16(0);
    }
    DecodeEncodedPeer(DecodeRecord(bs));
  }

  /** `n` records without a record of zeros among them, and then one, or the end of the array. */
  predicate MaximalRun(buffer: seq<byte>, n: nat)
    requires |buffer| == BUFFER
  {
    && n <= MAX_PEERS
    && (forall i :: 0 <= i < n ==> RecordAt(buffer, i) != Zeros(RECORD))
    && (n < MAX_PEERS ==> RecordAt(buffer, n) == Zeros(RECORD))
  }

  /** For any bytes: the peers are those of the maximal run of non-zero records, byte for byte. */
  lemma DecodesMaximalRun(buffer: seq<byte>)
    requires |buffer| == BUFFER
    ensures var ps := DecodeFrom(buffer, 0);
            && MaximalRun(buffer, |ps|)
            && EncodePeers(ps) == buffer[..RECORD * |ps|]
  {
    DecodesRunFrom(buffer, 0);
    assert buffer[0..RECORD * |DecodeFrom(buffer, 0)|] == buffer[..RECORD * |DecodeFrom(buffer, 0)|];
  }

  lemma {:induction false} DecodesRunFrom(buffer: seq<byte>, i: nat)
    requires |buffer| == BUFFER && i <= MAX_PEERS
    ensures var n := i + |DecodeFrom(buffer, i)|;
            && n <= MAX_PEERS
            && (forall k :: i <= k < n ==> RecordAt(buffer, k) != Zeros(RECORD))
            && (n < MAX_PEERS ==> RecordAt(buffer, n) == Zeros(RECORD))
            && EncodePeers(DecodeFrom(buffer, i)) == buffer[RECORD * i..RECORD * n]
    decreases MAX_PEERS - i
  {
    hide EncodePeer, DecodeRecord, Ends;
    if i >= MAX_PEERS {
    } else {
      var r := RecordAt(buffer, i);
      RecordPreserved(r);
      if !Ends(r) {
        DecodesRunFrom(buffer, i + 1);
        var n := i + |DecodeFrom(buffer, i)|;
        assert r + buffer[RECORD * (i + 1)..RECORD * n] == buffer[RECORD * i..RECORD * n];
      }
    }
  }

  /** The peers of a list before its first all-zero peer, but no more than fit the array. */
  function Announced(ps: seq<PeerAddress>, room: nat): (r: seq<PeerAddress>)
    ensures |r| <= room && |r| <= |ps| && r == ps[..|r|]
    ensures (forall i :: 0 <= i < |ps| ==> ps[i] != NO_PEER) ==> |r| == if |ps| < room then |ps| else room
  {
    if ps == [] || room == 0 || ps[0] == NO_PEER then [] else [ps[0]] + Announced(ps[1..], room - 1)
  }

  /** Decoding undoes encoding, up to the first all-zero peer and the size of the array. */
  lemma DecodeEncoded(ps: seq<PeerAddress>)
    ensures DecodeFrom(Overlaid(EncodePeers(ps)), 0) == Announced(ps, MAX_PEERS)
  {
    assert ps[0..] == ps;
    DecodeEncodedFrom(ps, 0);
  }

  lemma {:induction false} EncodePeersSplit(a: seq<PeerAddress>, b: seq<PeerAddress>)
    ensures EncodePeers(a + b) == EncodePeers(a) + EncodePeers(b)
  {
    if a == [] {
      assert a + b == b;
    } else {
      assert (a + b)[1..] == a[1..] + b;
      EncodePeersSplit(a[1..], b);
    }
  }

  lemma OverlaidInside(text: seq<byte>, a: nat, b: nat)
    requires a <= b <= |text| && b <= BUFFER
    ensures Overlaid(text)[a..b] == text[a..b]
  {
  }

  lemma OverlaidBeyond(text: seq<byte>, a: nat, b: nat)
    requires |text| <= a <= b <= BUFFER
    ensures Overlaid(text)[a..b] == Zeros(b - a)
  {
  }

  lemma EncodedRecord(ps: seq<PeerAddress>, i: nat)
    requires i < MAX_PEERS
    ensures RecordAt(Overlaid(EncodePeers(ps)), i) == if i < |ps| then EncodePeer(ps[i]) else Zeros(RECORD)
  {
    hide EncodePeers, EncodePeer, Overlaid;
    if i < |ps| {
      OverlaidInside(EncodePeers(ps), RECORD * i, RECORD * (i + 1));
      RecordOf(ps, i);
    } else {
      OverlaidBeyond(EncodePeers(ps), RECORD * i, RECORD * (i + 1));
    }
  }

  lemma RecordOf(ps: seq<PeerAddress>, i: nat)
    requires i < |ps|
    ensures EncodePeers(ps)[RECORD * i..RECORD * (i + 1)] == EncodePeer(ps[i])
  {
    hide EncodePeer;
    assert ps[..i] + ps[i..] == ps;
    EncodePeersSplit(ps[..i], ps[i..]);
    var before, own, after := EncodePeers(ps[..i]), EncodePeer(ps[i]), EncodePeers(ps[i..][1..]);
    assert EncodePeers(ps) == before + (own + after);
    Middle(before, own, after);
  }

  lemma Middle(a: seq<byte>, b: seq<byte>, c: seq<byte>)
    ensures (a + (b + c))[|a|..|a| + |b|] == b
  {
  }

  lemma {:induction false} DecodeEncodedFrom(ps: seq<PeerAddress>, i: nat)
    requires i <= |ps| && i <= MAX_PEERS
    ensures DecodeFrom(Overlaid(EncodePeers(ps)), i) == Announced(ps[i..], MAX_PEERS - i)
    decreases MAX_PEERS - i
  {
    hide EncodePeer, EncodePeers, DecodeRecord, Ends, RecordAt, Overlaid;
    if i >= MAX_PEERS {
    } else {
      EncodedRecord(ps, i);
      RecordPreserved(Zeros(RECORD));
      if i < |ps| {
        DecodeEncodedPeer(ps[i]);
        assert ps[i..][1..] == ps[i + 1..];
        if ps[i] != NO_PEER {
          DecodeEncodedFrom(ps, i + 1);
        }
      }
    }
  }
}
