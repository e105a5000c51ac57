/** What one connection to a peer does with each message, as functions of its state. */
module PeerMachine {
  import opened Basics
  import opened Endian
  import opened Bits
  import opened PeerWire

  /** `download_torrent_piece`.  Of its vector, `data` are the elements, and `spare` is what the rest of
      the vector's allocation holds. */
  datatype Piece = Piece(index: nat, size: nat, downloaded: nat, present: bool, data: seq<byte>, spare: seq<byte>)
  {
    /** The bytes from `data()` on, as many as `capacity()` says. */
    function Allocation(): (bs: seq<byte>)
      ensures data <= bs && |bs| == |data| + |spare|
    {
      data + spare
    }
  }

  const NO_PIECE: Piece := Piece(0, 0, 0, false, [], [])

  datatype PeerState = PeerState(
    choking: bool,
    peerInterested: bool,
    theirs: seq<bv8>,
    piece: Piece)

  /** The new state, and what was sent. */
  datatype Effect = Effect(state: PeerState, out: seq<Outgoing>)

  /** What a selection sees: our bits at that moment, which other processes change, and its random
      skip count. */
  datatype Look = Look(ours: seq<bv8>, skips: nat)

  function ToBits(bs: seq<byte>): (r: seq<bv8>)
    ensures |r| == |bs| && forall i :: 0 <= i < |bs| ==> r[i] as int == bs[i]
  {
    var r := seq(|bs|, i requires 0 <= i < |bs| => bs[i] as bv8);
    assert forall i :: 0 <= i < |bs| ==> r[i] as int == bs[i] by {
      forall i | 0 <= i < |bs| ensures r[i] as int == bs[i] {
        CastKeeps(bs[i]);
      }
    }
    r
  }

  /** An unsigned 32-bit conversion. */
  function ToU32(n: nat): (r: uint32)
    ensures (r - n) % TWO_TO_THE_32 == 0
  {
    if n < TWO_TO_THE_32 then n else n % TWO_TO_THE_32
  }

  /** `data.resize(n)`: within its capacity a vector keeps its allocation; a new allocation holds
      `slack` behind the elements. */
  function WithSize(piece: Piece, n: nat, slack: seq<byte>): (r: Piece)
    ensures r == piece.(data := Resized(piece.data, n), spare := r.spare)
    ensures n <= |piece.Allocation()| ==> r.spare == piece.Allocation()[n..]
    ensures n > |piece.Allocation()| ==> r.spare == slack
  {
    piece.(data := Resized(piece.data, n),
           spare := if n <= |piece.data| then piece.data[n..] + piece.spare
                    else if n <= |piece.Allocation()| then piece.spare[n - |piece.data|..]
                    else slack)
  }

  /** `empty_download_piece`: clearing a vector keeps its allocation, and the bytes in it. */
  function Emptied(piece: Piece): (r: Piece)
    ensures r.Allocation() == piece.Allocation() && r.downloaded == piece.downloaded
  {
    piece.(data := [], spare := piece.data + piece.spare, present := false)
  }

  // ------------------------------------------------------------ requesting

  /** `send_message_request` */
  function RequestAt(piece: Piece, offset: uint32): Outgoing {
    Request(ToU32(piece.index), ToU32(piece.downloaded + offset), MAX_BLOCK_SIZE)
  }

  /** `fill_outstanding_requests`, with its 32-bit arithmetic. */
  function RequestsFor(piece: Piece, pieceLength: nat): (rs: seq<Outgoing>)
    ensures |rs| == ToU32(pieceLength / MAX_BLOCK_SIZE)
  {
    seq(ToU32(pieceLength / MAX_BLOCK_SIZE), i requires 0 <= i => RequestAt(piece, ToU32(MAX_BLOCK_SIZE * i)))
  }

  /** The most blocks whose offsets 32 bits can tell apart. */
  const MAX_BLOCKS: nat := 0x4_0000

  /** The requests ask for blocks of a piece from some byte on, one after the other, each once. */
  predicate Tiles(rs: seq<Outgoing>, index: nat, from: nat, blocks: nat) {
    |rs| == blocks &&
    forall i :: 0 <= i < blocks ==>
      rs[i].Request? && rs[i].index == ToU32(index) && rs[i].begin == from + MAX_BLOCK_SIZE * i
      && rs[i].length == MAX_BLOCK_SIZE
  }

  /** From where the piece was downloaded to, the requests tile as many blocks as a piece has exactly when
      the last of them begins below 2^32; otherwise the offsets wrap around. */
  lemma RequestsTileExactly(piece: Piece, pieceLength: nat)
    ensures Tiles(RequestsFor(piece, pieceLength), piece.index, piece.downloaded, pieceLength / MAX_BLOCK_SIZE)
       <==> pieceLength < MAX_BLOCK_SIZE ||
            piece.downloaded + MAX_BLOCK_SIZE * (pieceLength / MAX_BLOCK_SIZE - 1) < TWO_TO_THE_32
  {
    var d, n, rs := piece.downloaded, pieceLength / MAX_BLOCK_SIZE, RequestsFor(piece, pieceLength);
    if n > 0 && d + MAX_BLOCK_SIZE * (n - 1) < TWO_TO_THE_32 {
      forall i | 0 <= i < n
        ensures rs[i] == Request(ToU32(piece.index), d + MAX_BLOCK_SIZE * i, MAX_BLOCK_SIZE)
      {
        assert MAX_BLOCK_SIZE * i <= MAX_BLOCK_SIZE * (n - 1);
      }
    } else if 0 < n <= |rs| {
      assert rs[n - 1] == RequestAt(piece, ToU32(MAX_BLOCK_SIZE * (n - 1)));
    }
  }

  /** Tiles are disjoint, in order, and cover every byte of their blocks. */
  lemma TilesCover(rs: seq<Outgoing>, index: nat, from: nat, blocks: nat, x: nat)
    requires Tiles(rs, index, from, blocks)
    ensures from <= x < from + MAX_BLOCK_SIZE * blocks ==>
              var i := (x - from) / MAX_BLOCK_SIZE; i < |rs| && rs[i].begin <= x < rs[i].begin + rs[i].length
    ensures forall i, j :: 0 <= i < j < |rs| ==> rs[i].begin + rs[i].length <= rs[j].begin
  {
  }

  // ------------------------------------------------------------ the handlers

  /** `download_next_piece`, with `determine_download_piece` inside. */
  function DownloadNext(s: PeerState, look: Look, pieceLength: nat): (r: Effect)
    ensures s.choking || (s.piece.present && PieceComplete(s.piece)) ==> r == Effect(s, [])
  {
    if s.choking then Effect(s, [])
    else
      var found := Search(look.ours, s.theirs, look.skips);
      if !s.piece.present && found.None? then Effect(s, [])
      else
        var piece := if s.piece.present then s.piece
                     else NO_PIECE.(index := found.value, size := pieceLength, present := true);
        var t := s.(piece := piece);
        if piece.downloaded > 0 && piece.downloaded >= piece.size then Effect(t, [])
        else Effect(t, RequestsFor(piece, pieceLength))
  }

  /** Would `download_next_piece` have to select and find nothing? */
  predicate SelectionFails(s: PeerState, look: Look) {
    !s.choking && !s.piece.present && Search(look.ours, s.theirs, look.skips).None?
  }

  /** A piece after a message, and what was sent. */
  datatype PieceEffect = PieceEffect(piece: Piece, out: seq<Outgoing>)

  /** `receive_message_block` on a block that arrives completely: its offset is not looked at. */
  function BlockReceived(piece: Piece, index: nat, payload: seq<byte>, slack: seq<byte>): PieceEffect {
    if index != piece.index then PieceEffect(piece, [])
    else
      var room := WithSize(piece, piece.downloaded + |payload|, slack);
      var grown := room.(data := room.data[..piece.downloaded] + payload, downloaded := piece.downloaded + |payload|);
      PieceEffect(grown, if grown.downloaded >= grown.size then [HavePiece(ToU32(grown.index)), InterestedToo] else [])
  }

  /** `receive_message` on a message that arrives completely. */
  function Handle(s: PeerState, m: Message, look: Look, slack: seq<byte>, pieceLength: nat): Effect {
    match m
    case Choke => Effect(s.(choking := true), [])
    case Unchoke => DownloadNext(s.(choking := false), look, pieceLength)
    case Interested => Effect(s.(peerInterested := true), [])
    case NotInterested => Effect(s.(peerInterested := false), [])
    case Have(raw) => Effect(s.(theirs := WithBit(s.theirs, Read(raw))), [])
    case Bitfield(bits) => Effect(s.(theirs := ToBits(bits)), [InterestedToo])
    case Block(index, _, payload) =>
      var e := BlockReceived(s.piece, index, payload, slack);
      Effect(s.(piece := e.piece), e.out)
  }

  /** What the parent is told of a piece: its index, and the whole allocation of its vector. */
  datatype Notice = Notice(index: nat, data: seq<byte>)

  datatype Worked = Worked(state: PeerState, out: seq<Outgoing>, notice: Option<Notice>)

  predicate PieceComplete(piece: Piece) {
    piece.downloaded > 0 && piece.downloaded >= piece.size
  }

  /** The part of a round of `work` after the message: if the piece is complete, its notification
      and the next selection. */
  function Finish(s: PeerState, look: Look, pieceLength: nat): Worked {
    if !PieceComplete(s.piece) then Worked(s, [], None)
    else
      var next := DownloadNext(s.(piece := Emptied(s.piece)), look, pieceLength);
      Worked(next.state, next.out, Some(Notice(s.piece.index, s.piece.Allocation())))
  }

  /** One round of `work`. */
  function Work(s: PeerState, m: Message, first: Look, second: Look, slack: seq<byte>, pieceLength: nat): Worked {
    var e := Handle(s, m, first, slack, pieceLength);
    var f := Finish(e.state, second, pieceLength);
    Worked(f.state, e.out + f.out, f.notice)
  }

  /** What a failed selection after a notification leaves: the count of the finished piece, and its
      bytes in the allocation of an empty vector. */
  predicate Stale(piece: Piece) {
    PieceComplete(piece) && !piece.present && piece.data == []
  }

  lemma FailedSelectionLeavesStale(s: PeerState, look: Look, pieceLength: nat)
    requires PieceComplete(s.piece) && SelectionFails(s.(piece := Emptied(s.piece)), look)
    ensures var f := Finish(s, look, pieceLength);
            && Stale(f.state.piece) && f.notice == Some(Notice(f.state.piece.index, f.state.piece.spare))
            && f.notice == Some(Notice(s.piece.index, s.piece.Allocation()))
  {
  }

  /** From then on every message makes the worker notify, except an unchoke that selects a new piece.
      What is notified are the bytes of the finished piece again, unless the message is another block
      of that piece: then zeros stand in their place, and the block's payload behind them. */
  lemma StaleNotification(s: PeerState, m: Message, first: Look, second: Look, slack: seq<byte>, pieceLength: nat)
    requires Stale(s.piece)
    ensures var p, w := s.piece, Work(s, m, first, second, slack, pieceLength);
            && (w.notice.None? <==> m.Unchoke? && Search(first.ours, s.theirs, first.skips).Some?)
            && (w.notice.Some? ==>
                  var n := w.notice.value;
                  && n.index == p.index
                  && if m.Block? && m.index == p.index
                     then Zeros(p.downloaded) + m.payload <= n.data
                     else n.data == p.spare)
  {
    hide WithSize, Resized, RequestsFor, Search, BlockReceived;
    if m.Block? {
      if m.index == s.piece.index {
        StaleBlock(s.piece, m.payload, slack);
      } else {
        OtherBlock(s.piece, m.index, m.payload, slack);
      }
    }
  }

  lemma OtherBlock(p: Piece, index: nat, payload: seq<byte>, slack: seq<byte>)
    requires index != p.index
    ensures BlockReceived(p, index, payload, slack) == PieceEffect(p, [])
  {
  }

  lemma StaleBlock(p: Piece, payload: seq<byte>, slack: seq<byte>)
    requires Stale(p)
    ensures var q := BlockReceived(p, p.index, payload, slack).piece;
            && q.data == Zeros(p.downloaded) + payload
            && q.index == p.index && q.size == p.size && q.downloaded == p.downloaded + |payload|
  {
    assert Resized(p.data, p.downloaded + |payload|)[..p.downloaded] == Zeros(p.downloaded);
  }

  /** With one block more than 32-bit offsets can tell apart, the last request is the first again. */
  lemma OffsetsWrap(piece: Piece)
    requires piece.downloaded == 0
    ensures var rs := RequestsFor(piece, MAX_BLOCK_SIZE * (MAX_BLOCKS + 1));
            |rs| == MAX_BLOCKS + 1 && rs[MAX_BLOCKS] == rs[0]
  {
  }
}
