/** Whole runs of a connection against a peer that answers requests in order. */
module DownloadRun {
  import opened Basics
  import opened Bits
  import opened PeerWire
  import opened VectorGrowth
  import opened PeerMachine

  type Content = nat -> seq<byte>

  /** The connection, the requests that the peer still has to answer, all notifications so far, and
      how many of them there were when a selection first failed. */
  datatype System = System(
    peer: PeerState,
    pending: seq<Outgoing>,
    notified: seq<Notice>,
    failedAt: Option<nat>)

  /** A message, what the two selections of its round see, and what an allocation of that round holds
      behind the data. */
  datatype Event = Event(message: Message, first: Look, second: Look, slack: seq<byte>)

  function Start(): System {
    System(PeerState(true, false, [], NO_PIECE), [], [], None)
  }

  /** The requests among what was sent. */
  function RequestsOf(out: seq<Outgoing>): seq<Outgoing> {
    if out == [] then []
    else (if out[0].Request? then [out[0]] else []) + RequestsOf(out[1..])
  }

  /** Does a selection fail in this round? */
  predicate Fails(s: System, e: Event, pieceLength: nat) {
    || (e.message.Unchoke? && SelectionFails(s.peer.(choking := false), e.first))
    || (var h := Handle(s.peer, e.message, e.first, e.slack, pieceLength).state;
        PieceComplete(h.piece) && SelectionFails(h.(piece := Emptied(h.piece)), e.second))
  }

  function Step(s: System, e: Event, pieceLength: nat): System {
    var w := Work(s.peer, e.message, e.first, e.second, e.slack, pieceLength);
    var answered := if e.message.Block? && s.pending != [] then s.pending[1..] else s.pending;
    var notified := s.notified + if w.notice.Some? then [w.notice.value] else [];
    System(w.state, answered + RequestsOf(w.out), notified,
           if s.failedAt.None? && Fails(s, e, pieceLength) then Some(|notified|) else s.failedAt)
  }

  function Run(s: System, events: seq<Event>, pieceLength: nat): System
    decreases events
  {
    if events == [] then s else Run(Step(s, events[0], pieceLength), events[1..], pieceLength)
  }

  const OUR_BYTES: nat := 2048

  /** The peer unchokes once and stays unchoked; a block answers the oldest open request with the
      bytes asked for.  Other messages come at any time, and our bits may change at any time. */
  predicate Honest(s: System, e: Event, content: Content) {
    && |e.first.ours| <= OUR_BYTES && |e.second.ours| <= OUR_BYTES
    && match e.message
       case Choke => false
       case Unchoke => s.peer.choking
       case Block(index, offset, payload) =>
         && |payload| < TWO_TO_THE_32
         && s.pending != [] && s.pending[0] == Request(index, offset, |payload|)
         && offset + |payload| <= |content(index)|
         && payload == content(index)[offset..offset + |payload|]
       case _ => true
  }

  predicate HonestRun(s: System, events: seq<Event>, pieceLength: nat, content: Content)
    decreases events
  {
    events == [] ||
    (Honest(s, events[0], content) && HonestRun(Step(s, events[0], pieceLength), events[1..], pieceLength, content))
  }

  // ------------------------------------------------------------ the invariant

  /** The requests for the blocks `k` to `n` of a piece. */
  function Remaining(index: nat, k: nat, n: nat): (rs: seq<Outgoing>)
    requires n <= MAX_BLOCKS
    ensures k <= n ==> |rs| == n - k
    decreases n - k
  {
    if k >= n then [] else [Request(ToU32(index), MAX_BLOCK_SIZE * k, MAX_BLOCK_SIZE)] + Remaining(index, k + 1, n)
  }

  /** Whatever the round allocates for a block is as large as the policy says. */
  predicate Obeys(piece: Piece, e: Event, growth: Option<Growth>) {
    growth.Some? && e.message.Block? && e.message.index == piece.index ==>
      var n := piece.downloaded + |e.message.payload|;
      n > |piece.Allocation()| ==> n + |e.slack| == growth.value(|piece.Allocation()|, |piece.data|, n)
  }

  predicate GrowthRun(s: System, events: seq<Event>, pieceLength: nat, growth: Option<Growth>)
    decreases events
  {
    events == [] ||
    (&& Obeys(s.peer.piece, events[0], growth)
     && GrowthRun(Step(s, events[0], pieceLength), events[1..], pieceLength, growth))
  }

  /** A piece of which some blocks arrived and the others are requested, in order. */
  predicate Fetching(piece: Piece, pending: seq<Outgoing>, pieceLength: nat, content: Content, growth: Option<Growth>)
    requires pieceLength / MAX_BLOCK_SIZE <= MAX_BLOCKS
  {
    var k := piece.downloaded / MAX_BLOCK_SIZE;
    && piece.present && piece.size == pieceLength
    && piece.index < 8 * OUR_BYTES
    && piece.downloaded == MAX_BLOCK_SIZE * k && piece.downloaded < pieceLength
    && piece.downloaded <= |content(piece.index)|
    && piece.data == content(piece.index)[..piece.downloaded]
    && (growth.Some? ==> |piece.Allocation()| == CapAfter(growth.value, k))
    && k <= pieceLength / MAX_BLOCK_SIZE
    && pending == Remaining(piece.index, k, pieceLength / MAX_BLOCK_SIZE)
  }

  /** A notification of the right bytes, with what the allocation holds behind them. */
  predicate Right(n: Notice, pieceLength: nat, content: Content, growth: Option<Growth>) {
    && n.index < 8 * OUR_BYTES
    && |content(n.index)| == pieceLength && content(n.index) <= n.data
    && (growth.Some? ==> |n.data| == CapAfter(growth.value, pieceLength / MAX_BLOCK_SIZE))
  }

  /** The notifications before the first failed selection. */
  function Trusted(s: System): nat {
    if s.failedAt.Some? then s.failedAt.value else |s.notified|
  }

  predicate Inv(s: System, pieceLength: nat, content: Content, growth: Option<Growth>)
    requires pieceLength / MAX_BLOCK_SIZE <= MAX_BLOCKS
  {
    && Trusted(s) <= |s.notified|
    && (forall i :: 0 <= i < Trusted(s) ==> Right(s.notified[i], pieceLength, content, growth))
    && (s.failedAt.None? && pieceLength % MAX_BLOCK_SIZE != 0 ==> s.notified == [])
    && (s.failedAt.None? ==>
          if s.peer.choking then s.peer.piece == NO_PIECE && s.pending == []
          else Fetching(s.peer.piece, s.pending, pieceLength, content, growth))
  }

  lemma {:induction false} RequestsOfRequests(rs: seq<Outgoing>)
    requires forall i :: 0 <= i < |rs| ==> rs[i].Request?
    ensures RequestsOf(rs) == rs
  {
    if rs == [] {
    } else {
      RequestsOfRequests(rs[1..]);
    }
  }

  lemma {:induction false} RemainingIsTiles(index: nat, k: nat, n: nat, rs: seq<Outgoing>)
    requires k <= n <= MAX_BLOCKS && |rs| == n - k
    requires forall i :: 0 <= i < n - k ==> rs[i] == Request(ToU32(index), MAX_BLOCK_SIZE * (k + i), MAX_BLOCK_SIZE)
    ensures rs == Remaining(index, k, n)
    decreases n - k
  {
    if k >= n {
    } else {
      RemainingIsTiles(index, k + 1, n, rs[1..]);
    }
  }

  /** A fresh selection requests all blocks of its piece. */
  lemma SelectedIsFetching(s: PeerState, look: Look, pieceLength: nat, content: Content, growth: Option<Growth>)
    requires 0 < pieceLength && pieceLength / MAX_BLOCK_SIZE <= MAX_BLOCKS && |look.ours| <= OUR_BYTES
    requires !s.choking && !s.piece.present && !SelectionFails(s, look)
    ensures var e := DownloadNext(s, look, pieceLength);
            && !e.state.choking && RequestsOf(e.out) == e.out && e.state.piece.downloaded == 0
            && Fetching(e.state.piece, e.out, pieceLength, content, growth)
  {
    var e := DownloadNext(s, look, pieceLength);
    var i := Search(look.ours, s.theirs, look.skips).value;
    var piece := Piece(i, pieceLength, 0, true, [], []);
    var n := pieceLength / MAX_BLOCK_SIZE;
    assert e.state.piece == piece;
    SearchFinds(look.ours, s.theirs, look.skips);
    RequestsTileExactly(piece, pieceLength);
    RequestsOfRequests(e.out);
    RemainingIsTiles(i, 0, n, e.out);
    assert content(i)[..0] == [];
  }

  /** A payload goes behind the data.  The allocation stays, or is a new one with `slack` behind. */
  lemma PayloadAppended(piece: Piece, payload: seq<byte>, slack: seq<byte>)
    requires piece.downloaded == |piece.data|
    ensures var p := BlockReceived(piece, piece.index, payload, slack).piece;
            && p == piece.(data := piece.data + payload, downloaded := piece.downloaded + |payload|, spare := p.spare)
            && var n, c := piece.downloaded + |payload|, |piece.Allocation()|;
               |p.Allocation()| == if n <= c then c else n + |slack|
  {
    var room := WithSize(piece, piece.downloaded + |payload|, slack);
    assert room.data[..piece.downloaded] == piece.data;
  }

  /** An answered request lengthens the right prefix of the piece by one block. */
  lemma BlockContinues(s: System, e: Event, pieceLength: nat, content: Content, growth: Option<Growth>)
    requires pieceLength / MAX_BLOCK_SIZE <= MAX_BLOCKS && Honest(s, e, content) && e.message.Block?
    requires Fetching(s.peer.piece, s.pending, pieceLength, content, growth) && Obeys(s.peer.piece, e, growth)
    requires |content(s.peer.piece.index)| == pieceLength
    ensures var h := Handle(s.peer, e.message, e.first, e.slack, pieceLength);
            && h.state == s.peer.(piece := h.state.piece) && RequestsOf(h.out) == []
            && h.state.piece.downloaded == s.peer.piece.downloaded + MAX_BLOCK_SIZE
            && if PieceComplete(h.state.piece)
               then Right(Notice(h.state.piece.index, h.state.piece.Allocation()), pieceLength, content, growth)
                    && |s.pending| == 1
               else Fetching(h.state.piece, s.pending[1..], pieceLength, content, growth)
  {
    hide Handle, BlockReceived, RequestsOf, CapAfter;
    var before, m := s.peer.piece, e.message;
    var n, k := pieceLength / MAX_BLOCK_SIZE, before.downloaded / MAX_BLOCK_SIZE;
    assert s.pending[0] == Request(before.index, MAX_BLOCK_SIZE * k, MAX_BLOCK_SIZE);
    assert s.pending[1..] == Remaining(before.index, k + 1, n) && |s.pending| == n - k;
    HandledBlock(s.peer, m, e.first, e.slack, pieceLength);
    PayloadAppended(before, m.payload, e.slack);
    var h := Handle(s.peer, m, e.first, e.slack, pieceLength);
    var piece, c := h.state.piece, content(before.index);
    hide Remaining;
    PrefixGrows(c, before.downloaded, MAX_BLOCK_SIZE);
    assert piece.downloaded == MAX_BLOCK_SIZE * (k + 1) <= MAX_BLOCK_SIZE * n <= pieceLength;
    if growth.Some? {
      CapacityStep(growth.value, k, |before.Allocation()|, e.slack);
    }
    assert c[..pieceLength] == c;
  }

  /** The handling of a block of this piece: only the piece changes, and nothing is requested. */
  lemma HandledBlock(s: PeerState, m: Message, look: Look, slack: seq<byte>, pieceLength: nat)
    requires m.Block? && m.index == s.piece.index
    ensures var h := Handle(s, m, look, slack, pieceLength);
            && h.state == s.(piece := BlockReceived(s.piece, s.piece.index, m.payload, slack).piece)
            && RequestsOf(h.out) == []
  {
    var out := Handle(s, m, look, slack, pieceLength).out;
    hide WithSize;
    assert out == [] || (|out| == 2 && out[0].HavePiece? && out == [out[0], InterestedToo]);
    assert [InterestedToo][1..] == [] && RequestsOf([InterestedToo]) == [];
    if out != [] {
      assert out[1..] == [InterestedToo];
    }
  }

  lemma PrefixGrows(c: seq<byte>, d: nat, n: nat)
    requires d + n <= |c|
    ensures c[..d] + c[d..d + n] == c[..d + n]
  {
  }

  /** One block more in a vector that grows by a policy. */
  lemma CapacityStep(growth: Growth, k: nat, capacity: nat, slack: seq<byte>)
    requires capacity == CapAfter(growth, k)
    ensures CapAfter(growth, k + 1) == if MAX_BLOCK_SIZE * (k + 1) <= capacity then capacity
                                       else growth(capacity, MAX_BLOCK_SIZE * k, MAX_BLOCK_SIZE * (k + 1))
  {
  }

  /** After a notification or an unchoke: the next piece is being fetched, or the selection failed. */
  lemma SelectionContinues(s: PeerState, look: Look, pieceLength: nat, content: Content, growth: Option<Growth>)
    requires 0 < pieceLength && pieceLength / MAX_BLOCK_SIZE <= MAX_BLOCKS && |look.ours| <= OUR_BYTES
    requires !s.choking && !s.piece.present
    ensures SelectionFails(s, look) ||
            var e := DownloadNext(s, look, pieceLength);
            && !e.state.choking && e.state.piece.downloaded == 0
            && Fetching(e.state.piece, RequestsOf(e.out), pieceLength, content, growth)
  {
    if !SelectionFails(s, look) {
      SelectedIsFetching(s, look, pieceLength, content, growth);
    }
  }

  lemma {:induction false} RequestsOfConcat(a: seq<Outgoing>, b: seq<Outgoing>)
    ensures RequestsOf(a + b) == RequestsOf(a) + RequestsOf(b)
  {
    if a == [] {
      assert a + b == b;
    } else {
      var x := if a[0].Request? then [a[0]] else [];
      assert (a + b)[0] == a[0] && (a + b)[1..] == a[1..] + b;
      RequestsOfConcat(a[1..], b);
      assert x + (RequestsOf(a[1..]) + RequestsOf(b)) == x + RequestsOf(a[1..]) + RequestsOf(b);
    }
  }

  /** 32 bits tell the offsets of all blocks apart. */
  predicate Addressable(pieceLength: nat) {
    0 < pieceLength && pieceLength / MAX_BLOCK_SIZE <= MAX_BLOCKS
  }

  ghost predicate Pieces(pieceLength: nat, content: Content) {
    Addressable(pieceLength) && forall i :: |content(i)| == pieceLength
  }

  /** How many blocks were answered by the pieces notified and the blocks downloaded since. */
  predicate Progress(s: System, answered: nat, pieceLength: nat) {
    s.failedAt.None? ==>
      if s.peer.choking then answered == 0 && s.notified == []
      else |s.notified| * (pieceLength / MAX_BLOCK_SIZE) + s.peer.piece.downloaded / MAX_BLOCK_SIZE == answered
  }

  /** A round that answers a request, in terms of the message's handling. */
  lemma StepOfBlock(s: System, e: Event, pieceLength: nat)
    requires e.message.Block? && s.pending != []
    ensures var h, t := Handle(s.peer, e.message, e.first, e.slack, pieceLength), Step(s, e, pieceLength);
            if PieceComplete(h.state.piece) then
              var idle := h.state.(piece := Emptied(h.state.piece));
              var next := DownloadNext(idle, e.second, pieceLength);
              && t.peer == next.state
              && t.pending == s.pending[1..] + (RequestsOf(h.out) + RequestsOf(next.out))
              && t.notified == s.notified + [Notice(h.state.piece.index, h.state.piece.Allocation())]
              && t.failedAt == if s.failedAt.None? && SelectionFails(idle, e.second) then Some(|t.notified|)
                               else s.failedAt
            else
              && t.peer == h.state && t.pending == s.pending[1..] + RequestsOf(h.out)
              && t.notified == s.notified && t.failedAt == s.failedAt
  {
    var h := Handle(s.peer, e.message, e.first, e.slack, pieceLength);
    hide Handle, DownloadNext, RequestsOf, SelectionFails;
    if PieceComplete(h.state.piece) {
      RequestsOfConcat(h.out, DownloadNext(h.state.(piece := Emptied(h.state.piece)), e.second, pieceLength).out);
    } else {
      assert h.out + [] == h.out && s.notified + [] == s.notified;
    }
  }

  /** What a round that answers a request leaves. */
  lemma BlockRound(s: System, e: Event, pieceLength: nat, content: Content, growth: Option<Growth>)
    requires Pieces(pieceLength, content) && Honest(s, e, content) && Obeys(s.peer.piece, e, growth)
    requires Fetching(s.peer.piece, s.pending, pieceLength, content, growth) && !s.peer.choking
    requires s.failedAt.None? && e.message.Block?
    ensures var t, n := Step(s, e, pieceLength), |s.notified|;
            && (t.failedAt.Some? ==> t.failedAt == Some(|t.notified|))
            && (t.failedAt.None? ==> !t.peer.choking && Fetching(t.peer.piece, t.pending, pieceLength, content, growth))
            && if s.peer.piece.downloaded + MAX_BLOCK_SIZE >= pieceLength then
                 && |t.notified| == n + 1 && t.notified[..n] == s.notified
                 && Right(t.notified[n], pieceLength, content, growth)
                 && (t.failedAt.None? ==> t.peer.piece.downloaded == 0)
               else
                 && t.notified == s.notified && t.failedAt.None?
                 && t.peer.piece.downloaded == s.peer.piece.downloaded + MAX_BLOCK_SIZE
  {
    BlockContinues(s, e, pieceLength, content, growth);
    StepOfBlock(s, e, pieceLength);
    var h := Handle(s.peer, e.message, e.first, e.slack, pieceLength);
    BlockKeepsSize(s.peer, e, pieceLength);
    hide Handle, DownloadNext, SelectionFails, Step, RequestsOf, Right, Honest;
    if PieceComplete(h.state.piece) {
      SelectionContinues(h.state.(piece := Emptied(h.state.piece)), e.second, pieceLength, content, growth);
      hide Fetching;
      assert [] + RequestsOf(DownloadNext(h.state.(piece := Emptied(h.state.piece)), e.second, pieceLength).out)
          == RequestsOf(DownloadNext(h.state.(piece := Emptied(h.state.piece)), e.second, pieceLength).out);
    } else {
      assert s.pending[1..] + [] == s.pending[1..];
    }
  }

  lemma BlockKeepsSize(s: PeerState, e: Event, pieceLength: nat)
    requires e.message.Block?
    ensures var p := Handle(s, e.message, e.first, e.slack, pieceLength).state.piece;
            p.size == s.piece.size && p.index == s.piece.index
  {
  }

  /** Only a piece of whole blocks becomes complete. */
  lemma WholeBlocksOnly(s: System, e: Event, pieceLength: nat, content: Content, growth: Option<Growth>)
    requires Pieces(pieceLength, content) && Honest(s, e, content) && e.message.Block?
    requires Fetching(s.peer.piece, s.pending, pieceLength, content, growth)
    requires s.peer.piece.downloaded + MAX_BLOCK_SIZE >= pieceLength
    ensures pieceLength % MAX_BLOCK_SIZE == 0
    ensures s.peer.piece.downloaded / MAX_BLOCK_SIZE + 1 == pieceLength / MAX_BLOCK_SIZE
  {
  }

  lemma BlockKeepsInv(s: System, e: Event, pieceLength: nat, content: Content, growth: Option<Growth>)
    requires Pieces(pieceLength, content) && Honest(s, e, content) && Obeys(s.peer.piece, e, growth)
    requires Inv(s, pieceLength, content, growth)
    requires s.failedAt.None? && e.message.Block?
    ensures Inv(Step(s, e, pieceLength), pieceLength, content, growth)
  {
    BlockRound(s, e, pieceLength, content, growth);
    var t, n := Step(s, e, pieceLength), |s.notified|;
    if s.peer.piece.downloaded + MAX_BLOCK_SIZE >= pieceLength {
      WholeBlocksOnly(s, e, pieceLength, content, growth);
    }
    hide Step, Fetching, Honest, Right, Pieces;
    assert forall i :: 0 <= i < n ==> t.notified[i] == t.notified[..n][i];
  }

  lemma BlockCounts(s: System, e: Event, pieceLength: nat, content: Content, growth: Option<Growth>, answered: nat)
    requires Pieces(pieceLength, content) && Honest(s, e, content) && Obeys(s.peer.piece, e, growth)
    requires Fetching(s.peer.piece, s.pending, pieceLength, content, growth) && !s.peer.choking
    requires Progress(s, answered, pieceLength)
    requires s.failedAt.None? && e.message.Block?
    ensures Progress(Step(s, e, pieceLength), answered + 1, pieceLength)
  {
    hide Step, Honest, Right, Pieces, Remaining;
    BlockRound(s, e, pieceLength, content, growth);
    var n, d := pieceLength / MAX_BLOCK_SIZE, s.peer.piece.downloaded;
    if d + MAX_BLOCK_SIZE >= pieceLength {
      WholeBlocksOnly(s, e, pieceLength, content, growth);
      OneMore(|s.notified|, n);
    } else {
      assert (d + MAX_BLOCK_SIZE) / MAX_BLOCK_SIZE == d / MAX_BLOCK_SIZE + 1;
    }
    hide Fetching;
  }

  lemma OneMore(x: nat, n: nat)
    ensures (x + 1) * n == x * n + n
  {
  }

  /** No other message touches the piece, and none makes it complete. */
  lemma OtherContinues(s: System, e: Event, pieceLength: nat, content: Content, growth: Option<Growth>)
    requires Addressable(pieceLength) && Honest(s, e, content)
    requires Inv(s, pieceLength, content, growth)
    requires s.failedAt.None? && !e.message.Block? && !e.message.Unchoke?
    ensures var h := Handle(s.peer, e.message, e.first, e.slack, pieceLength);
            h.state.piece == s.peer.piece && h.state.choking == s.peer.choking && RequestsOf(h.out) == []
    ensures !PieceComplete(s.peer.piece)
  {
    assert [InterestedToo][1..] == [];
  }

  /** The unchoke selects the first piece and requests it, or fails to. */
  lemma UnchokeContinues(s: System, e: Event, pieceLength: nat, content: Content, growth: Option<Growth>)
    requires Addressable(pieceLength) && Honest(s, e, content)
    requires Inv(s, pieceLength, content, growth)
    requires s.failedAt.None? && e.message.Unchoke?
    ensures var h := Handle(s.peer, e.message, e.first, e.slack, pieceLength);
            && !PieceComplete(h.state.piece)
            && (SelectionFails(s.peer.(choking := false), e.first) ||
                (!h.state.choking && h.state.piece.downloaded == 0
                 && Fetching(h.state.piece, RequestsOf(h.out), pieceLength, content, growth)))
  {
    SelectionContinues(s.peer.(choking := false), e.first, pieceLength, content, growth);
  }

  /** A round that answers no request, and whose message leaves no piece complete. */
  lemma StepOfOther(s: System, e: Event, pieceLength: nat)
    requires !e.message.Block? && !PieceComplete(Handle(s.peer, e.message, e.first, e.slack, pieceLength).state.piece)
    ensures var h, t := Handle(s.peer, e.message, e.first, e.slack, pieceLength), Step(s, e, pieceLength);
            && t.peer == h.state && t.pending == s.pending + RequestsOf(h.out) && t.notified == s.notified
            && t.failedAt == if s.failedAt.None? && e.message.Unchoke?
                                && SelectionFails(s.peer.(choking := false), e.first)
                             then Some(|s.notified|) else s.failedAt
  {
    var h := Handle(s.peer, e.message, e.first, e.slack, pieceLength);
    hide Handle, DownloadNext, RequestsOf, SelectionFails;
    assert h.out + [] == h.out && s.notified + [] == s.notified;
  }

  lemma UnchokeKeepsInv(s: System, e: Event, pieceLength: nat, content: Content, growth: Option<Growth>, answered: nat)
    requires Addressable(pieceLength) && Honest(s, e, content)
    requires Inv(s, pieceLength, content, growth) && Progress(s, answered, pieceLength)
    requires s.failedAt.None? && e.message.Unchoke?
    ensures Inv(Step(s, e, pieceLength), pieceLength, content, growth)
    ensures Progress(Step(s, e, pieceLength), answered, pieceLength)
  {
    UnchokeContinues(s, e, pieceLength, content, growth);
    assert s.pending == [] && s.peer.choking;
    var rs := RequestsOf(Handle(s.peer, e.message, e.first, e.slack, pieceLength).out);
    assert [] + rs == rs;
    StepOfOther(s, e, pieceLength);
    hide Handle, DownloadNext, Fetching, SelectionFails, RequestsOf, Step, Honest, Right;
  }

  lemma OtherKeepsInv(s: System, e: Event, pieceLength: nat, content: Content, growth: Option<Growth>, answered: nat)
    requires Addressable(pieceLength) && Honest(s, e, content)
    requires Inv(s, pieceLength, content, growth) && Progress(s, answered, pieceLength)
    requires s.failedAt.None? && !e.message.Block? && !e.message.Unchoke?
    ensures Inv(Step(s, e, pieceLength), pieceLength, content, growth)
    ensures Progress(Step(s, e, pieceLength), answered, pieceLength)
  {
    OtherContinues(s, e, pieceLength, content, growth);
    assert s.pending + [] == s.pending;
    StepOfOther(s, e, pieceLength);
    hide Handle, DownloadNext, Fetching, SelectionFails, RequestsOf, Step, Honest, Right;
  }

  /** Every round keeps the invariant, and counts the block it answers. */
  lemma StepKeepsInv(s: System, e: Event, pieceLength: nat, content: Content, growth: Option<Growth>, answered: nat)
    requires Pieces(pieceLength, content) && Honest(s, e, content) && Obeys(s.peer.piece, e, growth)
    requires Inv(s, pieceLength, content, growth) && Progress(s, answered, pieceLength)
    ensures Inv(Step(s, e, pieceLength), pieceLength, content, growth)
    ensures Progress(Step(s, e, pieceLength), answered + if e.message.Block? then 1 else 0, pieceLength)
  {
    if s.failedAt.None? {
      if e.message.Block? {
        BlockKeepsInv(s, e, pieceLength, content, growth);
        BlockCounts(s, e, pieceLength, content, growth, answered);
      } else if e.message.Unchoke? {
        UnchokeKeepsInv(s, e, pieceLength, content, growth, answered);
      } else {
        OtherKeepsInv(s, e, pieceLength, content, growth, answered);
      }
    }
  }

  /** Every allocation of the run is as large as it has to be. */
  predicate AllFit(events: seq<Event>) {
    forall i :: 0 <= i < |events| ==> events[i].slack == []
  }

  /** How many blocks the peer answers. */
  function BlocksIn(events: seq<Event>): nat {
    if events == [] then 0 else (if events[0].message.Block? then 1 else 0) + BlocksIn(events[1..])
  }

  lemma {:induction false} RunKeepsInv(s: System, events: seq<Event>, pieceLength: nat, content: Content,
                                       growth: Option<Growth>, answered: nat)
    requires Pieces(pieceLength, content) && HonestRun(s, events, pieceLength, content)
    requires GrowthRun(s, events, pieceLength, growth)
    requires Inv(s, pieceLength, content, growth) && Progress(s, answered, pieceLength)
    ensures Inv(Run(s, events, pieceLength), pieceLength, content, growth)
    ensures Progress(Run(s, events, pieceLength), answered + BlocksIn(events), pieceLength)
    decreases events
  {
    if events == [] {
    } else {
      StepKeepsInv(s, events[0], pieceLength, content, growth, answered);
      var more := answered + if events[0].message.Block? then 1 else 0;
      RunKeepsInv(Step(s, events[0], pieceLength), events[1..], pieceLength, content, growth, more);
    }
  }

  lemma {:induction false} AnyGrowth(s: System, events: seq<Event>, pieceLength: nat)
    ensures GrowthRun(s, events, pieceLength, None)
    decreases events
  {
    if events == [] {
    } else {
      AnyGrowth(Step(s, events[0], pieceLength), events[1..], pieceLength);
    }
  }

  lemma {:induction false} FitIsGrowth(s: System, events: seq<Event>, pieceLength: nat)
    requires AllFit(events)
    ensures GrowthRun(s, events, pieceLength, Some(ExactGrowth()))
    decreases events
  {
    if events == [] {
    } else {
      FitIsGrowth(Step(s, events[0], pieceLength), events[1..], pieceLength);
    }
  }

  /** Over any run against an honest peer, every piece notified before the first failed selection
      begins with what the peer holds at its index; and it is exactly that if every allocation is as
      large as it has to be. */
  lemma NotifiedPiecesAreRight(events: seq<Event>, pieceLength: nat, content: Content)
    requires Pieces(pieceLength, content)
    requires HonestRun(Start(), events, pieceLength, content)
    ensures var s := Run(Start(), events, pieceLength);
            && Trusted(s) <= |s.notified|
            && (forall i :: 0 <= i < Trusted(s) ==>
                  var n := s.notified[i];
                  && |content(n.index)| == pieceLength && content(n.index) <= n.data
                  && (AllFit(events) ==> n.data == content(n.index)))
  {
    AnyGrowth(Start(), events, pieceLength);
    RunKeepsInv(Start(), events, pieceLength, content, None, 0);
    if AllFit(events) {
      FitIsGrowth(Start(), events, pieceLength);
      ExactCapacity(pieceLength / MAX_BLOCK_SIZE);
      RunKeepsInv(Start(), events, pieceLength, content, Some(ExactGrowth()), 0);
    }
  }

  /** With vectors that grow by some policy, the notified pieces are what the peer holds, and nothing
      more, exactly if by that policy the blocks of a piece end up in an allocation of its length. */
  lemma NotifiedExactlyByGrowth(events: seq<Event>, pieceLength: nat, content: Content, growth: Growth)
    requires Pieces(pieceLength, content)
    requires HonestRun(Start(), events, pieceLength, content) && GrowthRun(Start(), events, pieceLength, Some(growth))
    ensures var s := Run(Start(), events, pieceLength);
            && Trusted(s) <= |s.notified|
            && (forall i :: 0 <= i < Trusted(s) ==>
                  var n := s.notified[i];
                  && |content(n.index)| == pieceLength && content(n.index) <= n.data
                  && (n.data == content(n.index) <==> CapAfter(growth, pieceLength / MAX_BLOCK_SIZE) == pieceLength))
  {
    RunKeepsInv(Start(), events, pieceLength, content, Some(growth), 0);
  }

  /** Between the unchoke and the first failed selection the bytes that arrived and the bytes still
      requested add up to the whole blocks of the piece.  So the peer owes a block at every moment
      exactly if pieces consist of whole blocks; otherwise a piece never completes. */
  lemma NothingIsLost(events: seq<Event>, pieceLength: nat, content: Content)
    requires Pieces(pieceLength, content)
    requires HonestRun(Start(), events, pieceLength, content)
    ensures var s := Run(Start(), events, pieceLength);
            !s.peer.choking && s.failedAt.None? ==>
              && |s.peer.piece.data| == s.peer.piece.downloaded < pieceLength
              && s.peer.piece.downloaded + MAX_BLOCK_SIZE * |s.pending|
                 == MAX_BLOCK_SIZE * (pieceLength / MAX_BLOCK_SIZE)
              && (s.pending == [] ==> pieceLength % MAX_BLOCK_SIZE != 0)
              && (pieceLength % MAX_BLOCK_SIZE != 0 ==> s.notified == [])
  {
    AnyGrowth(Start(), events, pieceLength);
    RunKeepsInv(Start(), events, pieceLength, content, None, 0);
  }

  lemma SmallMultiple(d: int, n: int)
    requires -n < d * n < n
    ensures d == 0
  {
  }

  lemma Quotient(q: nat, n: nat, r: nat, a: nat)
    requires q * n + r == a && r < n
    ensures a / n == q && a % n == r
  {
    assert a == a / n * n + a % n;
    assert (a / n - q) * n == r - a % n;
    SmallMultiple(a / n - q, n);
  }

  /** Every `n` blocks answered complete a piece of `n` blocks, and the blocks left over are those of
      the piece at hand; a piece that is not whole blocks long takes its whole blocks and no more. */
  lemma EveryPieceCompletes(events: seq<Event>, pieceLength: nat, content: Content)
    requires Pieces(pieceLength, content)
    requires HonestRun(Start(), events, pieceLength, content)
    ensures var s, n, answered := Run(Start(), events, pieceLength), pieceLength / MAX_BLOCK_SIZE, BlocksIn(events);
            s.failedAt.None? ==>
              if pieceLength % MAX_BLOCK_SIZE == 0
              then |s.notified| == answered / n && s.peer.piece.downloaded == MAX_BLOCK_SIZE * (answered % n)
              else s.notified == [] && s.peer.piece.downloaded == MAX_BLOCK_SIZE * answered && answered <= n
  {
    AnyGrowth(Start(), events, pieceLength);
    RunKeepsInv(Start(), events, pieceLength, content, None, 0);
    var s, n := Run(Start(), events, pieceLength), pieceLength / MAX_BLOCK_SIZE;
    if s.failedAt.None? && pieceLength % MAX_BLOCK_SIZE == 0 {
      Quotient(|s.notified|, n, s.peer.piece.downloaded / MAX_BLOCK_SIZE, BlocksIn(events));
    }
  }

  // ------------------------------------------------------------ after a failed selection

  /** A round that selects nothing, and brings no other block of the finished piece. */
  predicate StaysStale(s: System, e: Event, pieceLength: nat) {
    var h := Handle(s.peer, e.message, e.first, e.slack, pieceLength).state;
    && !(e.message.Block? && e.message.index == s.peer.piece.index)
    && (e.message.Unchoke? ==> Search(e.first.ours, s.peer.theirs, e.first.skips).None?)
    && (h.choking || Search(e.second.ours, h.theirs, e.second.skips).None?)
  }

  predicate StaleRun(s: System, events: seq<Event>, pieceLength: nat)
    decreases events
  {
    events == [] ||
    (StaysStale(s, events[0], pieceLength) && StaleRun(Step(s, events[0], pieceLength), events[1..], pieceLength))
  }

  lemma StaleStep(s: System, e: Event, pieceLength: nat)
    requires Stale(s.peer.piece) && StaysStale(s, e, pieceLength)
    ensures var t := Step(s, e, pieceLength);
            && t.peer.piece == s.peer.piece
            && t.notified == s.notified + [Notice(s.peer.piece.index, s.peer.piece.spare)]
  {
    assert [] + s.peer.piece.spare == s.peer.piece.spare;
  }

  function Repeated(n: Notice, k: nat): seq<Notice> {
    if k == 0 then [] else [n] + Repeated(n, k - 1)
  }

  /** After a failed selection every further message has the finished piece notified again, however
      many they are, until a selection succeeds. */
  lemma {:induction false} NotifiedAgainAndAgain(s: System, events: seq<Event>, pieceLength: nat)
    requires Stale(s.peer.piece) && StaleRun(s, events, pieceLength)
    ensures var t := Run(s, events, pieceLength);
            && t.peer.piece == s.peer.piece
            && t.notified == s.notified + Repeated(Notice(s.peer.piece.index, s.peer.piece.spare), |events|)
    decreases events
  {
    hide Step, StaysStale, PieceComplete;
    if events == [] {
      assert s.notified + [] == s.notified;
    } else {
      var n, t := Notice(s.peer.piece.index, s.peer.piece.spare), Step(s, events[0], pieceLength);
      StaleStep(s, events[0], pieceLength);
      assert Run(s, events, pieceLength) == Run(t, events[1..], pieceLength) && StaleRun(t, events[1..], pieceLength);
      RepeatedMore(n, |events| - 1);
      hide Run, StaleRun, Repeated;
      NotifiedAgainAndAgain(t, events[1..], pieceLength);
      assert s.notified + [n] + Repeated(n, |events| - 1) == s.notified + ([n] + Repeated(n, |events| - 1));
    }
  }

  lemma RepeatedMore(n: Notice, k: nat)
    ensures Repeated(n, k + 1) == [n] + Repeated(n, k)
  {
  }

  /** A round that notifies a piece and then selects nothing leaves it stale. */
  lemma FailureIsStale(s: System, e: Event, pieceLength: nat)
    requires PieceComplete(Handle(s.peer, e.message, e.first, e.slack, pieceLength).state.piece)
    requires var h := Handle(s.peer, e.message, e.first, e.slack, pieceLength).state;
             SelectionFails(h.(piece := Emptied(h.piece)), e.second)
    ensures var p, t := Handle(s.peer, e.message, e.first, e.slack, pieceLength).state.piece, Step(s, e, pieceLength);
            && Stale(t.peer.piece) && Notice(t.peer.piece.index, t.peer.piece.spare) == Notice(p.index, p.Allocation())
            && t.notified == s.notified + [Notice(p.index, p.Allocation())]
  {
    FailedSelectionLeavesStale(Handle(s.peer, e.message, e.first, e.slack, pieceLength).state, e.second, pieceLength);
    hide Handle, Finish, Stale, SelectionFails, PieceComplete;
  }

  /** A round that notifies a piece and then selects nothing, and the rounds after it: one notification for
      each, always the same. */
  lemma {:induction false} NotifiedAfterFailure(s: System, e: Event, events: seq<Event>, pieceLength: nat)
    requires PieceComplete(Handle(s.peer, e.message, e.first, e.slack, pieceLength).state.piece)
    requires var h := Handle(s.peer, e.message, e.first, e.slack, pieceLength).state;
             SelectionFails(h.(piece := Emptied(h.piece)), e.second)
    requires StaleRun(Step(s, e, pieceLength), events, pieceLength)
    ensures var p := Handle(s.peer, e.message, e.first, e.slack, pieceLength).state.piece;
            Run(Step(s, e, pieceLength), events, pieceLength).notified
            == s.notified + Repeated(Notice(p.index, p.Allocation()), |events| + 1)
  {
    var p := Handle(s.peer, e.message, e.first, e.slack, pieceLength).state.piece;
    var n := Notice(p.index, p.Allocation());
    hide Run, StaleRun, Repeated;
    FailureIsStale(s, e, pieceLength);
    hide Step, Handle, Stale, SelectionFails, PieceComplete;
    NotifiedAgainAndAgain(Step(s, e, pieceLength), events, pieceLength);
    RepeatedMore(n, |events|);
    assert s.notified + [n] + Repeated(n, |events|) == s.notified + ([n] + Repeated(n, |events|));
  }

  // ------------------------------------------------------------ concrete runs

  const NOTHING: Look := Look([0], 0)
  const EVERYTHING: Look := Look([1], 0)

  /** A peer that holds piece 0 unchokes and answers one request; then we have the piece. */
  function OneBlock(payload: seq<byte>, slack: seq<byte>): seq<Event> {
    [Event(Bitfield([1]), NOTHING, NOTHING, []), Event(Unchoke, NOTHING, NOTHING, []),
     Event(Block(0, 0, payload), NOTHING, EVERYTHING, slack)]
  }

  lemma OneBitSearches()
    ensures Search([0], [1], 0) == Some(0) && Search([1], [1], 0) == None
    ensures ToBits([1]) == [1]
  {
    MaskValues();
    assert Mismatches([0], [1], 1) == [0];
    assert Mismatches([1], [1], 1) == [];
    assert Has(1, 0) && !Has(0, 0);
    assert Wanted([0], [1], 0);
  }

  /** The peer's state once its bits have arrived. */
  const INTRODUCED: PeerState := PeerState(true, false, [1], NO_PIECE)

  function FirstPiece(pieceLength: nat): Piece {
    NO_PIECE.(size := pieceLength, present := true)
  }

  /** The run after the unchoke: one block is requested, also if the piece is a little longer. */
  function Requesting(pieceLength: nat): System {
    System(INTRODUCED.(choking := false, piece := FirstPiece(pieceLength)), [Request(0, 0, MAX_BLOCK_SIZE)], [], None)
  }

  lemma Introduces(pieceLength: nat)
    ensures Step(Start(), Event(Bitfield([1]), NOTHING, NOTHING, []), pieceLength)
         == System(INTRODUCED, [], [], None)
  {
    var e := Event(Bitfield([1]), NOTHING, NOTHING, []);
    IntroducesPeer(pieceLength);
    hide Handle, Search;
    assert [InterestedToo] + [] == [InterestedToo] && [InterestedToo][1..] == [];
  }

  lemma IntroducesPeer(pieceLength: nat)
    ensures Handle(Start().peer, Bitfield([1]), NOTHING, [], pieceLength) == Effect(INTRODUCED, [InterestedToo])
  {
    OneBitSearches();
    hide Search;
  }

  lemma OneRequest(pieceLength: nat)
    requires MAX_BLOCK_SIZE <= pieceLength <= MAX_BLOCK_SIZE + 1
    ensures RequestsFor(FirstPiece(pieceLength), pieceLength) == [Request(0, 0, MAX_BLOCK_SIZE)]
    ensures RequestsOf([Request(0, 0, MAX_BLOCK_SIZE)]) == [Request(0, 0, MAX_BLOCK_SIZE)]
  {
    assert [Request(0, 0, MAX_BLOCK_SIZE)][1..] == [];
  }

  lemma Unchokes(pieceLength: nat)
    requires MAX_BLOCK_SIZE <= pieceLength <= MAX_BLOCK_SIZE + 1
    ensures Step(System(INTRODUCED, [], [], None), Event(Unchoke, NOTHING, NOTHING, []), pieceLength)
         == Requesting(pieceLength)
  {
    OneBitSearches();
    OneRequest(pieceLength);
    hide Search, RequestsFor, RequestsOf;
    var rs := [Request(0, 0, MAX_BLOCK_SIZE)];
    assert rs + [] == rs && [] + rs == rs;
  }

  /** Two rounds in front of a run. */
  lemma RunTwo(s: System, a: Event, t: System, b: Event, u: System, rest: seq<Event>, pieceLength: nat,
               content: Content)
    requires t == Step(s, a, pieceLength) && u == Step(t, b, pieceLength)
    ensures Run(s, [a, b] + rest, pieceLength) == Run(u, rest, pieceLength)
    ensures HonestRun(s, [a, b] + rest, pieceLength, content) <==>
              Honest(s, a, content) && Honest(t, b, content) && HonestRun(u, rest, pieceLength, content)
  {
    assert ([a, b] + rest)[1..] == [b] + rest && ([b] + rest)[1..] == rest;
  }

  /** The first two rounds of the concrete runs. */
  lemma Opens(rest: seq<Event>, pieceLength: nat, content: Content)
    requires MAX_BLOCK_SIZE <= pieceLength <= MAX_BLOCK_SIZE + 1
    ensures var run := [Event(Bitfield([1]), NOTHING, NOTHING, []), Event(Unchoke, NOTHING, NOTHING, [])] + rest;
            && Run(Start(), run, pieceLength) == Run(Requesting(pieceLength), rest, pieceLength)
            && (HonestRun(Start(), run, pieceLength, content)
                <==> HonestRun(Requesting(pieceLength), rest, pieceLength, content))
  {
    Introduces(pieceLength);
    Unchokes(pieceLength);
    hide Step, HonestRun, Run, Search;
    RunTwo(Start(), Event(Bitfield([1]), NOTHING, NOTHING, []), System(INTRODUCED, [], [], None),
           Event(Unchoke, NOTHING, NOTHING, []), Requesting(pieceLength), rest, pieceLength, content);
  }

  lemma OneBlockHandled(pieceLength: nat, payload: seq<byte>, slack: seq<byte>)
    requires |payload| == MAX_BLOCK_SIZE <= pieceLength
    ensures var h := Handle(Requesting(pieceLength).peer, Block(0, 0, payload), NOTHING, slack, pieceLength);
            && h.state == Requesting(pieceLength).peer.(
                            piece := Piece(0, pieceLength, MAX_BLOCK_SIZE, true, payload, slack))
            && RequestsOf(h.out) == []
  {
    PayloadAppended(FirstPiece(pieceLength), payload, slack);
    assert [] + payload == payload;
    assert [HavePiece(0), InterestedToo][1..] == [InterestedToo] && [InterestedToo][1..] == [];
    assert RequestsOf([InterestedToo]) == [];
    hide Resized;
  }

  /** A piece one byte longer than a block: the block is answered, nothing more is owed, and nothing
      is notified. */
  lemma PartialBlockWaits(payload: seq<byte>, slack: seq<byte>)
    requires |payload| == MAX_BLOCK_SIZE
    ensures var content: Content, L := i => payload + [0], MAX_BLOCK_SIZE + 1;
            var s := Run(Start(), OneBlock(payload, slack), L);
            && HonestRun(Start(), OneBlock(payload, slack), L, content)
            && s.pending == [] && s.notified == [] && s.peer.piece.downloaded == MAX_BLOCK_SIZE < L
  {
    var content: Content, L := i => payload + [0], MAX_BLOCK_SIZE + 1;
    var e := Event(Block(0, 0, payload), NOTHING, EVERYTHING, slack);
    Opens([e], L, content);
    OneBlockHandled(L, payload, slack);
    StepOfBlock(Requesting(L), e, L);
    assert OneBlock(payload, slack)
        == [Event(Bitfield([1]), NOTHING, NOTHING, []), Event(Unchoke, NOTHING, NOTHING, [])] + [e];
    assert content(0)[0..MAX_BLOCK_SIZE] == payload;
    hide Handle, Step, RequestsOf, DownloadNext;
    assert [e][1..] == [] && [Request(0, 0, MAX_BLOCK_SIZE)][1..] == [];
  }

  /** The piece is notified, and no other one was left to select. */
  function AllSelected(bytes: seq<byte>): System {
    System(INTRODUCED.(choking := false, piece := Piece(0, MAX_BLOCK_SIZE, MAX_BLOCK_SIZE, false, [], bytes)),
           [], [Notice(0, bytes)], Some(1))
  }

  /** The block completes the piece, and no other piece is left to select. */
  lemma OnlyPieceNotified(payload: seq<byte>, slack: seq<byte>)
    requires |payload| == MAX_BLOCK_SIZE
    ensures Step(Requesting(MAX_BLOCK_SIZE), Event(Block(0, 0, payload), NOTHING, EVERYTHING, slack), MAX_BLOCK_SIZE)
         == AllSelected(payload + slack)
  {
    OneBitSearches();
    OneBlockHandled(MAX_BLOCK_SIZE, payload, slack);
    StepOfBlock(Requesting(MAX_BLOCK_SIZE), Event(Block(0, 0, payload), NOTHING, EVERYTHING, slack), MAX_BLOCK_SIZE);
    hide Handle, Step, Search;
    assert RequestsOf([]) == [] && [Request(0, 0, MAX_BLOCK_SIZE)][1..] + ([] + []) == [];
    assert [] + [Notice(0, payload + slack)] == [Notice(0, payload + slack)];
  }

  /** The only piece, of one block: it is notified, no other piece is left to select, and the next
      message, whatever it says, has it notified again. */
  lemma LastPieceTwice(payload: seq<byte>, slack: seq<byte>)
    requires |payload| == MAX_BLOCK_SIZE
    ensures var content: Content := i => payload;
            var run := OneBlock(payload, slack) + [Event(Interested, EVERYTHING, EVERYTHING, [])];
            var s := Run(Start(), run, MAX_BLOCK_SIZE);
            && HonestRun(Start(), run, MAX_BLOCK_SIZE, content)
            && s.failedAt == Some(1)
            && s.notified == [Notice(0, payload + slack), Notice(0, payload + slack)]
  {
    var content: Content, L := i => payload, MAX_BLOCK_SIZE;
    hide Search, Step, Handle;
    var e := Event(Block(0, 0, payload), NOTHING, EVERYTHING, slack);
    var again := Event(Interested, EVERYTHING, EVERYTHING, []);
    Opens([e, again], L, content);
    assert OneBlock(payload, slack) + [again]
        == [Event(Bitfield([1]), NOTHING, NOTHING, []), Event(Unchoke, NOTHING, NOTHING, [])] + [e, again];
    assert content(0)[0..L] == payload;
    OnlyPieceNotified(payload, slack);
    var u := Step(Requesting(L), e, L);
    hide Search, Step;
    RepeatsNotice(u, payload + slack);
    assert [e, again] == [e, again] + [];
    RunTwo(Requesting(L), e, u, again, Step(u, again, L), [], L, content);
    hide Honest;
    assert Run(Step(u, again, L), [], L) == Step(u, again, L);
  }

  lemma RepeatsNotice(u: System, bytes: seq<byte>)
    requires u == AllSelected(bytes)
    ensures var t := Step(u, Event(Interested, EVERYTHING, EVERYTHING, []), MAX_BLOCK_SIZE);
            t.notified == [Notice(0, bytes), Notice(0, bytes)] && t.failedAt == Some(1)
  {
    OneBitSearches();
    hide Search;
    StaleStep(u, Event(Interested, EVERYTHING, EVERYTHING, []), MAX_BLOCK_SIZE);
  }
}
