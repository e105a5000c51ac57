/** What is sent over whole runs of a connection: the requests as their peer reads them, and the pieces
    announced. */
module Sending {
  import opened Basics
  import opened Completion
  import opened DownloadRun
  import opened Endian
  import opened PeerMachine
  import opened PeerWire

  /** Everything that is sent over a run, in order. */
  function Outputs(s: System, events: seq<Event>, pieceLength: nat): seq<Outgoing>
    decreases events
  {
    if events == [] then []
    else
      var e := events[0];
      Work(s.peer, e.message, e.first, e.second, e.slack, pieceLength).out
      + Outputs(Step(s, e, pieceLength), events[1..], pieceLength)
  }

  /** The number that four bytes say, high one first. */
  function Number(bs: Word): nat {
    ((bs[0] as int * 256 + bs[1]) * 256 + bs[2]) * 256 + bs[3]
  }

  lemma NumberBack(x: uint32)
    ensures Number(HighFirst(x)) == x
  {
    Quarters(x);
    var a, b := x / 256, x / 0x1_0000;
    assert x == a * 256 + x % 256;
    assert a == b * 256 + a % 256 && b == b / 256 * 256 + b % 256;
    assert a / 256 == b;
  }

  /** Is a packet a request: 13 bytes of type 6 (BEP 3, section "peer messages")? */
  predicate IsRequest(packet: seq<byte>) {
    |packet| == 17 && packet[..5] == [0, 0, 0, 13, 6]
  }

  /** What a peer is asked for in packets, in order. */
  function Asked(packets: seq<seq<byte>>): seq<Outgoing> {
    if packets == [] then []
    else
      var p := packets[0];
      (if IsRequest(p) then [Request(Number(p[5..9]), Number(p[9..13]), Number(p[13..17]))] else [])
      + Asked(packets[1..])
  }

  lemma AskedOne(o: Outgoing)
    ensures var p := Packet(o);
            && (IsRequest(p) <==> o.Request?)
            && (o.Request? ==> o == Request(Number(p[5..9]), Number(p[9..13]), Number(p[13..17])))
  {
    hide Packet, Number, HighFirst, Frame;
    PacketBytes(o);
    if o.Request? {
      assert Packet(o)[5..9] == HighFirst(o.index) && Packet(o)[9..13] == HighFirst(o.begin);
      assert Packet(o)[13..17] == HighFirst(o.length) && Packet(o)[..5] == [0, 0, 0, 13, 6];
      NumberBack(o.index);
      NumberBack(o.begin);
      NumberBack(o.length);
    }
  }

  /** The requests that are sent are what their packets ask for. */
  lemma {:induction false} AskedIsRequested(out: seq<Outgoing>)
    ensures Asked(Packets(out)) == RequestsOf(out)
  {
    hide Packet, IsRequest, Number;
    if out == [] {
    } else {
      AskedOne(out[0]);
      assert Packets(out)[1..] == Packets(out[1..]);
      AskedIsRequested(out[1..]);
    }
  }

  lemma RestOfRest(a: seq<Outgoing>, b: seq<Outgoing>, c: seq<Outgoing>, n: nat)
    requires n <= |a| + |b| + |c| && a != []
    ensures n >= 1 ==> (a + (b + c))[n..] == (a[1..] + b + c)[n - 1..]
    ensures (a + (b + c))[n..] == (a + b + c)[n..]
  {
  }

  /** The requests that an honest peer still has to answer are those that were sent, without as many from
      the front as blocks have come. */
  lemma {:induction false} PendingIsUnanswered(s: System, events: seq<Event>, pieceLength: nat, content: Content)
    requires HonestRun(s, events, pieceLength, content)
    ensures var sent, n := s.pending + RequestsOf(Outputs(s, events, pieceLength)), BlocksIn(events);
            n <= |sent| && Run(s, events, pieceLength).pending == sent[n..]
    decreases events
  {
    hide Work, RequestsOf;
    if events == [] {
      assert s.pending + RequestsOf([]) == s.pending by { RequestsOfRequests([]); }
    } else {
      var e, t := events[0], Step(s, events[0], pieceLength);
      var out := Work(s.peer, e.message, e.first, e.second, e.slack, pieceLength).out;
      var more := Outputs(t, events[1..], pieceLength);
      PendingIsUnanswered(t, events[1..], pieceLength, content);
      RequestsOfConcat(out, more);
      hide Step;
      if e.message.Block? {
        RestOfRest(s.pending, RequestsOf(out), RequestsOf(more), BlocksIn(events));
      }
      assert s.pending + (RequestsOf(out) + RequestsOf(more)) == s.pending + RequestsOf(out) + RequestsOf(more);
    }
  }

  // ------------------------------------------------------------ whole messages

  /** A packet that its first four bytes say the length of (BEP 3, section "peer messages"). */
  predicate WholeMessage(packet: seq<byte>) {
    |packet| >= 4 && Number(packet[..4]) == |packet| - 4
  }

  lemma WholeExceptKeepAlive(o: Outgoing)
    ensures WholeMessage(Packet(o)) <==> !o.KeepAlive?
    ensures !o.KeepAlive? ==> Packet(o)[..4] in {[0, 0, 0, 1], [0, 0, 0, 5], [0, 0, 0, 13]}
  {
    hide Packet, HighFirst, Frame;
    PacketBytes(o);
    if o.Request? {
      assert Packet(o)[..4] == [0, 0, 0, 13];
    } else if o.HavePiece? {
      assert Packet(o)[..4] == [0, 0, 0, 5];
    } else if o.InterestedToo? {
      assert Packet(o)[..4] == [0, 0, 0, 1];
    }
  }

  /** A keep-alive is sent with one byte too many.  To a peer that reads messages by their lengths the four
      bytes behind it are another keep-alive, and whatever follows has a length of 2^24 or more. */
  lemma KeepAliveShiftsNext(o: Outgoing, rest: seq<byte>)
    requires !o.KeepAlive? && |Packet(o) + rest| >= 7
    ensures var bs := Packet(KeepAlive) + Packet(o) + rest;
            bs[..4] == [0, 0, 0, 0] == bs[4..8] && Number(bs[8..12]) >= 0x100_0000
  {
    hide Packet, Frame;
    WholeExceptKeepAlive(o);
    PacketBytes(KeepAlive);
    var bs, p := Packet(KeepAlive) + Packet(o) + rest, Packet(o);
    assert |p| >= 4 && bs[5] == p[..4][0] && bs[6] == p[..4][1] && bs[7] == p[..4][2] && bs[8] == p[..4][3];
  }

  // ------------------------------------------------------------ requesting again

  /** Some blocks of a piece have come, the others are requested; then a choke and an unchoke. */
  function ChokedAndUnchoked(s: PeerState, first: Look, second: Look, slack: seq<byte>, pieceLength: nat): Effect {
    Handle(Handle(s, Choke, first, slack, pieceLength).state, Unchoke, second, slack, pieceLength)
  }

  /** The open requests are sent again, in order, and behind them as many as blocks have come, all beyond
      the whole blocks of the piece. */
  lemma RequestedAgain(s: PeerState, pending: seq<Outgoing>, first: Look, second: Look, slack: seq<byte>,
                       pieceLength: nat, content: Content)
    requires Addressable(pieceLength) && Fetching(s.piece, pending, pieceLength, content, None) && !s.choking
    requires s.piece.downloaded / MAX_BLOCK_SIZE + pieceLength / MAX_BLOCK_SIZE <= MAX_BLOCKS
    ensures var e, k := ChokedAndUnchoked(s, first, second, slack, pieceLength), s.piece.downloaded / 16384;
            && e.state == s && |e.out| == |pending| + k && pending <= e.out
            && (forall i :: |pending| <= i < |e.out| ==>
                  e.out[i].Request? && e.out[i].begin == 16384 * (k + i)
                  && e.out[i].begin >= 16384 * (pieceLength / 16384))
  {
    var n, k := pieceLength / MAX_BLOCK_SIZE, s.piece.downloaded / MAX_BLOCK_SIZE;
    var rs := RequestsFor(s.piece, pieceLength);
    forall i | 0 <= i < n
      ensures rs[i] == Request(ToU32(s.piece.index), MAX_BLOCK_SIZE * (k + i), MAX_BLOCK_SIZE)
    {
      assert rs[i] == RequestAt(s.piece, ToU32(MAX_BLOCK_SIZE * i));
    }
    RemainingIsTiles(s.piece.index, k, n, rs[..n - k]);
  }

  /** While a message leaves the connection choked, nothing is requested and no piece selected. */
  lemma ChokedRequestsNothing(s: PeerState, e: Event, pieceLength: nat)
    requires e.message.Choke? || (s.choking && !e.message.Unchoke?)
    ensures var w := Work(s, e.message, e.first, e.second, e.slack, pieceLength);
            w.state.choking && RequestsOf(w.out) == [] && (w.state.piece.present ==> s.piece.present)
  {
    MessageRequestsNothing(s, e.message, e.first, e.slack, pieceLength);
    var h := Handle(s, e.message, e.first, e.slack, pieceLength);
    hide Handle, RequestsOf, RequestsFor;
    assert h.out + [] == h.out;
  }

  lemma MessageRequestsNothing(s: PeerState, m: Message, look: Look, slack: seq<byte>, pieceLength: nat)
    requires !m.Unchoke?
    ensures var h := Handle(s, m, look, slack, pieceLength);
            && RequestsOf(h.out) == [] && h.state.piece.present == s.piece.present
            && h.state.choking == (m.Choke? || s.choking)
  {
    hide WithSize, DownloadNext;
    assert [InterestedToo][1..] == [] && RequestsOf([InterestedToo]) == [];
    if m.Block? {
      var index := ToU32(s.piece.index);
      assert [HavePiece(index), InterestedToo][1..] == [InterestedToo];
    }
  }

  // ------------------------------------------------------------ announcing pieces

  /** The pieces announced among what was sent. */
  function Announced(out: seq<Outgoing>): seq<nat> {
    if out == [] then []
    else (if out[0].HavePiece? then [out[0].index] else []) + Announced(out[1..])
  }

  function IndicesOf(ns: seq<Notice>): (indices: seq<nat>)
    ensures |indices| == |ns| && forall k :: 0 <= k < |ns| ==> indices[k] == ns[k].index
  {
    seq(|ns|, k requires 0 <= k < |ns| => ns[k].index)
  }

  lemma IndicesSplit(a: seq<Notice>, b: seq<Notice>, c: seq<Notice>)
    requires a <= b <= c
    ensures IndicesOf(c[|a|..]) == IndicesOf(b[|a|..]) + IndicesOf(c[|b|..])
    ensures Announced([]) == IndicesOf(a[|a|..])
  {
  }

  lemma {:induction false} AnnouncedConcat(a: seq<Outgoing>, b: seq<Outgoing>)
    ensures Announced(a + b) == Announced(a) + Announced(b)
  {
    if a == [] {
      assert a + b == b;
    } else {
      assert (a + b)[0] == a[0] && (a + b)[1..] == a[1..] + b;
      AnnouncedConcat(a[1..], b);
    }
  }

  lemma {:induction false} RequestsAnnounceNothing(rs: seq<Outgoing>)
    requires forall i :: 0 <= i < |rs| ==> rs[i].Request?
    ensures Announced(rs) == []
  {
    if rs == [] {
    } else {
      RequestsAnnounceNothing(rs[1..]);
    }
  }

  lemma SelectionAnnouncesNothing(s: PeerState, look: Look, pieceLength: nat)
    ensures Announced(DownloadNext(s, look, pieceLength).out) == []
  {
    RequestsAnnounceNothing(DownloadNext(s, look, pieceLength).out);
  }

  /** A message announces a piece exactly if it is a block of it and fills it. */
  lemma MessageAnnounces(s: PeerState, m: Message, look: Look, slack: seq<byte>, pieceLength: nat)
    ensures Announced(Handle(s, m, look, slack, pieceLength).out)
         == if m.Block? && m.index == s.piece.index && s.piece.downloaded + |m.payload| >= s.piece.size
            then [m.index] else []
  {
    SelectionAnnouncesNothing(s.(choking := false), look, pieceLength);
    hide DownloadNext, WithSize;
    assert [InterestedToo][1..] == [] && Announced([InterestedToo]) == [];
    if m.Block? {
      assert [HavePiece(m.index), InterestedToo][1..] == [InterestedToo];
    }
  }

  /** Before the first failed selection a round announces the piece that it notifies, and no other. */
  lemma RoundAnnounces(s: System, e: Event, pieceLength: nat, content: Content)
    requires Pieces(pieceLength, content) && Honest(s, e, content) && Inv(s, pieceLength, content, None)
    requires s.failedAt.None?
    ensures var t := Step(s, e, pieceLength);
            && s.notified <= t.notified
            && Announced(Work(s.peer, e.message, e.first, e.second, e.slack, pieceLength).out)
               == IndicesOf(t.notified[|s.notified|..])
  {
    var h := Handle(s.peer, e.message, e.first, e.slack, pieceLength);
    MessageAnnounces(s.peer, e.message, e.first, e.slack, pieceLength);
    SelectionAnnouncesNothing(h.state.(piece := Emptied(h.state.piece)), e.second, pieceLength);
    AnnouncedConcat(h.out, Finish(h.state, e.second, pieceLength).out);
    if e.message.Block? {
      assert e.message.index == s.peer.piece.index by { FirstPending(s, e, pieceLength, content); }
      AnswerSelects(s, e, pieceLength, content);
      BlockCompletes(s.peer, e, pieceLength);
    } else {
      OtherSelects(s, e, pieceLength, content);
    }
    hide Step, Handle, DownloadNext, Announced, Fetching, Right, Honest, Pieces;
  }

  lemma FirstPending(s: System, e: Event, pieceLength: nat, content: Content)
    requires Addressable(pieceLength) && Honest(s, e, content) && Inv(s, pieceLength, content, None)
    requires s.failedAt.None? && e.message.Block?
    ensures e.message.index == s.peer.piece.index && |e.message.payload| > 0 && !s.peer.choking
  {
    hide Right;
  }

  lemma BlockCompletes(s: PeerState, e: Event, pieceLength: nat)
    requires e.message.Block? && e.message.index == s.piece.index && |e.message.payload| > 0
    ensures PieceComplete(Handle(s, e.message, e.first, e.slack, pieceLength).state.piece)
       <==> s.piece.downloaded + |e.message.payload| >= s.piece.size
  {
    hide WithSize;
  }

  /** Over any run against an honest peer in which no selection has failed, exactly the pieces notified
      are announced to the peer, in order, each once for each notification. */
  lemma {:induction false} AnnouncedAreNotified(s: System, events: seq<Event>, pieceLength: nat, content: Content,
                                                answered: nat)
    requires Pieces(pieceLength, content) && HonestRun(s, events, pieceLength, content)
    requires Inv(s, pieceLength, content, None) && Progress(s, answered, pieceLength)
    ensures var u := Run(s, events, pieceLength);
            u.failedAt.None? ==>
              s.failedAt.None? && s.notified <= u.notified
              && Announced(Outputs(s, events, pieceLength)) == IndicesOf(u.notified[|s.notified|..])
    decreases events
  {
    hide Step, Work, Inv, Progress, Honest, Pieces, Announced, IndicesOf, GrowthRun;
    if events == [] {
      IndicesSplit(s.notified, s.notified, s.notified);
    } else {
      var e, t := events[0], Step(s, events[0], pieceLength);
      StepKeepsInv(s, e, pieceLength, content, None, answered);
      AnnouncedAreNotified(t, events[1..], pieceLength, content, answered + if e.message.Block? then 1 else 0);
      if s.failedAt.None? {
        RoundAnnounces(s, e, pieceLength, content);
        AnnouncedConcat(Work(s.peer, e.message, e.first, e.second, e.slack, pieceLength).out,
                        Outputs(t, events[1..], pieceLength));
        if t.notified <= Run(t, events[1..], pieceLength).notified {
          IndicesSplit(s.notified, t.notified, Run(t, events[1..], pieceLength).notified);
        }
      } else {
        FailedStays(s, e, pieceLength);
      }
    }
  }
}
