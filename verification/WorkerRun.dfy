/** The loop of a worker process as a function of the bytes of its connection, wherever they are cut. */
module WorkerRun {
  import opened Basics
  import opened Bits
  import opened DownloadRun
  import opened Endian
  import opened PeerMachine
  import opened PeerWire
  import opened Reception
  import opened Sending
  import opened Stream
  import opened VectorGrowth
  import Channel

  /** What a round meets by chance: what its selections see, what memory holds, the time, what other
      processes write to the FIFO until this one has the semaphore, and the padding of its header. */
  datatype Turn = Turn(first: Look, second: Look, memory: Memory, now: nat, others: seq<byte>, padding: Word)

  /** The connection, what was sent over it, the pieces notified, and the bytes in the FIFO. */
  datatype Worker = Worker(link: Link, sent: seq<seq<byte>>, notified: seq<Notice>, stream: seq<byte>)

  /** The part of a round after the message. */
  function Finished(w: Worker, t: Turn, pieceLength: nat): (r: Worker)
    ensures r.link == w.link.(peer := r.link.peer)
  {
    var f := Finish(w.link.peer, t.second, pieceLength);
    var u := w.(link := w.link.(peer := f.state), sent := w.sent + Packets(f.out));
    if f.notice.None? then u
    else u.(notified := u.notified + [f.notice.value],
            stream := u.stream + t.others + Channel.Frame(Channel.Outgoing(f.notice.value, t.padding)))
  }

  /** One round of the loop. */
  function Round(w: Worker, t: Turn, pieceLength: nat): (r: Outcome<Worker>)
    requires NoEmpty(w.link.segs)
    ensures r.Ok? ==> NoEmpty(r.value.link.segs)
  {
    var e :- Receive(w.link, t.first, t.memory, t.now, pieceLength);
    Ok(Finished(w.(link := e.link, sent := w.sent + Packets(e.out)), t, pieceLength))
  }

  /** The loop, until the socket is no longer healthy or the turns are used up. */
  function Loop(w: Worker, turns: seq<Turn>, pieceLength: nat): (r: Outcome<Worker>)
    requires NoEmpty(w.link.segs)
    ensures r.Ok? ==> NoEmpty(r.value.link.segs)
    decreases turns
  {
    if turns == [] then Ok(w) else
      var u :- Round(w, turns[0], pieceLength);
      if u.link.healthy then Loop(u, turns[1..], pieceLength) else Ok(u)
  }

  // ------------------------------------------------------------ blocks are assembled

  /** A block changes what was downloaded only by appending its whole payload.  A block that is refused,
      or whose payload does not arrive completely, changes nothing of it. */
  lemma BlockKeepsPrefix(piece: Piece, segs: Segments, closed: bool, length: uint32, slack: seq<byte>)
    requires NoEmpty(segs) && piece.downloaded <= |piece.data|
    ensures var r := ReceiveBlock(piece, segs, closed, length, slack);
            r.Ok? ==>
              var p, payload := r.value.piece, if r.value.accepted.Some? then r.value.accepted.value else [];
              && p == piece.(downloaded := piece.downloaded + |payload|, data := p.data, spare := p.spare)
              && p.downloaded <= |p.data|
              && p.data[..p.downloaded] == piece.data[..piece.downloaded] + payload
  {
    if segs != [] || closed {
      var rest := Skip(segs, Taken(segs, 8));
      hide Skip, Taken, Overlay, BlockIndex, BlockLength;
      PayloadKeepsPrefix(piece, rest, closed, BlockLength(length), slack);
    }
  }

  lemma PayloadKeepsPrefix(piece: Piece, segs: Segments, closed: bool, n: nat, slack: seq<byte>)
    requires NoEmpty(segs) && piece.downloaded <= |piece.data|
    ensures var r := ReceivePayload(piece, segs, closed, n, slack);
            r.Ok? ==>
              var p, payload := r.value.piece, if r.value.accepted.Some? then r.value.accepted.value else [];
              && p == piece.(downloaded := piece.downloaded + |payload|, data := p.data, spare := p.spare)
              && p.downloaded <= |p.data|
              && p.data[..p.downloaded] == piece.data[..piece.downloaded] + payload
  {
    hide Skip, Concat, Resized;
    var d, r := piece.downloaded, ReceivePayload(piece, segs, closed, n, slack);
    if r.Ok? {
      var room := WithSize(piece, d + n, slack);
      ResizedFront(piece.data, d, n);
      hide WithSize;
      if r.value.accepted.None? {
        WrittenBehind(room.data, d, Concat(segs));
        assert piece.data[..d] + [] == piece.data[..d];
      }
    }
  }

  lemma ResizedFront(data: seq<byte>, d: nat, n: nat)
    requires d <= |data|
    ensures Resized(data, d + n)[..d] == data[..d]
  {
  }

  lemma WrittenBehind(data: seq<byte>, at: nat, chunk: seq<byte>)
    requires at + |chunk| <= |data|
    ensures Written(data, at, chunk)[..at] == data[..at]
  {
  }

  /** The payloads accepted since a piece was selected, after the message of a round. */
  function AfterMessage(w: Worker, accepted: seq<byte>, t: Turn, pieceLength: nat): seq<byte>
    requires NoEmpty(w.link.segs) && Receive(w.link, t.first, t.memory, t.now, pieceLength).Ok?
  {
    var e := Receive(w.link, t.first, t.memory, t.now, pieceLength).value;
    if e.link.peer.piece.present && !w.link.peer.piece.present then []
    else accepted + if e.accepted.Some? then e.accepted.value else []
  }

  /** The same after the whole round: with its notification a piece is done. */
  function AfterRound(w: Worker, accepted: seq<byte>, t: Turn, pieceLength: nat): seq<byte>
    requires NoEmpty(w.link.segs) && Round(w, t, pieceLength).Ok?
  {
    if |Round(w, t, pieceLength).value.notified| > |w.notified| then [] else AfterMessage(w, accepted, t, pieceLength)
  }

  function AfterLoop(w: Worker, accepted: seq<byte>, turns: seq<Turn>, pieceLength: nat): seq<byte>
    requires NoEmpty(w.link.segs) && Loop(w, turns, pieceLength).Ok?
    decreases turns
  {
    if turns == [] then accepted
    else
      var u, more := Round(w, turns[0], pieceLength).value, AfterRound(w, accepted, turns[0], pieceLength);
      if u.link.healthy then AfterLoop(u, more, turns[1..], pieceLength) else more
  }

  /** While a piece is there, its downloaded bytes are the payloads accepted since it was selected. */
  predicate Assembled(piece: Piece, accepted: seq<byte>) {
    piece.present ==> piece.downloaded <= |piece.data| && piece.data[..piece.downloaded] == accepted
  }

  /** An unchoke or the end of a round leaves the piece as it is, or selects a new one. */
  lemma SelectedOrKept(s: PeerState, look: Look, pieceLength: nat)
    ensures var p := DownloadNext(s, look, pieceLength).state.piece;
            p == s.piece || (!s.piece.present && p.present && p.downloaded == 0 && p.data == [])
  {
    hide Search, RequestsFor;
  }

  lemma BlockKeepsPresence(piece: Piece, segs: Segments, closed: bool, length: uint32, slack: seq<byte>)
    requires NoEmpty(segs)
    ensures var r := ReceiveBlock(piece, segs, closed, length, slack); r.Ok? ==> r.value.piece.present == piece.present
  {
    hide Skip, Taken, Overlay, BlockIndex, BlockLength, Concat;
  }

  /** Only an unchoke and a block change the piece. */
  lemma DispatchPiece(link: Link, kind: byte, length: uint32, look: Look, memory: Memory, now: nat, pieceLength: nat)
    requires NoEmpty(link.segs)
    ensures var r := Dispatch(link, kind, length, look, memory, now, pieceLength);
            r.Ok? ==>
              var p := r.value.link.peer.piece;
              if kind == 7 then
                var e := ReceiveBlock(link.peer.piece, link.segs, link.closed, length, memory.slack);
                e.Ok? && p == e.value.piece && r.value.accepted == e.value.accepted
              else
                && r.value.accepted.None?
                && p == if kind == 1 then DownloadNext(link.peer.(choking := false), look, pieceLength).state.piece
                        else link.peer.piece
  {
    hide ReceiveBlock, ReceiveHave, ReceiveBitfield, DownloadNext;
  }

  lemma DispatchAssembles(link: Link, accepted: seq<byte>, kind: byte, length: uint32, look: Look, memory: Memory,
                          now: nat, pieceLength: nat)
    requires NoEmpty(link.segs) && Assembled(link.peer.piece, accepted)
    ensures var r := Dispatch(link, kind, length, look, memory, now, pieceLength);
            r.Ok? ==>
              var p := r.value.link.peer.piece;
              Assembled(p, if p.present && !link.peer.piece.present then []
                           else accepted + if r.value.accepted.Some? then r.value.accepted.value else [])
  {
    var piece := link.peer.piece;
    assert accepted + [] == accepted;
    DispatchPiece(link, kind, length, look, memory, now, pieceLength);
    SelectedOrKept(link.peer.(choking := false), look, pieceLength);
    hide Dispatch, ReceiveBlock, DownloadNext;
    BlockKeepsPresence(piece, link.segs, link.closed, length, memory.slack);
    if kind == 7 && piece.present {
      BlockKeepsPrefix(piece, link.segs, link.closed, length, memory.slack);
    }
  }

  lemma MessageAssembles(w: Worker, accepted: seq<byte>, t: Turn, pieceLength: nat)
    requires NoEmpty(w.link.segs) && Assembled(w.link.peer.piece, accepted)
    ensures var r := Receive(w.link, t.first, t.memory, t.now, pieceLength);
            r.Ok? ==> Assembled(r.value.link.peer.piece, AfterMessage(w, accepted, t, pieceLength))
  {
    var link := w.link;
    assert accepted + [] == accepted;
    if link.ready && (link.segs != [] || link.closed) {
      var k := Taken(link.segs, HEADER);
      var header := Overlay(Concat(link.segs)[..k], Zeros(HEADER));
      var body := link.(segs := Skip(link.segs, k));
      DispatchAssembles(body, accepted, header[4], LengthOf(header), t.first, t.memory, t.now, pieceLength);
    }
    hide Skip, Taken, Overlay, LengthOf, Dispatch, Concat, Assembled;
  }

  /** A round keeps the assembly, and what it notifies of a piece that was there are the payloads
      accepted since the piece was selected, with what the allocation holds behind them. */
  lemma RoundAssembles(w: Worker, accepted: seq<byte>, t: Turn, pieceLength: nat)
    requires NoEmpty(w.link.segs) && Assembled(w.link.peer.piece, accepted)
    ensures var r := Round(w, t, pieceLength);
            r.Ok? ==>
              && Assembled(r.value.link.peer.piece, AfterRound(w, accepted, t, pieceLength))
              && (|r.value.notified| > |w.notified| &&
                  Receive(w.link, t.first, t.memory, t.now, pieceLength).value.link.peer.piece.present ==>
                    && r.value.notified[..|w.notified|] == w.notified && |r.value.notified| == |w.notified| + 1
                    && AfterMessage(w, accepted, t, pieceLength) <= r.value.notified[|w.notified|].data)
  {
    MessageAssembles(w, accepted, t, pieceLength);
    hide Receive, AfterMessage, Search, RequestsFor, Channel.Frame;
  }

  /** Whatever bytes the peer sends, and however they are cut: over any run of the loop, while a piece
      is there, its data begins with the payloads accepted since it was selected, and its count is
      their length. */
  lemma {:induction false} DataIsWhatWasAccepted(w: Worker, accepted: seq<byte>, turns: seq<Turn>, pieceLength: nat)
    requires NoEmpty(w.link.segs) && Assembled(w.link.peer.piece, accepted)
    ensures var r := Loop(w, turns, pieceLength);
            r.Ok? ==> Assembled(r.value.link.peer.piece, AfterLoop(w, accepted, turns, pieceLength))
    decreases turns
  {
    if turns == [] {
    } else {
      RoundAssembles(w, accepted, turns[0], pieceLength);
      var u := Round(w, turns[0], pieceLength);
      if u.Ok? && u.value.link.healthy {
        DataIsWhatWasAccepted(u.value, AfterRound(w, accepted, turns[0], pieceLength), turns[1..], pieceLength);
      }
      hide Round, AfterRound, Assembled;
    }
  }

  // ------------------------------------------------------------ the end of the loop

  /** Once a round leaves the socket unhealthy, no further round takes place, whatever it would meet. */
  lemma {:induction false} NothingAfterEnd(w: Worker, turns: seq<Turn>, more: seq<Turn>, pieceLength: nat)
    requires NoEmpty(w.link.segs) && turns != []
    requires var r := Loop(w, turns, pieceLength); r.Ok? ==> !r.value.link.healthy
    ensures Loop(w, turns + more, pieceLength) == Loop(w, turns, pieceLength)
    decreases turns
  {
    hide Round;
    assert (turns + more)[0] == turns[0] && (turns + more)[1..] == turns[1..] + more;
    var u := Round(w, turns[0], pieceLength);
    if u.Ok? && u.value.link.healthy {
      NothingAfterEnd(u.value, turns[1..], more, pieceLength);
    }
  }

  /** Behind the last byte of a closed connection, with no complete piece at hand: a keep-alive is sent, and
      with the second round in one second the worker ends. */
  lemma ClosedEndsWorker(w: Worker, a: Turn, b: Turn, more: seq<Turn>, pieceLength: nat)
    requires w.link.ready && w.link.segs == [] && w.link.closed && !PieceComplete(w.link.peer.piece)
    requires a.now != w.link.keepAlive && b.now == a.now
    ensures Loop(w, [a, b] + more, pieceLength)
         == Ok(w.(link := w.link.(healthy := false, keepAlive := a.now), sent := w.sent + [[0, 0, 0, 0, 0]]))
  {
    hide Receive, Loop, Packet;
    var u := w.(link := w.link.(healthy := true, keepAlive := a.now), sent := w.sent + [[0, 0, 0, 0, 0]]);
    ClosedReadsAsKeepAlive(w.link, a.first, a.memory, a.now, pieceLength);
    ClosedReadsAsKeepAlive(u.link, b.first, b.memory, b.now, pieceLength);
    PacketBytes(KeepAlive);
    SentMore(w.sent, [KeepAlive], []);
    NothingSent(w.sent);
    assert Packets([KeepAlive]) == [[0, 0, 0, 0, 0]] && [KeepAlive] + [] == [KeepAlive];
    NothingSent(u.sent);
    NothingSent(u.sent + Packets([]));
    assert Round(w, a, pieceLength) == Ok(u);
    assert Round(u, b, pieceLength) == Ok(u.(link := u.link.(healthy := false)));
    LoopTwo(w, a, b, pieceLength);
    NothingAfterEnd(w, [a, b], more, pieceLength);
  }

  lemma LoopOne(w: Worker, a: Turn, pieceLength: nat)
    requires NoEmpty(w.link.segs)
    ensures Loop(w, [a], pieceLength) == Round(w, a, pieceLength)
  {
    hide Round;
    assert [a][1..] == [];
  }

  lemma LoopTwo(w: Worker, a: Turn, b: Turn, pieceLength: nat)
    requires NoEmpty(w.link.segs)
    requires var u := Round(w, a, pieceLength); u.Ok? && u.value.link.healthy
    ensures var u := Round(w, a, pieceLength); Loop(w, [a, b], pieceLength) == Round(u.value, b, pieceLength)
  {
    hide Round;
    assert [a, b][1..] == [b];
    LoopOne(Round(w, a, pieceLength).value, b, pieceLength);
  }

  // ------------------------------------------------------------ streams that carry messages

  /** The messages of the events stand in the stream one behind the other, each cut only where it
      may be cut. */
  ghost predicate Carries(segs: Segments, s: System, events: seq<Event>, pieceLength: nat)
    decreases events
  {
    events == [] ||
    (&& Arrives(segs, events[0].message) && Fits(s.peer.piece, events[0].message)
     && Carries(After(segs, events[0].message, s.peer.piece.index), Step(s, events[0], pieceLength), events[1..],
                pieceLength))
  }

  /** The rounds meet what the events say. */
  predicate Meets(turns: seq<Turn>, events: seq<Event>) {
    |turns| == |events| &&
    forall i :: 0 <= i < |events| ==>
      && turns[i].first == events[i].first && turns[i].second == events[i].second
      && turns[i].memory.slack == events[i].slack
  }

  /** A round on a message that arrives completely is a step of the run. */
  lemma RoundIsStep(w: Worker, s: System, t: Turn, e: Event, pieceLength: nat)
    requires w.link.ready && Arrives(w.link.segs, e.message) && Fits(s.peer.piece, e.message)
    requires w.link.peer == s.peer && w.notified == s.notified
    requires t.first == e.first && t.second == e.second && t.memory.slack == e.slack
    ensures var r, u := Round(w, t, pieceLength), Step(s, e, pieceLength);
            && r.Ok? && r.value.link.peer == u.peer && r.value.notified == u.notified
            && r.value.link.ready && r.value.link.healthy == w.link.healthy
            && r.value.link.segs == After(w.link.segs, e.message, s.peer.piece.index)
  {
    ArrivingIsHandled(w.link, e.message, t.first, t.memory, t.now, pieceLength);
    hide Packets, Receive, Handle, After, Arrives, DownloadNext, Channel.Frame;
  }

  /** On a stream that carries the messages of a run, block payloads cut anywhere, the loop notifies
      exactly the pieces of the run. */
  lemma {:induction false} LoopFollowsRun(w: Worker, s: System, turns: seq<Turn>, events: seq<Event>, pieceLength: nat)
    requires w.link.ready && w.link.healthy && NoEmpty(w.link.segs)
    requires w.link.peer == s.peer && w.notified == s.notified
    requires Meets(turns, events) && Carries(w.link.segs, s, events, pieceLength)
    ensures var r, u := Loop(w, turns, pieceLength), Run(s, events, pieceLength);
            r.Ok? && r.value.link.peer == u.peer && r.value.notified == u.notified
    decreases turns
  {
    hide Round, Step, Arrives, After, Fits;
    if turns == [] {
    } else {
      RoundIsStep(w, s, turns[0], events[0], pieceLength);
      var u, t := Round(w, turns[0], pieceLength).value, Step(s, events[0], pieceLength);
      assert Meets(turns[1..], events[1..]) && Carries(u.link.segs, t, events[1..], pieceLength);
      assert Loop(w, turns, pieceLength) == Loop(u, turns[1..], pieceLength);
      assert Run(s, events, pieceLength) == Run(t, events[1..], pieceLength);
      hide Loop, Run, Meets, Carries;
      LoopFollowsRun(u, t, turns[1..], events[1..], pieceLength);
    }
  }

  /** And a round sends the packets of the step. */
  lemma RoundSends(w: Worker, s: System, t: Turn, e: Event, pieceLength: nat)
    requires w.link.ready && Arrives(w.link.segs, e.message) && Fits(s.peer.piece, e.message)
    requires w.link.peer == s.peer
    requires t.first == e.first && t.second == e.second && t.memory.slack == e.slack
    ensures var r := Round(w, t, pieceLength);
            var out := Work(s.peer, e.message, e.first, e.second, e.slack, pieceLength).out;
            r.Ok? && r.value.sent == w.sent + Packets(out)
  {
    hide Receive, Handle, After, Arrives, DownloadNext, Channel.Frame, Finish, Packets;
    ArrivingIsHandled(w.link, e.message, t.first, t.memory, t.now, pieceLength);
    var h := Handle(s.peer, e.message, e.first, e.slack, pieceLength);
    var f := Finish(h.state, e.second, pieceLength);
    SentMore(w.sent, h.out, f.out);
  }

  /** On a stream that carries the messages of a run the loop sends exactly the packets of the run. */
  lemma {:induction false} LoopSendsRun(w: Worker, s: System, turns: seq<Turn>, events: seq<Event>, pieceLength: nat)
    requires w.link.ready && w.link.healthy && NoEmpty(w.link.segs)
    requires w.link.peer == s.peer && w.notified == s.notified
    requires Meets(turns, events) && Carries(w.link.segs, s, events, pieceLength)
    ensures var r := Loop(w, turns, pieceLength);
            r.Ok? && r.value.sent == w.sent + Packets(Outputs(s, events, pieceLength))
    decreases turns
  {
    hide Round, Step, Arrives, After, Fits, Work, Packets;
    if turns == [] {
      NothingSent(w.sent);
    } else {
      var e := events[0];
      RoundIsStep(w, s, turns[0], e, pieceLength);
      RoundSends(w, s, turns[0], e, pieceLength);
      var u, t := Round(w, turns[0], pieceLength).value, Step(s, e, pieceLength);
      assert Meets(turns[1..], events[1..]) && Carries(u.link.segs, t, events[1..], pieceLength);
      assert Loop(w, turns, pieceLength) == Loop(u, turns[1..], pieceLength);
      var out := Work(s.peer, e.message, e.first, e.second, e.slack, pieceLength).out;
      var more := Outputs(t, events[1..], pieceLength);
      assert Outputs(s, events, pieceLength) == out + more;
      hide Loop, Meets, Carries, Outputs;
      LoopSendsRun(u, t, turns[1..], events[1..], pieceLength);
      SentMore(w.sent, out, more);
    }
  }

  lemma SentMore(sent: seq<seq<byte>>, a: seq<Outgoing>, b: seq<Outgoing>)
    ensures sent + Packets(a) + Packets(b) == sent + Packets(a + b)
  {
    PacketsMore(a, b);
    hide Packets;
  }

  /** From bytes to bytes: on such a stream the requests that an honest peer still has to answer are those
      it reads in the packets that the loop sent, without as many from the front as blocks have come. */
  lemma PeerAnswersWhatWasSent(w: Worker, turns: seq<Turn>, events: seq<Event>, pieceLength: nat, content: Content)
    requires w.link.ready && w.link.healthy && w.link.peer == Start().peer && w.notified == [] && w.sent == []
    requires NoEmpty(w.link.segs) && Meets(turns, events) && Carries(w.link.segs, Start(), events, pieceLength)
    requires HonestRun(Start(), events, pieceLength, content)
    ensures var r := Loop(w, turns, pieceLength);
            && r.Ok? && BlocksIn(events) <= |Asked(r.value.sent)|
            && Run(Start(), events, pieceLength).pending == Asked(r.value.sent)[BlocksIn(events)..]
  {
    LoopSendsRun(w, Start(), turns, events, pieceLength);
    PendingIsUnanswered(Start(), events, pieceLength, content);
    var out := Outputs(Start(), events, pieceLength);
    AskedIsRequested(out);
    assert [] + Packets(out) == Packets(out) && [] + RequestsOf(out) == RequestsOf(out);
    hide Loop, Run, HonestRun, Carries, Outputs, Packets;
  }

  // ------------------------------------------------------------ what the parent reads

  /** During the turns the other processes write whole frames, given by turn. */
  predicate WholeFrames(turns: seq<Turn>, others: seq<seq<Channel.Outgoing>>) {
    |others| == |turns| &&
    forall i :: 0 <= i < |turns| ==> turns[i].others == Channel.Frames(others[i]) && Channel.AllWritable(others[i])
  }

  /** The pieces that get into the FIFO over a run: with each that this loop notifies, the others' of that
      turn and then its own. */
  function Gathered(w: Worker, turns: seq<Turn>, others: seq<seq<Channel.Outgoing>>, pieceLength: nat): seq<Notice>
    requires NoEmpty(w.link.segs) && Loop(w, turns, pieceLength).Ok? && |others| == |turns|
    decreases turns
  {
    if turns == [] then []
    else
      var u := Round(w, turns[0], pieceLength).value;
      (if |u.notified| > |w.notified| then Channel.Notices(others[0]) + u.notified[|w.notified|..] else [])
      + if u.link.healthy then Gathered(u, turns[1..], others[1..], pieceLength) else []
  }

  /** A notice whose index and size fit their fields. */
  predicate Fitting(n: Notice) {
    |n.data| < TWO_TO_THE_64 && n.index < TWO_TO_THE_64
  }

  predicate AllFitting(ns: seq<Notice>) {
    forall i :: 0 <= i < |ns| ==> Fitting(ns[i])
  }

  /** A round that notifies adds one piece, and to the FIFO what others write and the piece's frame. */
  lemma RoundWrites(w: Worker, t: Turn, os: seq<Channel.Outgoing>, pieceLength: nat)
    requires NoEmpty(w.link.segs) && t.others == Channel.Frames(os)
    ensures var r := Round(w, t, pieceLength);
            r.Ok? ==>
              var u := r.value;
              && w.notified <= u.notified && |u.notified| <= |w.notified| + 1
              && u.stream == if |u.notified| == |w.notified| then w.stream
                             else w.stream + Channel.Frames(os)
                                  + Channel.Frame(Channel.Outgoing(u.notified[|w.notified|], t.padding))
  {
    hide Receive, Channel.Frame, Channel.Frames, Search, RequestsFor;
  }

  lemma RoundGathers(before: seq<byte>, os: seq<Channel.Outgoing>, o: Channel.Outgoing, more: seq<Channel.Outgoing>)
    ensures before + Channel.Frames(os) + Channel.Frame(o) + Channel.Frames(more)
         == before + Channel.Frames(os + [o] + more)
    ensures Channel.Notices(os + [o] + more) == Channel.Notices(os) + [o.notice] + Channel.Notices(more)
  {
    hide Channel.Frame;
    assert [o][..0] == [] && Channel.Frames([o]) == Channel.Frame(o);
    Channel.FramesConcat(os + [o], more);
    Channel.FramesConcat(os, [o]);
  }

  lemma NothingGathered(before: seq<byte>)
    ensures before + Channel.Frames([]) == before && Channel.Notices([]) == []
  {
  }

  /** The stream grows by whole frames, of the pieces gathered. */
  lemma {:induction false} StreamIsFrames(w: Worker, turns: seq<Turn>, others: seq<seq<Channel.Outgoing>>,
                                          pieceLength: nat) returns (es: seq<Channel.Outgoing>)
    requires NoEmpty(w.link.segs) && Loop(w, turns, pieceLength).Ok? && WholeFrames(turns, others)
    ensures var r := Loop(w, turns, pieceLength).value;
            && w.notified <= r.notified && r.stream == w.stream + Channel.Frames(es)
            && Channel.Notices(es) == Gathered(w, turns, others, pieceLength)
    ensures AllFitting(Loop(w, turns, pieceLength).value.notified) ==> Channel.AllWritable(es)
    decreases turns
  {
    hide Round, Channel.Frame, Channel.Frames, Channel.Notices;
    if turns == [] {
      es := [];
      NothingGathered(w.stream);
    } else {
      RoundWrites(w, turns[0], others[0], pieceLength);
      var u := Round(w, turns[0], pieceLength).value;
      var more: seq<Channel.Outgoing>;
      if u.link.healthy {
        more := StreamIsFrames(u, turns[1..], others[1..], pieceLength);
      } else {
        more := [];
        NothingGathered(u.stream);
      }
      hide Loop;
      if |u.notified| > |w.notified| {
        var o := Channel.Outgoing(u.notified[|w.notified|], turns[0].padding);
        RoundGathers(w.stream, others[0], o, more);
        assert u.notified[|w.notified|..] == [o.notice];
        es := others[0] + [o] + more;
      } else {
        es := more;
      }
    }
  }

  /** Without other processes, what is gathered are the notices of this loop, in order. */
  lemma {:induction false} GatheredAlone(w: Worker, turns: seq<Turn>, others: seq<seq<Channel.Outgoing>>,
                                         pieceLength: nat)
    requires NoEmpty(w.link.segs) && Loop(w, turns, pieceLength).Ok? && WholeFrames(turns, others)
    requires forall i :: 0 <= i < |others| ==> others[i] == []
    ensures var r := Loop(w, turns, pieceLength).value;
            w.notified <= r.notified && Gathered(w, turns, others, pieceLength) == r.notified[|w.notified|..]
    decreases turns
  {
    hide Round, Channel.Frame, Channel.Frames;
    if turns == [] {
    } else {
      RoundWrites(w, turns[0], others[0], pieceLength);
      var u := Round(w, turns[0], pieceLength).value;
      if u.link.healthy {
        GatheredAlone(u, turns[1..], others[1..], pieceLength);
      }
      assert Channel.Notices([]) == [];
    }
  }

  /** Over any run, whatever the peer sends: a reader of the FIFO finds in it the pieces that were there
      before, and then exactly those gathered, each once.  With no other process writing they are the
      pieces that this loop notifies, in order. */
  lemma StreamHoldsNotices(w: Worker, turns: seq<Turn>, start: seq<Channel.Outgoing>,
                           others: seq<seq<Channel.Outgoing>>, pieceLength: nat)
    requires NoEmpty(w.link.segs) && Loop(w, turns, pieceLength).Ok? && WholeFrames(turns, others)
    requires w.stream == Channel.Frames(start) && Channel.AllWritable(start)
    requires AllFitting(Loop(w, turns, pieceLength).value.notified)
    ensures var r := Loop(w, turns, pieceLength).value;
            && w.notified <= r.notified
            && Channel.Deframed(r.stream) == Channel.Notices(start) + Gathered(w, turns, others, pieceLength)
            && ((forall i :: 0 <= i < |others| ==> others[i] == []) ==>
                  Channel.Deframed(r.stream) == Channel.Notices(start) + r.notified[|w.notified|..])
  {
    hide Loop, Gathered, Channel.Frames, Channel.Notices, Channel.Deframed;
    var es := StreamIsFrames(w, turns, others, pieceLength);
    FramesDeframed(start, es);
    if forall i :: 0 <= i < |others| ==> others[i] == [] {
      GatheredAlone(w, turns, others, pieceLength);
    }
  }

  lemma FramesDeframed(a: seq<Channel.Outgoing>, b: seq<Channel.Outgoing>)
    requires Channel.AllWritable(a) && Channel.AllWritable(b)
    ensures Channel.Deframed(Channel.Frames(a) + Channel.Frames(b)) == Channel.Notices(a) + Channel.Notices(b)
  {
    hide Channel.Frame;
    Channel.DeframeFrames(a, Channel.Frames(b));
    Channel.DeframeFrames(b, []);
    assert Channel.Frames(b) + [] == Channel.Frames(b) && Channel.Deframed([]) == [];
    assert Channel.Notices(b) + [] == Channel.Notices(b);
    hide Channel.Frames, Channel.Deframed, Channel.Notices;
  }

  /** From bytes to pieces: if the stream of a new connection carries a run against an honest peer, what
      the loop notifies before the first failed selection begins with what the peer holds; and it is
      exactly that if and only if the vectors grow so that a piece ends up in an allocation of its
      length. */
  lemma BytesToPieces(w: Worker, turns: seq<Turn>, events: seq<Event>, pieceLength: nat, content: Content,
                      growth: Growth)
    requires w.link.ready && w.link.healthy && w.link.peer == Start().peer && w.notified == []
    requires NoEmpty(w.link.segs) && Meets(turns, events) && Carries(w.link.segs, Start(), events, pieceLength)
    requires Pieces(pieceLength, content) && HonestRun(Start(), events, pieceLength, content)
    ensures var r, s := Loop(w, turns, pieceLength), Run(Start(), events, pieceLength);
            && r.Ok? && Trusted(s) <= |r.value.notified|
            && (forall i :: 0 <= i < Trusted(s) ==>
                  var n := r.value.notified[i];
                  && |content(n.index)| == pieceLength && content(n.index) <= n.data
                  && (AllFit(events) ==> n.data == content(n.index))
                  && (GrowthRun(Start(), events, pieceLength, Some(growth)) ==>
                        (n.data == content(n.index)
                         <==> CapAfter(growth, pieceLength / MAX_BLOCK_SIZE) == pieceLength)))
  {
    LoopFollowsRun(w, Start(), turns, events, pieceLength);
    NotifiedPiecesAreRight(events, pieceLength, content);
    if GrowthRun(Start(), events, pieceLength, Some(growth)) {
      NotifiedExactlyByGrowth(events, pieceLength, content, growth);
    }
    hide Loop, Run, HonestRun, Carries;
  }
}
