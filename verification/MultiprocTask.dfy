/** The class `multiproc_task`: the loop of a worker process, from the bytes of its connection to the
    frames it writes to its parent. */
module MultiprocTask {
  import opened Basics
  import opened PeerMachine
  import opened PeerWire
  import opened Reception
  import opened TorrentPeer
  import opened WorkerRun
  import Channel
  import Stream

  /** The FIFO and its semaphore as one process uses them. */
  class MainChannel {
    var mutex: nat
    var stream: seq<byte>

    constructor ()
      ensures mutex == 1 && stream == []
    {
      mutex, stream := 1, [];
    }

    /** Waits for a semaphore whose value is at most one.  Until then other processes may write. */
    method Wait(others: seq<byte>)
      modifies this
      ensures mutex == 0 && stream == old(stream) + others
    {
      stream := stream + others;
      mutex := 0;
    }

    method Write(bytes: seq<byte>)
      modifies this`stream
      ensures stream == old(stream) + bytes
    {
      stream := stream + bytes;
    }

    method Post()
      modifies this`mutex
      ensures mutex == old(mutex) + 1
    {
      mutex := mutex + 1;
    }
  }

  class MultiprocTask {
    const peer: TorrentPeer
    const ourself: Ourself
    const mainChannel: MainChannel
    ghost var notified: seq<Notice>

    ghost predicate Valid()
      reads this, peer, peer.tcp, peer.bitfield, peer.bitfield.bytes
      reads ourself.bitfieldPieces, ourself.bitfieldPieces.Data()
    {
      peer.Valid() && peer.Apart(ourself)
    }

    /** What the next round meets, and what was done so far. */
    ghost function State(): (w: Worker)
      reads this, peer, peer.tcp, peer.bitfield, peer.bitfield.bytes, mainChannel
      requires peer.Valid()
      ensures Stream.NoEmpty(w.link.segs)
    {
      Worker(peer.Connection(), peer.tcp.sent, notified, mainChannel.stream)
    }

    /** How many bytes of our bits the processes share. */
    ghost function SharedBytes(): nat
      reads ourself.bitfieldPieces, ourself.bitfieldPieces.Data()
      requires ourself.bitfieldPieces.Valid()
    {
      |ourself.bitfieldPieces.Contents()|
    }

    constructor (them: TorrentPeer, us: Ourself, channel: MainChannel)
      requires them.Valid() && them.Apart(us)
      ensures peer == them && ourself == us && mainChannel == channel && Valid() && notified == []
    {
      peer, ourself, mainChannel, notified := them, us, channel, [];
    }

    /** Writes the header and the whole allocation of the piece while holding the semaphore, and empties
        the piece. */
    method NotifyDownloadedPiece(others: seq<byte>, padding: Word)
      modifies this`notified, peer`piece, mainChannel
      ensures var n := Notice(old(peer.piece.index), old(peer.piece.Allocation()));
              && notified == old(notified) + [n]
              && mainChannel.stream == old(mainChannel.stream) + others + Channel.Frame(Channel.Outgoing(n, padding))
              && mainChannel.mutex == 1
      ensures peer.piece == Emptied(old(peer.piece))
    {
      var outputData := peer.piece.Allocation();
      var o := Channel.Outgoing(Notice(peer.piece.index, outputData), padding);
      mainChannel.Wait(others);
      mainChannel.Write(Channel.Header(o));
      mainChannel.Write(outputData);
      assert mainChannel.stream == old(mainChannel.stream) + others + Channel.Frame(o);
      mainChannel.Post();
      notified := notified + [o.notice];
      peer.EmptyDownloadPiece();
    }

    /** Other processes have changed our bits in the shared memory. */
    method OthersSet(bits: seq<bv8>)
      requires Valid() && |bits| == SharedBytes()
      modifies ourself.bitfieldPieces.Data()
      ensures Valid() && ourself.bitfieldPieces.Contents() == bits
      ensures State() == old(State())
    {
      ourself.bitfieldPieces.Store(bits);
    }

    /** Notifies a complete piece and selects the next one. */
    method FinishPiece(t: Turn)
      requires Valid() && ourself.bitfieldPieces.Contents() == t.second.ours
      modifies this`notified, peer`piece, peer.tcp`sent, mainChannel
      ensures Valid() && ourself.bitfieldPieces.Contents() == t.second.ours
      ensures State() == Finished(old(State()), t, ourself.pieceLength)
    {
      hide Packet, DownloadNext, Channel.Frame;
      ghost var before := peer.Snapshot();
      if peer.piece.downloaded != 0 && peer.piece.downloaded >= peer.piece.size {
        NotifyDownloadedPiece(t.others, t.padding);
        assert peer.Snapshot() == before.(piece := Emptied(before.piece));
        var started := peer.DownloadNextPiece(ourself, t.second.skips);
      } else {
        assert Packets([]) == [] && peer.tcp.sent + [] == peer.tcp.sent;
      }
    }

    /** One round of the loop: for every way the stream is cut, what the model of a round says.  Before
        each selection our bits may have changed. */
    method Round(t: Turn) returns (r: Outcome<bool>)
      requires Valid() && |t.first.ours| == |t.second.ours| == SharedBytes()
      modifies this, peer, peer.tcp, peer.bitfield, peer.bitfield.bytes, mainChannel, ourself.bitfieldPieces.Data()
      ensures Valid() && SharedBytes() == old(SharedBytes())
      ensures ourself.bitfieldPieces.Data() == old(ourself.bitfieldPieces.Data())
      ensures peer.bitfield.bytes == old(peer.bitfield.bytes) || fresh(peer.bitfield.bytes)
      ensures match WorkerRun.Round(old(State()), t, ourself.pieceLength)
              case Fails(f) => r == Fails(f)
              case Ok(w) => r == Ok(w.link.healthy) && State() == w
    {
      hide Receive, Finished, Packets;
      OthersSet(t.first.ours);
      var received := peer.ReceiveMessage(ourself, t.first.skips, t.memory, t.now);
      if received.Fails? {
        return Fails(received.fault);
      }
      OthersSet(t.second.ours);
      FinishPiece(t);
      return Ok(peer.socketHealthy);
    }

    /** The loop, for every stream and every way it is cut. */
    method Work(turns: seq<Turn>) returns (r: Outcome<()>)
      requires Valid()
      requires forall i :: 0 <= i < |turns| ==> |turns[i].first.ours| == |turns[i].second.ours| == SharedBytes()
      modifies this, peer, peer.tcp, peer.bitfield, peer.bitfield.bytes, mainChannel, ourself.bitfieldPieces.Data()
      ensures Valid()
      ensures match Loop(old(State()), turns, ourself.pieceLength)
              case Fails(f) => r == Fails(f)
              case Ok(w) => r == Ok(()) && State() == w
    {
      hide WorkerRun.Round;
      var i := 0;
      while i < |turns|
        invariant 0 <= i <= |turns| && Valid() && SharedBytes() == old(SharedBytes())
        invariant ourself.bitfieldPieces.Data() == old(ourself.bitfieldPieces.Data())
        invariant peer.bitfield.bytes == old(peer.bitfield.bytes) || fresh(peer.bitfield.bytes)
        invariant Loop(State(), turns[i..], ourself.pieceLength) == Loop(old(State()), turns, ourself.pieceLength)
      {
        assert turns[i..][0] == turns[i] && turns[i..][1..] == turns[i + 1..];
        var alive := Round(turns[i]);
        if alive.Fails? {
          return Fails(alive.fault);
        }
        if !alive.value {
          return Ok(());
        }
        i := i + 1;
      }
      return Ok(());
    }
  }
}
