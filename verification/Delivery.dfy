/** What gets from the workers through the FIFO into the parent's files. */
module Delivery {
  import opened Basics
  import opened BoundedChannel
  import opened Channel
  import opened DownloadRun
  import opened PeerMachine
  import opened PieceFile
  import opened VectorGrowth
  import PeerWire

  // ------------------------------------------------------------ the room of the FIFO

  /** The pieces completed so far fit into the FIFO, and the sizes of the files count as positive. */
  predicate Bounds(b: Bounded, room: nat) {
    && (forall i :: 0 <= i < |b.s.completed| ==> |b.s.completed[i].notice.data| <= room)
    && (forall i :: 0 <= i < |b.files| ==> Countable(b.files[i]))
  }

  /** The parent's countdown for a piece of that size runs at all. */
  predicate Countable(n: Notice) {
    n.data == [] || ToInt32(|n.data|) > 0
  }

  /** The parent has read at most one header beyond the frames that are complete. */
  lemma ParentIsBehind(b: Bounded)
    requires Synced(b)
    ensures b.consumed <= |Frames(b.s.completed)| + HEADER_SIZE
  {
    var k := |b.files|;
    FramesConcat(b.s.completed[..k], b.s.completed[k..]);
    assert b.s.completed == b.s.completed[..k] + b.s.completed[k..];
  }

  lemma WriteKeepsBounds(b: Bounded, w: nat, n: nat, room: nat)
    requires Sound(b) && Synced(b) && Bounds(b, room) && CanHappen(b, Write(w, n), room)
    ensures Bounds(Happens(b, Write(w, n), room), room)
  {
    hide Frames, Unfinished, Channel.Inv, Holders, Synced, Frame;
    var t, o := Happens(b, Write(w, n), room), b.s.workers[w].o;
    ParentIsBehind(b);
    WriteExtends(b.s, w, n);
    FramesSnoc(b.s.completed, o);
    assert b.s.completed + [] == b.s.completed;
    assert t.s.completed == b.s.completed || t.s.completed == b.s.completed + [o];
    hide Sound;
  }

  lemma StepKeepsBounds(b: Bounded, a: Action, room: nat)
    requires Sound(b) && Synced(b) && Bounds(b, room) && CanHappen(b, a, room)
    requires a.ParentReleases? ==> Exact(b.size, Unread(b), b.capacity)
    ensures Bounds(Happens(b, a, room), room)
  {
    if a.Write? {
      WriteKeepsBounds(b, a.w, a.n, room);
    } else if a.ParentReleases? {
      FileWritten(b, room);
      FileIsPieceExactly(b.size, Unread(b), b.capacity);
      hide Sound, Synced, FileSize, Frames, ToInt32, CanHappen, Happens;
    } else {
      hide Sound, Synced, Frames, TypeField, SizeField, IndexField, FileSize;
    }
  }

  lemma {:induction false} RunKeepsBounds(b: Bounded, run: seq<Action>, room: nat)
    requires Sound(b) && Synced(b) && Bounds(b, room) && CanRun(b, run, room) && ExactRun(b, run, room)
    ensures Bounds(Ran(b, run, room), room)
    decreases run
  {
    if run == [] {
    } else {
      StepKeepsSound(b, run[0], room);
      StepKeepsBounds(b, run[0], room);
      SyncedStep(b, run[0], room);
      hide Sound, Synced, Bounds, Exact, CanHappen, Happens, Wrong;
      RunKeepsBounds(Happens(b, run[0], room), run[1..], room);
    }
  }

  /** Over any run of any number of workers in which every handling is exact, no piece with more data than
      the room of the FIFO is ever completed. */
  lemma CompletedPiecesFit(workers: nat, run: seq<Action>, room: nat)
    requires CanRun(Opened(workers), run, room) && ExactRun(Opened(workers), run, room)
    ensures Bounds(Ran(Opened(workers), run, room), room)
  {
    OpenedIsSound(workers);
    assert Frames([]) == [] && Opened(workers).s.completed[..0] == [];
    RunKeepsBounds(Opened(workers), run, room);
  }

  lemma ExactFrom(b: Bounded, a: Action, run: seq<Action>, room: nat)
    requires CanHappen(b, a, room) && CanRun(Happens(b, a, room), run, room)
    requires a.ParentReleases? ==> Exact(b.size, Unread(b), b.capacity)
    requires ExactRun(Happens(b, a, room), run, room)
    ensures CanRun(b, [a] + run, room) && Ran(b, [a] + run, room) == Ran(Happens(b, a, room), run, room)
    ensures ExactRun(b, [a] + run, room)
  {
    assert ([a] + run)[1..] == run;
  }

  /** The worker writes the data behind its header, and the parent, which waits, gets all of it. */
  lemma TakesOver(f: Bounded, o: Outgoing, room: nat) returns (run: seq<Action>)
    requires Writable(o) && Countable(o.notice) && |o.notice.data| <= room
    requires f.s.sem + Holders(f.s) == 1 && f.s.parent.Wanting? && |f.s.workers| > 0
    requires f.s.workers[0] == Writing(o, HEADER_SIZE) && Unread(f) == 0 && f.s.written == Header(o)
    requires f.size == |o.notice.data| && f.index == o.notice.index && f.files == []
    ensures CanRun(f, run, room) && ExactRun(f, run, room) && Ran(f, run, room).files == [o.notice]
  {
    var data := o.notice.data;
    var g := f;
    if data != [] {
      WritesOn(f, o, HEADER_SIZE, |data|, room);
      g := Happens(f, Write(0, |data|), room);
    }
    assert g.s.written == Header(o) + data by {
      assert Frame(o)[HEADER_SIZE..HEADER_SIZE + |data|] == data;
    }
    run := Handles(g, o, room);
    if data != [] {
      hide CanHappen, Happens, CanRun, Ran, ExactRun, Exact;
      ExactFrom(f, Write(0, |data|), run, room);
      run := [Write(0, |data|)] + run;
    }
  }

  /** The worker lets the semaphore go at the end of its frame, and the parent handles the piece. */
  lemma Handles(g: Bounded, o: Outgoing, room: nat) returns (run: seq<Action>)
    requires Writable(o) && Countable(o.notice) && |g.s.workers| > 0 && g.s.parent.Wanting?
    requires g.s.workers[0] == Writing(o, |Frame(o)|) && g.s.written == Header(o) + o.notice.data
    requires g.consumed == HEADER_SIZE
    requires g.size == |o.notice.data| && g.index == o.notice.index && g.files == []
    ensures CanRun(g, run, room) && ExactRun(g, run, room) && Ran(g, run, room).files == [o.notice]
  {
    var data := o.notice.data;
    hide Frame, Header;
    var h := Happens(g, Release(0), room);
    var i := Happens(h, ParentAcquires, room);
    FileIsPieceExactly(|data|, |data|, i.capacity);
    hide FileSize, ToInt32;
    assert Exact(i.size, Unread(i), i.capacity);
    assert i.s.written[HEADER_SIZE..HEADER_SIZE + |data|] == data;
    var j := Happens(i, ParentReleases, room);
    assert j.files == [o.notice];
    hide CanHappen, Happens, Exact;
    ExactFrom(i, ParentReleases, [], room);
    ExactFrom(h, ParentAcquires, [ParentReleases] + [], room);
    ExactFrom(g, Release(0), [ParentAcquires] + ([ParentReleases] + []), room);
    run := [Release(0)] + ([ParentAcquires] + ([ParentReleases] + []));
  }

  /** Some run in which every handling is exact puts the piece into a file. */
  ghost predicate CanDeliver(workers: nat, o: Outgoing, room: nat) {
    exists run ::
      && CanRun(Opened(workers), run, room) && ExactRun(Opened(workers), run, room)
      && o.notice in Ran(Opened(workers), run, room).files
  }

  lemma Delivers(workers: nat, o: Outgoing, room: nat)
    requires workers > 0 && Writable(o) && Countable(o.notice) && |o.notice.data| <= room && HEADER_SIZE <= room
    ensures CanDeliver(workers, o, room)
  {
    hide Frame, Holders, CanHappen, Happens, Countable, Exact, CanRun, Ran, ExactRun, Header;
    var c, d, e, f := Begins(workers, o, room);
    var run := TakesOver(f, o, room);
    ExactFrom(e, ParentWants, run, room);
    ExactFrom(d, Write(0, HEADER_SIZE), [ParentWants] + run, room);
    ExactFrom(c, Acquire(0), [Write(0, HEADER_SIZE)] + ([ParentWants] + run), room);
    ExactFrom(Opened(workers), Notify(0, o), [Acquire(0)] + ([Write(0, HEADER_SIZE)] + ([ParentWants] + run)), room);
  }

  /** A piece can get through, with nothing else in its file, exactly if it has no more data than the FIFO
      has room, and its size counts as positive. */
  lemma DeliversExactly(workers: nat, o: Outgoing, room: nat)
    requires Writable(o) && room >= HEADER_SIZE
    ensures CanDeliver(workers, o, room) <==> workers > 0 && |o.notice.data| <= room && Countable(o.notice)
  {
    if workers > 0 && |o.notice.data| <= room && Countable(o.notice) {
      Delivers(workers, o, room);
    }
    if CanDeliver(workers, o, room) {
      var run :| && CanRun(Opened(workers), run, room) && ExactRun(Opened(workers), run, room)
                 && o.notice in Ran(Opened(workers), run, room).files;
      NothingFromNobody(workers, run, room);
      CompletedPiecesFit(workers, run, room);
      FilesAreRightExactly(workers, run, room);
      var b := Ran(Opened(workers), run, room);
      var k :| 0 <= k < |b.files| && b.files[k] == o.notice;
      assert b.s.completed[k].notice == o.notice;
    }
  }

  lemma NothingFromNobody(workers: nat, run: seq<Action>, room: nat)
    requires CanRun(Opened(workers), run, room)
    ensures workers == 0 ==> Ran(Opened(workers), run, room).s.completed == []
  {
    if workers == 0 {
      NobodyWrites(Opened(0), run, room);
    }
  }

  lemma {:induction false} NobodyWrites(b: Bounded, run: seq<Action>, room: nat)
    requires CanRun(b, run, room) && b.s.workers == []
    ensures Ran(b, run, room).s.completed == b.s.completed
    decreases run
  {
    if run == [] {
    } else {
      NobodyWrites(Happens(b, run[0], room), run[1..], room);
    }
  }

  // ------------------------------------------------------------ from peers to files

  /** A notification of what a peer holds. */
  predicate Holds(n: Notice, pieceLength: nat, content: Content) {
    |n.data| == pieceLength && n.data == content(n.index)
  }

  /** All frames that are completed, or on their way, carry such notifications. */
  predicate AllHold(s: State, pieceLength: nat, content: Content) {
    && (forall i :: 0 <= i < |s.completed| ==> Holds(s.completed[i].notice, pieceLength, content))
    && (forall w :: 0 <= w < |s.workers| && !s.workers[w].Working? ==>
          Holds(s.workers[w].o.notice, pieceLength, content))
  }

  lemma {:induction false} FramesHold(b: Bounded, run: seq<Action>, room: nat, pieceLength: nat, content: Content)
    requires CanRun(b, run, room) && AllHold(b.s, pieceLength, content)
    requires forall o :: o in Notified(run) ==> Holds(o.notice, pieceLength, content)
    ensures AllHold(Ran(b, run, room).s, pieceLength, content)
    decreases run
  {
    hide Holds, Frame, TypeField, SizeField, IndexField, FileSize;
    if run == [] {
    } else {
      var a := run[0];
      assert forall o :: o in Notified(run[1..]) ==> o in Notified(run);
      assert a.Notify? ==> a.o in Notified(run);
      FramesHold(Happens(b, a, room), run[1..], room, pieceLength, content);
    }
  }

  /** The notification stands before the first failed selection of some run of a worker against a peer
      that holds the content, with vectors that grow by the policy. */
  ghost predicate FromPeer(n: Notice, pieceLength: nat, content: Content, growth: Growth) {
    exists events, i ::
      && HonestRun(Start(), events, pieceLength, content)
      && GrowthRun(Start(), events, pieceLength, Some(growth))
      && var s := DownloadRun.Run(Start(), events, pieceLength);
         0 <= i < Trusted(s) && i < |s.notified| && n == s.notified[i]
  }

  /** From peers to files: if what the workers notify comes from peers that hold the content, and pieces end
      up in allocations of their length, then over every run of any number of workers in which every
      handling is exact, every file is what the peers hold at its index. */
  lemma FilesHoldContent(workers: nat, run: seq<Action>, room: nat, pieceLength: nat, content: Content, growth: Growth)
    requires CanRun(Opened(workers), run, room) && ExactRun(Opened(workers), run, room)
    requires Pieces(pieceLength, content) && CapAfter(growth, pieceLength / PeerWire.MAX_BLOCK_SIZE) == pieceLength
    requires forall o :: o in Notified(run) ==> FromPeer(o.notice, pieceLength, content, growth)
    ensures forall i :: 0 <= i < |Ran(Opened(workers), run, room).files| ==>
              Holds(Ran(Opened(workers), run, room).files[i], pieceLength, content)
  {
    forall o | o in Notified(run)
      ensures Holds(o.notice, pieceLength, content)
    {
      PeerHolds(o.notice, pieceLength, content, growth);
    }
    FramesHold(Opened(workers), run, room, pieceLength, content);
    FilesAreRightExactly(workers, run, room);
    var b := Ran(Opened(workers), run, room);
    hide Holds, CanRun, Ran, ExactRun, FromPeer;
    forall i | 0 <= i < |b.files|
      ensures Holds(b.files[i], pieceLength, content)
    {
      assert b.files[i] == Notices(b.s.completed)[..|b.files|][i] == b.s.completed[i].notice;
    }
  }

  lemma PeerHolds(n: Notice, pieceLength: nat, content: Content, growth: Growth)
    requires Pieces(pieceLength, content) && CapAfter(growth, pieceLength / PeerWire.MAX_BLOCK_SIZE) == pieceLength
    requires FromPeer(n, pieceLength, content, growth)
    ensures Holds(n, pieceLength, content)
  {
    var events, i :|
      && HonestRun(Start(), events, pieceLength, content)
      && GrowthRun(Start(), events, pieceLength, Some(growth))
      && var s := DownloadRun.Run(Start(), events, pieceLength);
         0 <= i < Trusted(s) && i < |s.notified| && n == s.notified[i];
    NotifiedExactlyByGrowth(events, pieceLength, content, growth);
  }
}
