/** The same channel with its reader, and with a FIFO that holds a bounded number of unread bytes.
    The parent takes the header of a frame before it waits for the semaphore that the writer of the
    frame still holds, and reads whole buffers when it has it. */
module BoundedChannel {
  import opened Basics
  import opened Channel
  import opened PeerMachine
  import opened PieceFile

  /** The processes, how many of the written bytes the parent has read, the fields of the header it
      read last, the capacity of its buffer, and the files it wrote. */
  datatype Bounded = Bounded(s: State, consumed: nat, size: nat, index: nat, capacity: nat, files: seq<Notice>)

  function Opened(workers: nat): Bounded {
    Bounded(Started(workers, 1), 0, 0, 0, CAPACITY, [])
  }

  function Unread(b: Bounded): int {
    |b.s.written| - b.consumed
  }

  /** A write blocks while the FIFO has no room.  The parent polls until a whole header is there, and
      has the semaphore until its countdown ends. */
  predicate CanHappen(b: Bounded, a: Action, room: nat) {
    && Enabled(b.s, a)
    && match a
       case Write(_, n) => Unread(b) + n <= room
       case ParentWants => Unread(b) >= HEADER_SIZE
       case ParentReleases => Unread(b) >= 0 && FileSize(b.size, Unread(b), b.capacity).Some?
       case _ => true
  }

  /** The bytes that the parent reads as a header. */
  function HeaderAt(b: Bounded, at: nat): (bs: seq<byte>)
    requires at + HEADER_SIZE <= |b.s.written|
    ensures |bs| == HEADER_SIZE
  {
    b.s.written[at..at + HEADER_SIZE]
  }

  /** The parent reads the header before it wants the semaphore, unless the message is of another
      type, and the data while it has it. */
  function Happens(b: Bounded, a: Action, room: nat): (r: Bounded)
    requires CanHappen(b, a, room)
    ensures a.Notify? || a.Acquire? || a.Write? || a.Release? || a.ParentAcquires? ==> r == b.(s := Next(b.s, a))
  {
    match a
    case ParentWants =>
      var h := HeaderAt(b, b.consumed);
      if TypeField(h) != PIECE_DONE then b.(consumed := b.consumed + HEADER_SIZE)
      else Bounded(Next(b.s, a), b.consumed + HEADER_SIZE, SizeField(h), IndexField(h), b.capacity, b.files)
    case ParentReleases =>
      var n := FileSize(b.size, Unread(b), b.capacity).value;
      var file := b.s.written[b.consumed..b.consumed + n];
      Bounded(Next(b.s, a), b.consumed + n, b.size, b.index, Max(b.capacity, b.size), b.files + [Notice(b.index, file)])
    case _ => b.(s := Next(b.s, a))
  }

  predicate CanRun(b: Bounded, run: seq<Action>, room: nat)
    decreases run
  {
    run == [] || (CanHappen(b, run[0], room) && CanRun(Happens(b, run[0], room), run[1..], room))
  }

  function Ran(b: Bounded, run: seq<Action>, room: nat): Bounded
    requires CanRun(b, run, room)
    decreases run
  {
    if run == [] then b else Ran(Happens(b, run[0], room), run[1..], room)
  }

  lemma RanFrom(b: Bounded, a: Action, run: seq<Action>, room: nat)
    requires CanHappen(b, a, room) && CanRun(Happens(b, a, room), run, room)
    ensures CanRun(b, [a] + run, room) && Ran(b, [a] + run, room) == Ran(Happens(b, a, room), run, room)
  {
    assert ([a] + run)[1..] == run;
  }

  /** What every step keeps. */
  predicate Sound(b: Bounded) {
    && Inv(b.s) && b.s.sem + Holders(b.s) == 1
    && b.consumed <= |b.s.written|
    && (b.s.parent.Polling? || b.consumed >= HEADER_SIZE)
  }

  lemma OpenedIsSound(workers: nat)
    ensures Sound(Opened(workers)) && Owed(Opened(workers).s.workers) == 0
  {
    NobodyHolding(workers);
    UnfinishedNone(Started(workers, 1).workers);
    NothingOwed(workers);
  }

  lemma StepKeepsSound(b: Bounded, a: Action, room: nat)
    requires Sound(b) && CanHappen(b, a, room)
    ensures Sound(Happens(b, a, room))
  {
    StepConserves(b.s, a);
    StepKeepsInv(b.s, a);
    hide Inv, Holders, TypeField, SizeField, IndexField, Frame, FileSize;
  }

  // ------------------------------------------------------------ the files of the parent

  /** So far the files are the pieces whose frames are complete, in order, and the parent stands at the
      end of a frame, or behind the header of the next one. */
  predicate Synced(b: Bounded) {
    var k := |b.files|;
    && k <= |b.s.completed|
    && b.files == Notices(b.s.completed)[..k]
    && var at := |Frames(b.s.completed[..k])|;
       if b.s.parent.Polling? then b.consumed == at
       else
         && b.consumed == at + HEADER_SIZE <= |b.s.written|
         && b.size == SizeField(HeaderAt(b, at)) && b.index == IndexField(HeaderAt(b, at))
  }

  /** A file is not the piece it should be. */
  predicate Wrong(b: Bounded) {
    exists k :: 0 <= k < |b.files| && k < |b.s.completed| && b.files[k] != b.s.completed[k].notice
  }

  lemma SplitAt<T>(s: seq<T>, k: nat)
    requires k < |s|
    ensures s == s[..k + 1] + s[k + 1..] && s[..k + 1] == s[..k] + [s[k]]
  {
  }

  lemma FramesSplit(os: seq<Outgoing>, k: nat)
    requires k < |os|
    ensures Frames(os[..k + 1]) == Frames(os[..k]) + Frame(os[k])
    ensures Frames(os) == Frames(os[..k]) + Header(os[k]) + os[k].notice.data + Frames(os[k + 1..])
  {
    hide Frames, Header;
    SplitAt(os, k);
    FramesConcat(os[..k + 1], os[k + 1..]);
    FramesSnoc(os[..k], os[k]);
    var h, data := Header(os[k]), os[k].notice.data;
    assert Frame(os[k]) == h + data;
    hide Frame;
    Reassociate(Frames(os[..k]), h, data);
  }

  /** Bytes in the middle. */
  lemma Middle(a: seq<byte>, h: seq<byte>, d: seq<byte>, r: seq<byte>)
    ensures var all := a + h + d + r;
            && |all| == |a| + |h| + |d| + |r|
            && all[|a|..|a| + |h|] == h && all[|a| + |h|..] == d + r
            && all[|a| + |h|..|a| + |h| + |d|] == d
  {
  }

  /** Wherever a frame begins in the stream, what stands there is a header. */
  lemma HeaderStands(b: Bounded, k: nat)
    requires Sound(b) && k <= |b.s.completed| && |Frames(b.s.completed[..k])| + HEADER_SIZE <= |b.s.written|
    ensures TypeField(HeaderAt(b, |Frames(b.s.completed[..k])|)) == PIECE_DONE
    ensures k < |b.s.completed| ==> HeaderAt(b, |Frames(b.s.completed[..k])|) == Header(b.s.completed[k])
  {
    hide Frames, Frame, TypeField, SizeField, IndexField, Holders, Unfinished, Header;
    var os, tail := b.s.completed, Unfinished(b.s.workers);
    if k < |os| {
      FramesSplit(os, k);
      Middle(Frames(os[..k]), Header(os[k]), os[k].notice.data, Frames(os[k + 1..]));
      var at := |Frames(os[..k])|;
      assert b.s.written[at..at + HEADER_SIZE] == Frames(os)[at..at + HEADER_SIZE];
      HeaderFields(os[k], []);
      assert Header(os[k]) + [] == Header(os[k]);
    } else {
      assert os[..k] == os;
      UnfinishedBegins(b.s.workers);
      assert HeaderAt(b, |Frames(os)|) == tail[..HEADER_SIZE];
    }
  }

  lemma {:induction false} UnfinishedBegins(workers: seq<Worker>)
    ensures |Unfinished(workers)| >= HEADER_SIZE ==> TypeField(Unfinished(workers)[..HEADER_SIZE]) == PIECE_DONE
  {
    if workers == [] {
    } else if Inside(workers[0]) {
      var o, done := workers[0].o, workers[0].done;
      if done >= HEADER_SIZE {
        assert Frame(o)[..done][..HEADER_SIZE] == Header(o);
        HeaderFields(o, []);
        assert Header(o) + [] == Header(o);
      }
    } else {
      UnfinishedBegins(workers[1..]);
    }
  }

  /** While the parent has the semaphore nobody is inside a frame, so all of the piece whose header it
      read is in the FIFO, and behind it are whole frames. */
  lemma DataIsQueued(b: Bounded)
    requires Sound(b) && Synced(b) && b.s.parent.Handling?
    ensures var k, n := |b.files|, b.size;
            && k < |b.s.completed| && n <= Unread(b)
            && Notice(b.index, b.s.written[b.consumed..][..n]) == b.s.completed[k].notice
            && b.s.written[b.consumed..][n..] == Frames(b.s.completed[k + 1..])
            && b.consumed + n == |Frames(b.s.completed[..k + 1])|
  {
    var os, k := b.s.completed, |b.files|;
    NobodyInside(b.s.workers);
    UnfinishedNone(b.s.workers);
    assert b.s.written == Frames(os);
    assert os[..|os|] == os;
    HeaderStands(b, k);
    FramesSplit(os, k);
    Middle(Frames(os[..k]), Header(os[k]), os[k].notice.data, Frames(os[k + 1..]));
    HeaderFields(os[k], []);
    assert Header(os[k]) + [] == Header(os[k]);
  }

  lemma {:induction false} NobodyInside(workers: seq<Worker>)
    requires WorkersHolding(workers) == 0
    ensures forall v :: 0 <= v < |workers| ==> !Inside(workers[v])
  {
    forall v | 0 <= v < |workers|
      ensures !Inside(workers[v])
    {
      if workers[v].Writing? {
        HoldingCounts(workers, v, v);
      }
    }
  }

  /** Steps of the writers leave what was read as it is. */
  lemma WritersKeepSync(b: Bounded, a: Action, room: nat)
    requires Synced(b) && CanHappen(b, a, room) && (a.Notify? || a.Acquire? || a.Write? || a.Release?)
    ensures Synced(Happens(b, a, room))
  {
    var k, t := |b.files|, Happens(b, a, room);
    assert b.s.written <= t.s.written && b.s.completed <= t.s.completed;
    assert t.s.completed[..k] == b.s.completed[..k];
    assert Notices(t.s.completed)[..k] == Notices(b.s.completed)[..k];
    var at := |Frames(b.s.completed[..k])|;
    hide Frames, Frame, Notices, SizeField, IndexField;
    if !b.s.parent.Polling? {
      assert HeaderAt(t, at) == HeaderAt(b, at);
    }
  }

  /** The parent's own steps: a handling leaves the right file exactly if it is exact. */
  lemma ParentKeepsSync(b: Bounded, a: Action, room: nat)
    requires Sound(b) && Synced(b) && CanHappen(b, a, room)
    requires a.ParentWants? || a.ParentAcquires? || a.ParentReleases?
    ensures var t := Happens(b, a, room);
            if a.ParentReleases? && !Exact(b.size, Unread(b), b.capacity) then Wrong(t) else Synced(t)
  {
    var t := Happens(b, a, room);
    if a.ParentWants? {
      HeaderStands(b, |b.files|);
    } else if a.ParentReleases? {
      DataIsQueued(b);
      FileIsPieceExactly(b.size, Unread(b), b.capacity);
      HandlingKeepsSync(b, room);
    }
    hide Sound, Frames, Notices, TypeField, SizeField, IndexField, FileSize, Exact;
  }

  lemma NoticesNext(os: seq<Outgoing>, k: nat)
    requires k < |os|
    ensures Notices(os)[..k + 1] == Notices(os)[..k] + [os[k].notice]
  {
  }

  lemma SliceOfTail(s: seq<byte>, at: nat, n: nat)
    requires at + n <= |s|
    ensures s[at..at + n] == s[at..][..n]
  {
  }

  /** A handling appends one file, of the bytes that the reads took. */
  lemma FileWritten(b: Bounded, room: nat)
    requires Sound(b) && Synced(b) && CanHappen(b, ParentReleases, room)
    ensures var k, n, t := |b.files|, FileSize(b.size, Unread(b), b.capacity).value, Happens(b, ParentReleases, room);
            && k < |b.s.completed| && b.size <= Unread(b) && t.s.completed == b.s.completed
            && t.files == b.files + [Notice(b.index, b.s.written[b.consumed..][..n])]
            && b.s.completed[k].notice == Notice(b.index, b.s.written[b.consumed..][..b.size])
            && t.s.parent.Polling? && t.consumed == b.consumed + n
            && b.consumed + b.size == |Frames(b.s.completed[..k + 1])|
  {
    hide Sound, Synced, Frames, FileSize, Frame, Notices, Inv, Holders;
    DataIsQueued(b);
    SliceOfTail(b.s.written, b.consumed, FileSize(b.size, Unread(b), b.capacity).value);
  }

  lemma HandlingKeepsSync(b: Bounded, room: nat)
    requires Sound(b) && Synced(b) && CanHappen(b, ParentReleases, room)
    ensures var t := Happens(b, ParentReleases, room);
            if FileSize(b.size, Unread(b), b.capacity) == Some(b.size) then Synced(t) else Wrong(t)
  {
    FileWritten(b, room);
    var k, n, t := |b.files|, FileSize(b.size, Unread(b), b.capacity).value, Happens(b, ParentReleases, room);
    var rest := b.s.written[b.consumed..];
    NoticesNext(b.s.completed, k);
    hide Sound, Frames, FileSize, Happens, CanHappen, SizeField, IndexField, Notices;
    if n == b.size {
      assert t.files == Notices(b.s.completed)[..k + 1];
    } else {
      assert |rest[..n]| != |rest[..b.size]|;
      assert t.files[k] != b.s.completed[k].notice;
    }
  }

  lemma WrongStaysWrong(b: Bounded, a: Action, room: nat)
    requires Wrong(b) && CanHappen(b, a, room)
    ensures Wrong(Happens(b, a, room))
  {
    var k :| 0 <= k < |b.files| && k < |b.s.completed| && b.files[k] != b.s.completed[k].notice;
    var t := Happens(b, a, room);
    hide TypeField, SizeField, IndexField, FileSize, Frame;
    assert t.files[k] == b.files[k] && t.s.completed[k] == b.s.completed[k];
  }

  /** At every handling of the run, nothing but the piece is queued or the buffer is no larger. */
  predicate ExactRun(b: Bounded, run: seq<Action>, room: nat)
    requires CanRun(b, run, room)
    decreases run
  {
    run == [] ||
    (&& (run[0].ParentReleases? ==> Exact(b.size, Unread(b), b.capacity))
     && ExactRun(Happens(b, run[0], room), run[1..], room))
  }

  lemma {:induction false} WrongForever(b: Bounded, run: seq<Action>, room: nat)
    requires Wrong(b) && CanRun(b, run, room)
    ensures Wrong(Ran(b, run, room))
    decreases run
  {
    if run == [] {
    } else {
      WrongStaysWrong(b, run[0], room);
      hide Wrong;
      WrongForever(Happens(b, run[0], room), run[1..], room);
    }
  }

  /** Every step keeps the files right, unless it is a handling that is not exact. */
  lemma SyncedStep(b: Bounded, a: Action, room: nat)
    requires Sound(b) && Synced(b) && CanHappen(b, a, room)
    ensures var t := Happens(b, a, room);
            if a.ParentReleases? && !Exact(b.size, Unread(b), b.capacity) then Wrong(t) else Synced(t)
  {
    if a.Notify? || a.Acquire? || a.Write? || a.Release? {
      WritersKeepSync(b, a, room);
    } else {
      ParentKeepsSync(b, a, room);
    }
  }

  lemma {:induction false} SyncedRun(b: Bounded, run: seq<Action>, room: nat)
    requires Sound(b) && Synced(b) && CanRun(b, run, room)
    ensures Sound(Ran(b, run, room))
    ensures if ExactRun(b, run, room) then Synced(Ran(b, run, room)) else Wrong(Ran(b, run, room))
    decreases run
  {
    if run == [] {
    } else {
      var a := run[0];
      var t := Happens(b, a, room);
      StepKeepsSound(b, a, room);
      SyncedStep(b, a, room);
      hide Sound, Synced, Wrong, Exact, CanHappen, Happens;
      if a.ParentReleases? && !Exact(b.size, Unread(b), b.capacity) {
        SoundRun(t, run[1..], room);
        WrongForever(t, run[1..], room);
      } else {
        SyncedRun(t, run[1..], room);
      }
    }
  }

  lemma {:induction false} SoundRun(b: Bounded, run: seq<Action>, room: nat)
    requires Sound(b) && CanRun(b, run, room)
    ensures Sound(Ran(b, run, room))
    decreases run
  {
    if run == [] {
    } else {
      StepKeepsSound(b, run[0], room);
      hide Sound;
      SoundRun(Happens(b, run[0], room), run[1..], room);
    }
  }

  /** Over any run of any number of workers and their parent: the files are the pieces whose frames were
      completed, in order and with nothing else in them, exactly if at every handling nothing but the
      piece was queued or the buffer was no larger than the piece. */
  lemma FilesAreRightExactly(workers: nat, run: seq<Action>, room: nat)
    requires CanRun(Opened(workers), run, room)
    ensures var b := Ran(Opened(workers), run, room);
            ExactRun(Opened(workers), run, room) <==>
              |b.files| <= |b.s.completed| && b.files == Notices(b.s.completed)[..|b.files|]
  {
    OpenedIsSound(workers);
    assert Frames([]) == [] && Opened(workers).s.completed[..0] == [];
    SyncedRun(Opened(workers), run, room);
    var b := Ran(Opened(workers), run, room);
    hide Sound, CanRun, Ran, ExactRun, Frames;
    if Wrong(b) && |b.files| <= |b.s.completed| {
      var k :| 0 <= k < |b.files| && k < |b.s.completed| && b.files[k] != b.s.completed[k].notice;
      assert Notices(b.s.completed)[..|b.files|][k] == b.s.completed[k].notice;
    }
  }

  /** The greatest size of some pieces, but at least `c`. */
  function Widest(ns: seq<Notice>, c: nat): (w: nat)
    ensures w >= c && forall i :: 0 <= i < |ns| ==> |ns[i].data| <= w
  {
    if ns == [] then c else Max(Widest(ns[..|ns| - 1], c), |ns[|ns| - 1].data|)
  }

  lemma StepWidens(b: Bounded, a: Action, room: nat, c: nat)
    requires Sound(b) && Synced(b) && CanHappen(b, a, room) && b.capacity == Widest(b.files, c)
    requires a.ParentReleases? ==> Exact(b.size, Unread(b), b.capacity)
    ensures var t := Happens(b, a, room); t.capacity == Widest(t.files, c)
  {
    hide Sound, Synced, Exact, FileSize, TypeField, SizeField, IndexField, Enabled, Next;
    if a.ParentReleases? {
      FileWritten(b, room);
      FileIsPieceExactly(b.size, Unread(b), b.capacity);
      var t := Happens(b, a, room);
      assert t.files[..|t.files| - 1] == b.files;
    }
  }

  lemma {:induction false} RunWidens(b: Bounded, run: seq<Action>, room: nat, c: nat)
    requires Sound(b) && Synced(b) && CanRun(b, run, room) && ExactRun(b, run, room)
    requires b.capacity == Widest(b.files, c)
    ensures var t := Ran(b, run, room); t.capacity == Widest(t.files, c)
    decreases run
  {
    if run == [] {
    } else {
      StepKeepsSound(b, run[0], room);
      SyncedStep(b, run[0], room);
      StepWidens(b, run[0], room, c);
      hide Sound, Synced, Exact, CanHappen, Happens, Wrong, Widest;
      RunWidens(Happens(b, run[0], room), run[1..], room, c);
    }
  }

  /** The buffer never shrinks: over a run whose files are right it is as large as the largest piece so far,
      and at least 65536 bytes. */
  lemma BufferIsWidest(workers: nat, run: seq<Action>, room: nat)
    requires CanRun(Opened(workers), run, room) && ExactRun(Opened(workers), run, room)
    ensures var b := Ran(Opened(workers), run, room); b.capacity == Widest(b.files, 65536)
  {
    OpenedIsSound(workers);
    assert Frames([]) == [] && Opened(workers).s.completed[..0] == [];
    RunWidens(Opened(workers), run, room, 65536);
  }

  /** What a worker does for one piece when nobody comes between. */
  function FrameRun(o: Outgoing): seq<Action> {
    [Notify(0, o), Acquire(0), Write(0, |Frame(o)|), Release(0)]
  }

  /** The state with one more frame in the FIFO. */
  function WithFrame(b: Bounded, o: Outgoing): Bounded {
    b.(s := b.s.(written := b.s.written + Frame(o), completed := b.s.completed + [o]))
  }

  lemma WritesFrame(b: Bounded, o: Outgoing, run: seq<Action>, room: nat)
    requires |b.s.workers| > 0 && b.s.workers[0].Working? && b.s.sem > 0 && Writable(o)
    requires Unread(b) + |Frame(o)| <= room && CanRun(WithFrame(b, o), run, room)
    ensures CanRun(b, FrameRun(o) + run, room)
    ensures Ran(b, FrameRun(o) + run, room) == Ran(WithFrame(b, o), run, room)
  {
    var f := Frame(o);
    assert f[0..|f|] == f;
    var c := Happens(b, Notify(0, o), room);
    var d := Happens(c, Acquire(0), room);
    var e := Happens(d, Write(0, |f|), room);
    assert b.s.workers == b.s.workers[0 := Working];
    assert Happens(e, Release(0), room) == WithFrame(b, o);
    hide Frame, Happens, CanHappen, CanRun, Ran;
    RanFrom(e, Release(0), run, room);
    RanFrom(d, Write(0, |f|), [Release(0)] + run, room);
    RanFrom(c, Acquire(0), [Write(0, |f|)] + ([Release(0)] + run), room);
    RanFrom(b, Notify(0, o), [Acquire(0)] + ([Write(0, |f|)] + ([Release(0)] + run)), room);
    assert FrameRun(o) + run == [Notify(0, o)] + ([Acquire(0)] + ([Write(0, |f|)] + ([Release(0)] + run)));
  }

  /** What the parent does for one piece. */
  function HandlingRun(): seq<Action> {
    [ParentWants, ParentAcquires, ParentReleases]
  }

  lemma SliceToEnd(s: seq<byte>, at: nat, n: nat)
    requires at + n == |s|
    ensures s[at..at + n] == s[at..]
  {
  }

  /** The parent meets two frames in the FIFO: all of the second goes into the file of the first. */
  lemma HandlesTwo(b: Bounded, o: Outgoing, p: Outgoing, room: nat)
    requires b.s.parent.Polling? && b.s.sem > 0 && b.consumed == 0 && b.s.written == Frame(o) + Frame(p)
    requires Writable(o) && 0 < |o.notice.data| && |o.notice.data| + |Frame(p)| <= CAPACITY == b.capacity
    ensures CanRun(b, HandlingRun(), room)
    ensures Ran(b, HandlingRun(), room).files == b.files + [Notice(o.notice.index, o.notice.data + Frame(p))]
    ensures Ran(b, HandlingRun(), room).s.completed == b.s.completed
  {
    var data := o.notice.data;
    WantsFirst(b, o, p, room);
    var c := Happens(b, ParentWants, room);
    var d := Happens(c, ParentAcquires, room);
    hide Frame, Header, TypeField, SizeField, IndexField, CanRun, Ran, HeaderAt;
    TakesAll(d, data, Frame(p), room);
    hide Happens, CanHappen;
    HandlingSteps(b, c, d, room);
  }

  /** The header of the first frame is read. */
  lemma WantsFirst(b: Bounded, o: Outgoing, p: Outgoing, room: nat)
    requires b.s.parent.Polling? && b.consumed == 0 && b.s.written == Frame(o) + Frame(p) && Writable(o)
    ensures CanHappen(b, ParentWants, room)
    ensures Happens(b, ParentWants, room)
         == Bounded(b.s.(parent := Wanting), HEADER_SIZE, |o.notice.data|, o.notice.index, b.capacity, b.files)
    ensures b.s.written[HEADER_SIZE..] == o.notice.data + Frame(p)
  {
    hide Header, TypeField, SizeField, IndexField, Writable;
    var f := Frame(p);
    Middle([], Header(o), o.notice.data, f);
    assert [] + Header(o) + o.notice.data + f == b.s.written;
    HeaderFields(o, []);
    assert Header(o) + [] == Header(o);
  }

  /** One read of a whole buffer takes what is queued behind the data too. */
  lemma TakesAll(d: Bounded, data: seq<byte>, more: seq<byte>, room: nat)
    requires d.s.parent.Handling? && d.size == |data| > 0 && |data| + |more| <= CAPACITY == d.capacity
    requires d.consumed <= |d.s.written| && d.s.written[d.consumed..] == data + more
    ensures CanHappen(d, ParentReleases, room)
    ensures var e := Happens(d, ParentReleases, room);
            e.files == d.files + [Notice(d.index, data + more)] && e.s.completed == d.s.completed
  {
    assert Unread(d) == |data| + |more| && FileSize(|data|, Unread(d), CAPACITY) == Some(Unread(d)) by {
      OneReadDoes(|data|, Unread(d), CAPACITY);
    }
    SliceToEnd(d.s.written, d.consumed, Unread(d));
    hide FileSize;
  }

  lemma HandlingSteps(b: Bounded, c: Bounded, d: Bounded, room: nat)
    requires CanHappen(b, ParentWants, room) && c == Happens(b, ParentWants, room)
    requires CanHappen(c, ParentAcquires, room) && d == Happens(c, ParentAcquires, room)
    requires CanHappen(d, ParentReleases, room)
    ensures CanRun(b, HandlingRun(), room) && Ran(b, HandlingRun(), room) == Happens(d, ParentReleases, room)
  {
    hide Happens, CanHappen;
    RanFrom(d, ParentReleases, [], room);
    RanFrom(c, ParentAcquires, [ParentReleases] + [], room);
    RanFrom(b, ParentWants, [ParentAcquires] + ([ParentReleases] + []), room);
    assert HandlingRun() == [ParentWants] + ([ParentAcquires] + ([ParentReleases] + []));
  }

  /** A run of one worker that notifies two small pieces before the parent reads. */
  lemma SecondFrameInFirstFile(o: Outgoing, p: Outgoing, room: nat)
    requires Writable(o) && Writable(p) && 0 < |o.notice.data| && |o.notice.data| + |Frame(p)| <= CAPACITY
    requires |Frame(o)| + |Frame(p)| <= room
    ensures var run := FrameRun(o) + (FrameRun(p) + HandlingRun());
            && CanRun(Opened(1), run, room)
            && var b := Ran(Opened(1), run, room);
               b.files == [Notice(o.notice.index, o.notice.data + Frame(p))] && b.s.completed == [o, p]
  {
    var c := WithFrame(Opened(1), o);
    TwoQueued(o, p);
    hide Frame, HandlingRun, FrameRun, CanRun, Ran, WithFrame, Opened, Writable;
    HandlesTwo(WithFrame(c, p), o, p, room);
    WritesFrame(c, p, HandlingRun(), room);
    WritesFrame(Opened(1), o, FrameRun(p) + HandlingRun(), room);
  }

  lemma TwoQueued(o: Outgoing, p: Outgoing)
    ensures var b, c := Opened(1), WithFrame(Opened(1), o);
            var d := WithFrame(c, p);
            && |b.s.workers| == |c.s.workers| == 1 && b.s.workers[0].Working? && c.s.workers[0].Working?
            && b.s.sem == c.s.sem == d.s.sem == 1 && Unread(b) == 0 && Unread(c) == |Frame(o)|
            && d.s.parent.Polling? && d.consumed == 0 && d.capacity == CAPACITY && d.files == []
            && d.s.written == Frame(o) + Frame(p) && d.s.completed == [o, p]
  {
    hide Frame;
    assert [] + Frame(o) + Frame(p) == Frame(o) + Frame(p);
    assert [] + [o] + [p] == [o, p];
  }

  // ------------------------------------------------------------ a deadlock

  /** A worker holds the semaphore inside its frame, the FIFO is full, and the parent waits for the
      semaphore instead of reading. */
  predicate Deadlocked(b: Bounded, w: nat, room: nat) {
    && b.s.sem == 0 && Holders(b.s) == 1 && b.s.parent.Wanting?
    && w < |b.s.workers| && Inside(b.s.workers[w])
    && Unread(b) == room
  }

  lemma DeadlockStep(b: Bounded, w: nat, a: Action, room: nat)
    requires Deadlocked(b, w, room) && CanHappen(b, a, room)
    ensures Deadlocked(Happens(b, a, room), w, room) && Happens(b, a, room).s.written == b.s.written
  {
    OnlyWriter(b.s, w);
    StepConserves(b.s, a);
    if a.Notify? {
      HoldingUpdated(b.s.workers, a.w, Waiting(a.o));
    }
  }

  /** Nothing that any process can do ends a deadlock, and no byte is ever written again. */
  lemma {:induction false} DeadlockIsForever(b: Bounded, w: nat, run: seq<Action>, room: nat)
    requires Deadlocked(b, w, room) && CanRun(b, run, room)
    ensures Deadlocked(Ran(b, run, room), w, room) && Ran(b, run, room).s.written == b.s.written
    decreases run
  {
    if run == [] {
    } else {
      DeadlockStep(b, w, run[0], room);
      hide Deadlocked, Happens;
      DeadlockIsForever(Happens(b, run[0], room), w, run[1..], room);
    }
  }

  /** The pieces that workers notify in a run, in order. */
  function Notified(run: seq<Action>): seq<Outgoing> {
    if run == [] then [] else (if run[0].Notify? then [run[0].o] else []) + Notified(run[1..])
  }

  /** The bytes of some frames. */
  function Total(os: seq<Outgoing>): nat {
    if os == [] then 0 else |Frame(os[0])| + Total(os[1..])
  }

  lemma {:induction false} TotalConcat(a: seq<Outgoing>, b: seq<Outgoing>)
    ensures Total(a + b) == Total(a) + Total(b)
  {
    if a == [] {
      assert a + b == b;
    } else {
      assert (a + b)[1..] == a[1..] + b;
      TotalConcat(a[1..], b);
    }
  }

  /** What the workers still have to write of the pieces they notify. */
  function Owed(workers: seq<Worker>): int {
    if workers == [] then 0 else OwedBy(workers[0]) + Owed(workers[1..])
  }

  function OwedBy(w: Worker): int {
    match w
    case Working => 0
    case Waiting(o) => |Frame(o)|
    case Writing(o, done) => |Frame(o)| - done
  }

  lemma {:induction false} OwedUpdated(workers: seq<Worker>, w: nat, x: Worker)
    requires w < |workers|
    ensures Owed(workers[w := x]) == Owed(workers) - OwedBy(workers[w]) + OwedBy(x)
  {
    if w == 0 {
      assert workers[w := x][1..] == workers[1..];
    } else {
      OwedUpdated(workers[1..], w - 1, x);
      assert workers[w := x][1..] == workers[1..][w - 1 := x];
    }
  }

  lemma {:induction false} NothingOwed(n: nat)
    ensures Owed(seq(n, i => Working)) == 0
  {
    if n == 0 {
    } else {
      assert seq(n, i => Working)[1..] == seq(n - 1, i => Working);
      NothingOwed(n - 1);
    }
  }

  lemma {:induction false} OwedAtLeast(workers: seq<Worker>, w: nat)
    requires forall v :: 0 <= v < |workers| ==> OwedBy(workers[v]) >= 0
    ensures Owed(workers) >= if w < |workers| then OwedBy(workers[w]) else 0
  {
    if workers == [] {
    } else {
      OwedAtLeast(workers[1..], if w == 0 then 0 else w - 1);
    }
  }

  /** Bytes written and bytes owed are the bytes of the pieces notified. */
  lemma {:induction false} BytesAreConserved(b: Bounded, run: seq<Action>, room: nat)
    requires Sound(b) && CanRun(b, run, room)
    ensures var e := Ran(b, run, room);
            |e.s.written| + Owed(e.s.workers) == |b.s.written| + Owed(b.s.workers) + Total(Notified(run))
    decreases run
  {
    if run == [] {
    } else {
      var a := run[0];
      StepKeepsSound(b, a, room);
      StepOwes(b, a, room);
      TotalConcat(if a.Notify? then [a.o] else [], Notified(run[1..]));
      hide Sound, CanHappen, Happens, Owed, Total;
      BytesAreConserved(Happens(b, a, room), run[1..], room);
    }
  }

  lemma StepOwes(b: Bounded, a: Action, room: nat)
    requires CanHappen(b, a, room)
    ensures var t := Happens(b, a, room);
            |t.s.written| + Owed(t.s.workers)
            == |b.s.written| + Owed(b.s.workers) + Total(if a.Notify? then [a.o] else [])
  {
    match a
    case Notify(w, o) =>
      OwedUpdated(b.s.workers, w, Waiting(o));
      assert [o][1..] == [];
    case Acquire(w) => OwedUpdated(b.s.workers, w, Writing(b.s.workers[w].o, 0));
    case Write(w, n) => OwedUpdated(b.s.workers, w, Writing(b.s.workers[w].o, b.s.workers[w].done + n));
    case Release(w) => OwedUpdated(b.s.workers, w, Working);
    case _ =>
  }

  /** Some run in which the workers notify no more than the first of the given pieces, in order, ends in
      a deadlock. */
  ghost predicate CanDeadlock(workers: nat, os: seq<Outgoing>, room: nat) {
    exists run, w ::
      && CanRun(Opened(workers), run, room) && Notified(run) <= os
      && Deadlocked(Ran(Opened(workers), run, room), w, room)
  }

  lemma DeadlockNeedsBytes(workers: nat, os: seq<Outgoing>, room: nat, run: seq<Action>, w: nat)
    requires CanRun(Opened(workers), run, room) && Notified(run) <= os
    requires Deadlocked(Ran(Opened(workers), run, room), w, room)
    ensures workers > 0 && Total(os) > room + HEADER_SIZE
  {
    hide CanRun, Ran, Notified, Total, Owed, Holders, Frame, Inv, Inside;
    var b, e := Opened(workers), Ran(Opened(workers), run, room);
    OpenedIsSound(workers);
    SoundRun(b, run, room);
    BytesAreConserved(b, run, room);
    SomethingOwed(e, w);
    var n := |Notified(run)|;
    assert os == Notified(run) + os[n..];
    TotalConcat(Notified(run), os[n..]);
    WorkersStay(b, run, room);
  }

  lemma SomethingOwed(b: Bounded, w: nat)
    requires Sound(b) && w < |b.s.workers| && Inside(b.s.workers[w])
    ensures Owed(b.s.workers) > 0
  {
    OwedAtLeast(b.s.workers, w);
  }

  lemma {:induction false} WorkersStay(b: Bounded, run: seq<Action>, room: nat)
    requires CanRun(b, run, room)
    ensures |Ran(b, run, room).s.workers| == |b.s.workers|
    decreases run
  {
    if run == [] {
    } else {
      WorkersStay(Happens(b, run[0], room), run[1..], room);
    }
  }

  /** A worker that writes on. */
  lemma WritesOn(b: Bounded, o: Outgoing, done: nat, n: nat, room: nat)
    requires |b.s.workers| > 0 && b.s.workers[0] == Writing(o, done) && Writable(o) && b.s.sem + Holders(b.s) == 1
    requires 0 < n && done + n <= |Frame(o)| && Unread(b) + n <= room
    ensures CanHappen(b, Write(0, n), room)
    ensures var t := Happens(b, Write(0, n), room);
            && t.s.sem + Holders(t.s) == 1 && t.s.parent == b.s.parent && t.consumed == b.consumed
            && |t.s.workers| == |b.s.workers| && t.s.workers[0] == Writing(o, done + n)
            && t.s.written == b.s.written + Frame(o)[done..done + n]
  {
    StepConserves(b.s, Write(0, n));
  }

  /** The first worker at the start of its next frame. */
  function AtNext(b: Bounded, next: Outgoing): Bounded
    requires |b.s.workers| > 0
  {
    b.(s := b.s.(workers := b.s.workers[0 := Writing(next, 0)]))
  }

  /** A worker at the end of a frame that starts the next one before anyone else takes the semaphore. */
  lemma StartsNext(b: Bounded, o: Outgoing, next: Outgoing, run: seq<Action>, room: nat)
    requires |b.s.workers| > 0 && b.s.workers[0] == Writing(o, |Frame(o)|) && Writable(o) && Writable(next)
    requires b.s.sem + Holders(b.s) == 1
    ensures var t := AtNext(b, next);
            && t.s.sem + Holders(t.s) == 1
            && (CanRun(t, run, room) ==>
                  && CanRun(b, [Release(0)] + ([Notify(0, next)] + ([Acquire(0)] + run)), room)
                  && Ran(b, [Release(0)] + ([Notify(0, next)] + ([Acquire(0)] + run)), room) == Ran(t, run, room))
  {
    hide Frame, Writable, Holders;
    var c := Happens(b, Release(0), room);
    StepConserves(b.s, Release(0));
    var d := Happens(c, Notify(0, next), room);
    StepConserves(c.s, Notify(0, next));
    var t := Happens(d, Acquire(0), room);
    StepConserves(d.s, Acquire(0));
    assert t == AtNext(b, next);
    if CanRun(t, run, room) {
      hide CanRun, Ran;
      RanFrom(d, Acquire(0), run, room);
      RanFrom(c, Notify(0, next), [Acquire(0)] + run, room);
      RanFrom(b, Release(0), [Notify(0, next)] + ([Acquire(0)] + run), room);
    }
  }

  lemma NotifiedNext(next: Outgoing, run: seq<Action>)
    ensures Notified([Release(0)] + ([Notify(0, next)] + ([Acquire(0)] + run))) == [next] + Notified(run)
  {
    NotifiedCons(Acquire(0), run);
    NotifiedCons(Notify(0, next), [Acquire(0)] + run);
    NotifiedCons(Release(0), [Notify(0, next)] + ([Acquire(0)] + run));
  }

  lemma NotifiedCons(a: Action, run: seq<Action>)
    ensures Notified([a] + run) == (if a.Notify? then [a.o] else []) + Notified(run)
  {
    assert ([a] + run)[1..] == run;
  }

  /** A worker inside a frame that fills the FIFO before the frame ends. */
  lemma FillsHere(b: Bounded, o: Outgoing, done: nat, left: nat, room: nat) returns (run: seq<Action>)
    requires |b.s.workers| > 0 && b.s.workers[0] == Writing(o, done) && Writable(o)
    requires b.s.sem + Holders(b.s) == 1 && b.s.parent.Wanting?
    requires done + left < |Frame(o)| && Unread(b) + left == room
    ensures CanRun(b, run, room) && Deadlocked(Ran(b, run, room), 0, room) && Notified(run) == []
  {
    var t := b;
    run := [];
    if left > 0 {
      WritesOn(b, o, done, left, room);
      t := Happens(b, Write(0, left), room);
      run := [Write(0, left)] + [];
      RanFrom(b, Write(0, left), [], room);
      NotifiedCons(Write(0, left), []);
    }
    HoldingCounts(t.s.workers, 0, 0);
  }

  /** A worker inside the first of some frames, with the parent waiting, goes on to write those frames
      until the FIFO is full, if they have bytes enough. */
  lemma Fills(b: Bounded, os: seq<Outgoing>, done: nat, left: nat, room: nat) returns (run: seq<Action>)
    requires b.s.sem + Holders(b.s) == 1 && b.s.parent.Wanting? && |b.s.workers| > 0
    requires os != [] && AllWritable(os) && done <= |Frame(os[0])| && b.s.workers[0] == Writing(os[0], done)
    requires Unread(b) + left == room && left + done < Total(os)
    ensures CanRun(b, run, room) && Deadlocked(Ran(b, run, room), 0, room) && Notified(run) <= os[1..]
    decreases |os|
  {
    var o := os[0];
    var owed: nat := |Frame(o)| - done;
    hide Deadlocked, CanHappen, Happens, Holders, Frame;
    if left < owed {
      run := FillsHere(b, o, done, left, room);
    } else {
      var c := b;
      if owed > 0 {
        WritesOn(b, o, done, owed, room);
        c := Happens(b, Write(0, owed), room);
      }
      assert Total(os[1..]) > 0;
      StartsNext(c, o, os[1], [], room);
      run := Fills(AtNext(c, os[1]), os[1..], 0, left - owed, room);
      StartsNext(c, o, os[1], run, room);
      NotifiedNext(os[1], run);
      run := [Release(0)] + ([Notify(0, os[1])] + ([Acquire(0)] + run));
      if owed > 0 {
        RanFrom(b, Write(0, owed), run, room);
        NotifiedCons(Write(0, owed), run);
        run := [Write(0, owed)] + run;
      }
    }
  }

  lemma HeaderWritten(b: Bounded, o: Outgoing)
    requires Writable(o) && b.s.written == [] + Frame(o)[0..HEADER_SIZE]
    ensures b.s.written == HeaderAt(b, 0) == Header(o) && TypeField(Header(o)) == PIECE_DONE
    ensures SizeField(Header(o)) == |o.notice.data| && IndexField(Header(o)) == o.notice.index
  {
    HeaderFields(o, []);
    assert Header(o) + [] == Header(o);
  }

  /** A worker writes the header of its first frame, and the parent reads it. */
  lemma Begins(workers: nat, o: Outgoing, room: nat) returns (c: Bounded, d: Bounded, e: Bounded, f: Bounded)
    requires workers > 0 && Writable(o) && room >= HEADER_SIZE
    ensures CanHappen(Opened(workers), Notify(0, o), room) && c == Happens(Opened(workers), Notify(0, o), room)
    ensures CanHappen(c, Acquire(0), room) && d == Happens(c, Acquire(0), room)
    ensures CanHappen(d, Write(0, HEADER_SIZE), room) && e == Happens(d, Write(0, HEADER_SIZE), room)
    ensures CanHappen(e, ParentWants, room) && f == Happens(e, ParentWants, room)
    ensures f.s.sem + Holders(f.s) == 1 && f.s.parent.Wanting? && |f.s.workers| > 0
    ensures f.s.workers[0] == Writing(o, HEADER_SIZE) && Unread(f) == 0 && f.s.written == Header(o)
    ensures f.size == |o.notice.data| && f.index == o.notice.index && f.files == [] && f.capacity == CAPACITY
  {
    var b := Opened(workers);
    OpenedIsSound(workers);
    hide Holders, Frame, Inv;
    StepConserves(b.s, Notify(0, o));
    c := Happens(b, Notify(0, o), room);
    StepConserves(c.s, Acquire(0));
    d := Happens(c, Acquire(0), room);
    WritesOn(d, o, 0, HEADER_SIZE, room);
    e := Happens(d, Write(0, HEADER_SIZE), room);
    HeaderWritten(e, o);
    f := Happens(e, ParentWants, room);
    StepConserves(e.s, ParentWants);
  }

  /** A run of one worker that takes a header's bytes into the FIFO, has the parent wait, and fills up. */
  lemma Deadlocks(workers: nat, os: seq<Outgoing>, room: nat) returns (run: seq<Action>)
    requires workers > 0 && AllWritable(os) && Total(os) > room + HEADER_SIZE && room >= HEADER_SIZE
    ensures CanRun(Opened(workers), run, room) && Notified(run) <= os
    ensures Deadlocked(Ran(Opened(workers), run, room), 0, room)
  {
    var o := os[0];
    var c, d, e, f := Begins(workers, o, room);
    hide Frame, Deadlocked, Holders, Writable, CanHappen, Happens;
    run := Fills(f, os, HEADER_SIZE, room, room);
    hide CanRun, Ran, Notified, Total;
    BeginsWith(Opened(workers), c, d, e, o, run, room);
    BeginNotifies(o, run);
    run := BeginRun(o, run);
    assert os == [o] + os[1..];
  }

  function BeginRun(o: Outgoing, run: seq<Action>): seq<Action> {
    [Notify(0, o)] + ([Acquire(0)] + ([Write(0, HEADER_SIZE)] + ([ParentWants] + run)))
  }

  lemma BeginsWith(b: Bounded, c: Bounded, d: Bounded, e: Bounded, o: Outgoing, run: seq<Action>, room: nat)
    requires CanHappen(b, Notify(0, o), room) && c == Happens(b, Notify(0, o), room)
    requires CanHappen(c, Acquire(0), room) && d == Happens(c, Acquire(0), room)
    requires CanHappen(d, Write(0, HEADER_SIZE), room) && e == Happens(d, Write(0, HEADER_SIZE), room)
    requires CanHappen(e, ParentWants, room) && CanRun(Happens(e, ParentWants, room), run, room)
    ensures CanRun(b, BeginRun(o, run), room)
    ensures Ran(b, BeginRun(o, run), room) == Ran(Happens(e, ParentWants, room), run, room)
  {
    hide CanHappen, Happens, CanRun, Ran;
    RanFrom(e, ParentWants, run, room);
    RanFrom(d, Write(0, HEADER_SIZE), [ParentWants] + run, room);
    RanFrom(c, Acquire(0), [Write(0, HEADER_SIZE)] + ([ParentWants] + run), room);
    RanFrom(b, Notify(0, o), [Acquire(0)] + ([Write(0, HEADER_SIZE)] + ([ParentWants] + run)), room);
  }

  lemma BeginNotifies(o: Outgoing, run: seq<Action>)
    ensures Notified(BeginRun(o, run)) == [o] + Notified(run)
  {
    NotifiedCons(ParentWants, run);
    NotifiedCons(Write(0, HEADER_SIZE), [ParentWants] + run);
    NotifiedCons(Acquire(0), [Write(0, HEADER_SIZE)] + ([ParentWants] + run));
    NotifiedCons(Notify(0, o), [Acquire(0)] + ([Write(0, HEADER_SIZE)] + ([ParentWants] + run)));
    hide Notified;
  }

  /** However the pieces are spread over the workers: notifying them can end in a deadlock exactly if
      their frames have more bytes than the FIFO and one header together. */
  lemma DeadlockExactly(workers: nat, os: seq<Outgoing>, room: nat)
    requires AllWritable(os) && room >= HEADER_SIZE
    ensures CanDeadlock(workers, os, room) <==> workers > 0 && Total(os) > room + HEADER_SIZE
  {
    if workers > 0 && Total(os) > room + HEADER_SIZE {
      var run := Deadlocks(workers, os, room);
    }
    if CanDeadlock(workers, os, room) {
      var run, w :| && CanRun(Opened(workers), run, room) && Notified(run) <= os
                    && Deadlocked(Ran(Opened(workers), run, room), w, room);
      DeadlockNeedsBytes(workers, os, room, run, w);
    }
  }

  function Copies(o: Outgoing, n: nat): seq<Outgoing> {
    if n == 0 then [] else [o] + Copies(o, n - 1)
  }

  lemma {:induction false} CopiesHaveBytes(o: Outgoing, n: nat)
    ensures Total(Copies(o, n)) >= n
    ensures Writable(o) ==> AllWritable(Copies(o, n))
  {
    if n == 0 {
    } else {
      assert Copies(o, n)[1..] == Copies(o, n - 1);
      CopiesHaveBytes(o, n - 1);
    }
  }

  /** However small the piece and however large the FIFO: notified often enough, it can end in a
      deadlock, as soon as there is a worker. */
  lemma DeadlockWheneverRepeated(workers: nat, o: Outgoing, room: nat)
    requires Writable(o) && room >= HEADER_SIZE
    ensures (exists n: nat :: CanDeadlock(workers, Copies(o, n), room)) <==> workers > 0
  {
    var many := room + HEADER_SIZE + 1;
    CopiesHaveBytes(o, many);
    DeadlockExactly(workers, Copies(o, many), room);
    if n: nat :| CanDeadlock(workers, Copies(o, n), room) {
      CopiesHaveBytes(o, n);
      DeadlockExactly(workers, Copies(o, n), room);
    }
  }
}
