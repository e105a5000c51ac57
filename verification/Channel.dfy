/** The channel from the workers to their parent: one FIFO, one semaphore, any number of processes,
    any interleaving, and writes that reach the FIFO in pieces of any size. */
module Channel {
  import opened Basics
  import opened Endian
  import opened PeerMachine

  // ------------------------------------------------------------ frames

  const HEADER_SIZE: nat := 24
  const PIECE_DONE: nat := 1

  /** What a worker writes for a piece: the structure `multiproc_message` as it lies in memory, with
      four bytes of padding, and then the data of the piece. */
  datatype Outgoing = Outgoing(notice: Notice, padding: Word)

  predicate Writable(o: Outgoing) {
    |o.notice.data| < TWO_TO_THE_64 && o.notice.index < TWO_TO_THE_64
  }

  function Header(o: Outgoing): (bs: seq<byte>)
    ensures |bs| == HEADER_SIZE
  {
    Image(PIECE_DONE, 4) + o.padding + Image(|o.notice.data|, 8) + Image(o.notice.index, 8)
  }

  function Frame(o: Outgoing): (bs: seq<byte>)
    ensures |bs| == HEADER_SIZE + |o.notice.data|
  {
    Header(o) + o.notice.data
  }

  function TypeField(bs: seq<byte>): nat
    requires |bs| >= HEADER_SIZE
  {
    Read(bs[..4])
  }

  function SizeField(bs: seq<byte>): nat
    requires |bs| >= HEADER_SIZE
  {
    Read(bs[8..16])
  }

  function IndexField(bs: seq<byte>): nat
    requires |bs| >= HEADER_SIZE
  {
    Read(bs[16..24])
  }

  /** The pieces that a reader of the stream finds in it, one whole frame after the other. */
  function Deframed(bs: seq<byte>): seq<Notice>
    decreases |bs|
  {
    if |bs| < HEADER_SIZE || |bs| < HEADER_SIZE + SizeField(bs) then []
    else
      var end := HEADER_SIZE + SizeField(bs);
      [Notice(IndexField(bs), bs[HEADER_SIZE..end])] + Deframed(bs[end..])
  }

  lemma Slices(a: seq<byte>, b: seq<byte>, c: seq<byte>, d: seq<byte>, e: seq<byte>)
    requires |a| == |b| == 4 && |c| == |d| == 8
    ensures var bs := a + b + c + d + e;
            bs[..4] == a && bs[8..16] == c && bs[16..24] == d && bs[24..] == e
  {
  }

  lemma HeaderFields(o: Outgoing, rest: seq<byte>)
    requires Writable(o)
    ensures var bs := Header(o) + rest;
            && TypeField(bs) == 1 && SizeField(bs) == |o.notice.data| && IndexField(bs) == o.notice.index
            && bs[HEADER_SIZE..] == rest
  {
    Slices(Image(PIECE_DONE, 4), o.padding, Image(|o.notice.data|, 8), Image(o.notice.index, 8), rest);
    Weights();
    ReadImage(PIECE_DONE, 4);
    ReadImage(|o.notice.data|, 8);
    ReadImage(o.notice.index, 8);
  }

  lemma Parts(h: seq<byte>, data: seq<byte>, rest: seq<byte>)
    ensures h + data + rest == h + (data + rest)
    ensures (h + data + rest)[|h|..|h| + |data|] == data && (h + data + rest)[|h| + |data|..] == rest
  {
  }

  /** A whole frame in front of a stream is read as its piece. */
  lemma DeframeFrame(o: Outgoing, rest: seq<byte>)
    requires Writable(o)
    ensures Deframed(Frame(o) + rest) == [o.notice] + Deframed(rest)
  {
    HeaderFields(o, o.notice.data + rest);
    Parts(Header(o), o.notice.data, rest);
    hide Header, TypeField, SizeField, IndexField, Writable;
  }

  /** Part of a frame is read as nothing. */
  lemma DeframePart(o: Outgoing, n: nat)
    requires Writable(o) && n < |Frame(o)|
    ensures Deframed(Frame(o)[..n]) == []
  {
    if n >= HEADER_SIZE {
      var data := o.notice.data[..n - HEADER_SIZE];
      assert Frame(o)[..n] == Header(o) + data;
      HeaderFields(o, data);
    }
  }

  function Notices(os: seq<Outgoing>): (ns: seq<Notice>)
    ensures |ns| == |os|
  {
    seq(|os|, i requires 0 <= i < |os| => os[i].notice)
  }

  predicate AllWritable(os: seq<Outgoing>) {
    forall i :: 0 <= i < |os| ==> Writable(os[i])
  }

  function Frames(os: seq<Outgoing>): seq<byte>
  {
    if os == [] then [] else Frames(os[..|os| - 1]) + Frame(os[|os| - 1])
  }

  lemma Reassociate<T>(a: seq<T>, b: seq<T>, c: seq<T>)
    ensures a + b + c == a + (b + c)
  {
  }

  lemma NoticesSnoc(os: seq<Outgoing>)
    requires os != []
    ensures Notices(os) == Notices(os[..|os| - 1]) + [os[|os| - 1].notice]
  {
  }

  lemma {:induction false} DeframeFrames(os: seq<Outgoing>, rest: seq<byte>)
    requires AllWritable(os)
    ensures Deframed(Frames(os) + rest) == Notices(os) + Deframed(rest)
    decreases |os|
  {
    hide Deframed, Frame, Writable, Notices;
    if os == [] {
      assert [] + rest == rest && Notices(os) + Deframed(rest) == Deframed(rest);
    } else {
      var n := |os| - 1;
      DeframeFrames(os[..n], Frame(os[n]) + rest);
      DeframeFrame(os[n], rest);
      NoticesSnoc(os);
      Reassociate(Frames(os[..n]), Frame(os[n]), rest);
      Reassociate(Notices(os[..n]), [os[n].notice], Deframed(rest));
    }
  }

  lemma {:induction false} FramesConcat(a: seq<Outgoing>, b: seq<Outgoing>)
    ensures Frames(a + b) == Frames(a) + Frames(b)
    decreases |b|
  {
    hide Frame;
    if b == [] {
      assert a + b == a;
    } else {
      var n := |b| - 1;
      assert (a + b)[..|a + b| - 1] == a + b[..n];
      FramesConcat(a, b[..n]);
      Reassociate(Frames(a), Frames(b[..n]), Frame(b[n]));
    }
  }

  // ------------------------------------------------------------ the processes

  /** Where a worker is in `notify_downloaded_piece`.  The header and the data are written one after
      the other; `done` counts the bytes of both. */
  datatype Worker = Working | Waiting(o: Outgoing) | Writing(o: Outgoing, done: nat)

  datatype Parent = Polling | Wanting | Handling

  /** The semaphore, the processes, all bytes ever written to the FIFO, and the frames whose last
      byte was written, in that order. */
  datatype State = State(sem: nat, workers: seq<Worker>, parent: Parent, written: seq<byte>, completed: seq<Outgoing>)

  datatype Action =
    | Notify(w: nat, o: Outgoing)
    | Acquire(w: nat)
    | Write(w: nat, n: nat)
    | Release(w: nat)
    | ParentWants
    | ParentAcquires
    | ParentReleases

  predicate Enabled(s: State, a: Action) {
    match a
    case Notify(w, o) => w < |s.workers| && s.workers[w].Working? && Writable(o)
    case Acquire(w) => w < |s.workers| && s.workers[w].Waiting? && s.sem > 0
    case Write(w, n) =>
      w < |s.workers| && s.workers[w].Writing? && Writable(s.workers[w].o)
      && n > 0 && s.workers[w].done + n <= |Frame(s.workers[w].o)|
    case Release(w) =>
      w < |s.workers| && s.workers[w].Writing? && Writable(s.workers[w].o)
      && s.workers[w].done == |Frame(s.workers[w].o)|
    case ParentWants => s.parent.Polling?
    case ParentAcquires => s.parent.Wanting? && s.sem > 0
    case ParentReleases => s.parent.Handling?
  }

  function Next(s: State, a: Action): State
    requires Enabled(s, a)
  {
    match a
    case Notify(w, o) => s.(workers := s.workers[w := Waiting(o)])
    case Acquire(w) => s.(sem := s.sem - 1, workers := s.workers[w := Writing(s.workers[w].o, 0)])
    case Write(w, n) =>
      var o, done := s.workers[w].o, s.workers[w].done;
      s.(workers := s.workers[w := Writing(o, done + n)],
         written := s.written + Frame(o)[done..done + n],
         completed := s.completed + if done + n == |Frame(o)| then [o] else [])
    case Release(w) => s.(sem := s.sem + 1, workers := s.workers[w := Working])
    case ParentWants => s.(parent := Wanting)
    case ParentAcquires => s.(sem := s.sem - 1, parent := Handling)
    case ParentReleases => s.(sem := s.sem + 1, parent := Polling)
  }

  function Started(workers: nat, sem: nat): State {
    State(sem, seq(workers, i => Working), Polling, [], [])
  }

  predicate Possible(s: State, run: seq<Action>)
    decreases run
  {
    run == [] || (Enabled(s, run[0]) && Possible(Next(s, run[0]), run[1..]))
  }

  function After(s: State, run: seq<Action>): State
    requires Possible(s, run)
    decreases run
  {
    if run == [] then s else After(Next(s, run[0]), run[1..])
  }

  // ------------------------------------------------------------ the semaphore is conserved

  function WorkersHolding(workers: seq<Worker>): nat {
    if workers == [] then 0
    else (if workers[0].Writing? then 1 else 0) + WorkersHolding(workers[1..])
  }

  function Holders(s: State): nat {
    WorkersHolding(s.workers) + if s.parent.Handling? then 1 else 0
  }

  lemma {:induction false} HoldingUpdated(workers: seq<Worker>, w: nat, x: Worker)
    requires w < |workers|
    ensures WorkersHolding(workers[w := x])
         == WorkersHolding(workers) - (if workers[w].Writing? then 1 else 0) + (if x.Writing? then 1 else 0)
  {
    if w > 0 {
      HoldingUpdated(workers[1..], w - 1, x);
      assert workers[w := x][1..] == workers[1..][w - 1 := x];
    } else {
      assert workers[w := x][1..] == workers[1..];
    }
  }

  lemma {:induction false} HoldingCounts(workers: seq<Worker>, v: nat, w: nat)
    requires v < |workers| && workers[v].Writing?
    ensures WorkersHolding(workers) >= 1
    ensures w < |workers| && w != v && workers[w].Writing? ==> WorkersHolding(workers) >= 2
  {
    HoldingUpdated(workers, v, Working);
    if w < |workers| && w != v && workers[w].Writing? {
      var rest := workers[v := Working];
      HoldingUpdated(rest, w, Working);
    }
  }

  lemma {:induction false} NobodyHolding(n: nat)
    ensures WorkersHolding(seq(n, i => Working)) == 0
  {
    if n == 0 {
    } else {
      assert seq(n, i => Working)[1..] == seq(n - 1, i => Working);
      NobodyHolding(n - 1);
    }
  }

  /** Every step conserves the value of the semaphore plus the number of its holders. */
  lemma StepConserves(s: State, a: Action)
    requires Enabled(s, a)
    ensures Next(s, a).sem + Holders(Next(s, a)) == s.sem + Holders(s)
  {
    match a
    case Notify(w, o) => HoldingUpdated(s.workers, w, Waiting(o));
    case Acquire(w) => HoldingUpdated(s.workers, w, Writing(s.workers[w].o, 0));
    case Write(w, n) => HoldingUpdated(s.workers, w, Writing(s.workers[w].o, s.workers[w].done + n));
    case Release(w) => HoldingUpdated(s.workers, w, Working);
    case _ =>
  }

  // ------------------------------------------------------------ the stream stays framed

  /** Whole frames, followed by what the worker that holds the semaphore has written of its own. */
  predicate Framed(s: State) {
    && AllWritable(s.completed)
    && (forall w :: 0 <= w < |s.workers| && s.workers[w].Writing? ==>
          Writable(s.workers[w].o) && s.workers[w].done <= |Frame(s.workers[w].o)|)
    && (forall w :: 0 <= w < |s.workers| && s.workers[w].Waiting? ==> Writable(s.workers[w].o))
    && s.written == Frames(s.completed) + Unfinished(s.workers)
  }

  /** What the first worker that is inside a frame has written of it. */
  function Unfinished(workers: seq<Worker>): seq<byte> {
    if workers == [] then []
    else if Inside(workers[0]) then Frame(workers[0].o)[..workers[0].done]
    else Unfinished(workers[1..])
  }

  predicate Inside(w: Worker) {
    w.Writing? && Writable(w.o) && w.done < |Frame(w.o)|
  }

  lemma {:induction false} UnfinishedOnly(workers: seq<Worker>, w: nat)
    requires w < |workers|
    requires forall v :: 0 <= v < |workers| && v != w ==> !Inside(workers[v])
    ensures Unfinished(workers) == if Inside(workers[w]) then Frame(workers[w].o)[..workers[w].done] else []
  {
    if w > 0 {
      UnfinishedOnly(workers[1..], w - 1);
    } else if !Inside(workers[0]) {
      UnfinishedNone(workers[1..]);
    }
  }

  lemma {:induction false} UnfinishedNone(workers: seq<Worker>)
    requires forall v :: 0 <= v < |workers| ==> !Inside(workers[v])
    ensures Unfinished(workers) == []
  {
    if workers == [] {
    } else {
      UnfinishedNone(workers[1..]);
    }
  }

  predicate Inv(s: State) {
    s.sem + Holders(s) <= 1 && Framed(s)
  }

  /** A worker that holds the semaphore, or just took it, is the only one inside a frame. */
  lemma OnlyWriter(s: State, w: nat)
    requires s.sem + Holders(s) <= 1 && w < |s.workers|
    requires s.workers[w].Writing? || s.sem > 0
    ensures forall v :: 0 <= v < |s.workers| && v != w ==> !s.workers[v].Writing?
  {
    forall v | 0 <= v < |s.workers| && v != w
      ensures !s.workers[v].Writing?
    {
      if s.workers[v].Writing? {
        HoldingCounts(s.workers, v, w);
      }
    }
  }

  lemma GrowingPrefix(before: seq<byte>, f: seq<byte>, done: nat, n: nat)
    requires done + n <= |f|
    ensures before + f[..done] + f[done..done + n] == before + f[..done + n]
  {
    assert f[..done] + f[done..done + n] == f[..done + n];
  }

  lemma FramesSnoc(os: seq<Outgoing>, o: Outgoing)
    ensures Frames(os + [o]) == Frames(os) + Frame(o)
  {
    assert (os + [o])[..|os|] == os;
  }

  lemma WriteExtends(s: State, w: nat, n: nat)
    requires Inv(s) && Enabled(s, Write(w, n))
    ensures var t := Next(s, Write(w, n));
            AllWritable(t.completed) && t.written == Frames(t.completed) + Unfinished(t.workers)
  {
    var t := Next(s, Write(w, n));
    var o, done := s.workers[w].o, s.workers[w].done;
    OnlyWriter(s, w);
    UnfinishedOnly(s.workers, w);
    UnfinishedOnly(t.workers, w);
    var f := Frame(o);
    GrowingPrefix(Frames(s.completed), f, done, n);
    FramesSnoc(s.completed, o);
    hide Frame, Frames, Holders, Unfinished;
    assert f[..|f|] == f && s.completed + [] == s.completed;
    assert Frames(t.completed) + [] == Frames(t.completed);
  }

  lemma WriteKeepsFraming(s: State, w: nat, n: nat)
    requires Inv(s) && Enabled(s, Write(w, n))
    ensures Framed(Next(s, Write(w, n)))
  {
    WriteExtends(s, w, n);
    hide Frame, Frames, Unfinished, Holders;
  }

  /** A worker that is not inside a frame before or after a step leaves the others' bytes alone. */
  lemma {:induction false} UnfinishedUpdated(workers: seq<Worker>, w: nat, x: Worker)
    requires w < |workers| && !Inside(workers[w]) && !Inside(x)
    ensures Unfinished(workers[w := x]) == Unfinished(workers)
  {
    if w > 0 {
      UnfinishedUpdated(workers[1..], w - 1, x);
      assert workers[w := x][1..] == workers[1..][w - 1 := x];
    } else {
      assert workers[w := x][1..] == workers[1..];
    }
  }

  lemma StepKeepsInv(s: State, a: Action)
    requires Inv(s) && Enabled(s, a)
    ensures Inv(Next(s, a))
  {
    StepConserves(s, a);
    match a
    case Notify(w, o) => UnfinishedUpdated(s.workers, w, Waiting(o));
    case Acquire(w) =>
      OnlyWriter(s, w);
      var t := Next(s, a);
      UnfinishedOnly(s.workers, w);
      UnfinishedOnly(t.workers, w);
      assert Frame(s.workers[w].o)[..0] == [];
    case Write(w, n) => WriteKeepsFraming(s, w, n);
    case Release(w) => UnfinishedUpdated(s.workers, w, Working);
    case _ =>
  }

  lemma {:induction false} RunKeepsInv(s: State, run: seq<Action>)
    requires Possible(s, run)
    ensures After(s, run).sem + Holders(After(s, run)) == s.sem + Holders(s)
    ensures Inv(s) ==> Inv(After(s, run))
    decreases run
  {
    if run == [] {
    } else {
      StepConserves(s, run[0]);
      if Inv(s) {
        StepKeepsInv(s, run[0]);
      }
      RunKeepsInv(Next(s, run[0]), run[1..]);
    }
  }

  /** With the semaphore posted once, for any number of workers and any interleaving: its value plus
      its holders is 1, the stream is whole frames followed by a part of the holder's frame, and a
      reader of the stream finds exactly the pieces whose frames are complete, in that order. */
  lemma StreamStaysFramed(workers: nat, run: seq<Action>)
    requires Possible(Started(workers, 1), run)
    ensures var s := After(Started(workers, 1), run);
            && s.sem + Holders(s) == 1
            && Framed(s)
            && Deframed(s.written) == Notices(s.completed)
  {
    var start := Started(workers, 1);
    NobodyHolding(workers);
    UnfinishedNone(start.workers);
    RunKeepsInv(start, run);
    FramedIsRead(After(start, run));
  }

  lemma FramedIsRead(s: State)
    requires Inv(s)
    ensures Deframed(s.written) == Notices(s.completed)
  {
    DeframeFrames(s.completed, Unfinished(s.workers));
    UnfinishedUnread(s.workers);
  }

  lemma {:induction false} UnfinishedUnread(workers: seq<Worker>)
    ensures Deframed(Unfinished(workers)) == []
  {
    if workers == [] {
    } else {
      if Inside(workers[0]) {
        DeframePart(workers[0].o, workers[0].done);
      } else {
        UnfinishedUnread(workers[1..]);
      }
    }
  }

  // ------------------------------------------------------------ a semaphore posted twice

  /** A semaphore that still has a value from an earlier run of the program lets two workers write
      at once: the second one's frame lands behind the first byte of the first one's. */
  const TINY: Outgoing := Outgoing(Notice(0, [0]), [0, 0, 0, 0])

  function Collision(): seq<Action> {
    [Notify(0, TINY), Notify(1, TINY), Acquire(0), Acquire(1), Write(0, 1), Write(1, 25)]
  }

  lemma CollisionBreaksFraming(sem: nat)
    requires sem >= 2
    ensures Possible(Started(2, sem), Collision())
    ensures var s := After(Started(2, sem), Collision());
            Deframed(s.written) == [] && Notices(s.completed) == [Notice(0, [0])]
  {
    var writes := [Write(0, 1)] + ([Write(1, 25)] + []);
    CollisionWrites(sem);
    var s4 := State(sem - 2, [Writing(TINY, 0), Writing(TINY, 0)], Polling, [], []);
    var s3 := State(sem - 1, [Writing(TINY, 0), Waiting(TINY)], Polling, [], []);
    var s2 := State(sem, [Waiting(TINY), Waiting(TINY)], Polling, [], []);
    var s1 := State(sem, [Waiting(TINY), Working], Polling, [], []);
    assert Started(2, sem).workers == [Working, Working];
    hide Frame, Deframed, Notices, Possible, After;
    RunFrom(s3, Acquire(1), s4, writes);
    RunFrom(s2, Acquire(0), s3, [Acquire(1)] + writes);
    RunFrom(s1, Notify(1, TINY), s2, [Acquire(0)] + ([Acquire(1)] + writes));
    RunFrom(Started(2, sem), Notify(0, TINY), s1, [Notify(1, TINY)] + ([Acquire(0)] + ([Acquire(1)] + writes)));
    assert Collision() == [Notify(0, TINY)] + ([Notify(1, TINY)] + ([Acquire(0)] + ([Acquire(1)] + writes)));
  }

  lemma CollisionWrites(sem: nat)
    requires sem >= 2
    ensures var s := State(sem - 2, [Writing(TINY, 0), Writing(TINY, 0)], Polling, [], []);
            var run := [Write(0, 1)] + ([Write(1, 25)] + []);
            && Possible(s, run)
            && Deframed(After(s, run).written) == [] && Notices(After(s, run).completed) == [Notice(0, [0])]
  {
    hide Frame, Deframed, Possible, After, Notices;
    var f := Frame(TINY);
    CollisionUnreadable();
    var s := State(sem - 2, [Writing(TINY, 0), Writing(TINY, 0)], Polling, [], []);
    var t := State(sem - 2, [Writing(TINY, 1), Writing(TINY, 0)], Polling, f[..1], []);
    var u := State(sem - 2, [Writing(TINY, 1), Writing(TINY, 25)], Polling, f[..1] + f, [TINY]);
    assert f[0..1] == f[..1] && f[0..25] == f && [] + f[..1] == f[..1];
    assert Next(s, Write(0, 1)) == t;
    assert Next(t, Write(1, 25)) == u;
    NothingMore(u);
    RunFrom(t, Write(1, 25), u, []);
    RunFrom(s, Write(0, 1), t, [Write(1, 25)] + []);
    NoticesOne(TINY);
  }

  lemma NothingMore(s: State)
    ensures Possible(s, []) && After(s, []) == s
  {
  }

  lemma NoticesOne(o: Outgoing)
    ensures Notices([o]) == [o.notice]
  {
  }

  lemma RunFrom(s: State, a: Action, t: State, run: seq<Action>)
    requires Enabled(s, a) && Next(s, a) == t && Possible(t, run)
    ensures Possible(s, [a] + run) && After(s, [a] + run) == After(t, run)
  {
    assert ([a] + run)[1..] == run;
  }

  lemma TinyFrame()
    ensures Frame(TINY) == [1, 0, 0, 0, 0, 0, 0, 0] + [1, 0, 0, 0, 0, 0, 0, 0] + [0, 0, 0, 0, 0, 0, 0, 0] + [0]
  {
    SmallImage(0);
    SmallImage(1);
    hide Image;
  }

  lemma CollisionUnreadable()
    ensures Deframed(Frame(TINY)[..1] + Frame(TINY)) == []
  {
    var bs := Frame(TINY)[..1] + Frame(TINY);
    CollisionSize();
    hide Frame, SizeField;
  }

  lemma CollisionSize()
    ensures var bs := Frame(TINY)[..1] + Frame(TINY);
            |bs| >= HEADER_SIZE && SizeField(bs) == 256
  {
    hide Frame, Read;
    TinyFrame();
    var bs := Frame(TINY)[..1] + Frame(TINY);
    Shifted(Frame(TINY));
    assert Frame(TINY)[7..15] == [0, 1, 0, 0, 0, 0, 0, 0];
    Read256();
  }

  lemma Shifted(f: seq<byte>)
    requires |f| >= 15
    ensures (f[..1] + f)[8..16] == f[7..15]
  {
  }

  lemma {:induction false} ReadZeros(n: nat)
    ensures Read(Zeros(n)) == 0
  {
    if n == 0 {
    } else {
      assert Zeros(n)[1..] == Zeros(n - 1);
      ReadZeros(n - 1);
    }
  }

  lemma ReadMore(b: byte, bs: seq<byte>)
    ensures Read([b] + bs) == b + 256 * Read(bs)
  {
    assert ([b] + bs)[1..] == bs;
  }

  lemma Read256()
    ensures Read([0, 1, 0, 0, 0, 0, 0, 0]) == 256
  {
    hide Read;
    ReadZeros(6);
    ReadMore(1, Zeros(6));
    ReadMore(0, [1] + Zeros(6));
    assert [0] + ([1] + Zeros(6)) == [0, 1, 0, 0, 0, 0, 0, 0];
  }

  /** The stream reads as the completed pieces in every run of any number of workers exactly when the
      semaphore starts with a value of at most one. */
  lemma FramedExactlyIfPostedOnce(sem: nat)
    ensures sem <= 1 <==>
              forall workers: nat, run :: Possible(Started(workers, sem), run) ==>
                var s := After(Started(workers, sem), run); Deframed(s.written) == Notices(s.completed)
  {
    if sem <= 1 {
      forall workers: nat, run | Possible(Started(workers, sem), run)
        ensures var s := After(Started(workers, sem), run); Deframed(s.written) == Notices(s.completed)
      {
        NobodyHolding(workers);
        UnfinishedNone(Started(workers, sem).workers);
        RunKeepsInv(Started(workers, sem), run);
        FramedIsRead(After(Started(workers, sem), run));
      }
    } else {
      CollisionBreaksFraming(sem);
    }
  }
}
