/** Which pieces a whole run downloads: selection and download together. */
module Completion {
  import opened Basics
  import opened Bits
  import opened DownloadRun
  import opened PeerMachine
  import opened PeerWire

  /** What a block makes of the piece, as the second selection of the round finds it. */
  function Finished(s: System, e: Event, pieceLength: nat): Piece {
    Handle(s.peer, e.message, e.first, e.slack, pieceLength).state.piece
  }

  /** The notifications so far, and the one that this round makes of a complete piece. */
  function NotifiedThen(s: System, e: Event, pieceLength: nat): seq<Notice> {
    var p := Finished(s, e, pieceLength);
    s.notified + [Notice(p.index, p.Allocation())]
  }

  /** A round that answers a request: the count goes on, or the piece is notified and the next selection is
      made. */
  lemma AnswerSelects(s: System, e: Event, pieceLength: nat, content: Content)
    requires Pieces(pieceLength, content) && Honest(s, e, content) && e.message.Block?
    requires s.failedAt.None? && !s.peer.choking && Fetching(s.peer.piece, s.pending, pieceLength, content, None)
    ensures var t := Step(s, e, pieceLength);
            && t.peer.theirs == s.peer.theirs && !t.peer.choking
            && Finished(s, e, pieceLength).index == s.peer.piece.index
            && if PieceComplete(Finished(s, e, pieceLength)) then
                 && t.notified == NotifiedThen(s, e, pieceLength)
                 && var found := Search(e.second.ours, s.peer.theirs, e.second.skips);
                    if found.Some? then t.failedAt.None? && t.peer.piece.index == found.value
                    else t.failedAt == Some(|t.notified|)
               else
                 t.notified == s.notified && t.failedAt.None? && t.peer.piece.index == s.peer.piece.index
  {
    BlockContinues(s, e, pieceLength, content, None);
    BlockKeepsSize(s.peer, e, pieceLength);
    StepOfBlock(s, e, pieceLength);
    hide Handle, Step, Search, RequestsOf, RequestsFor, Fetching, Right, Honest, Pieces;
  }

  /** What other rounds leave. */
  lemma OtherSelects(s: System, e: Event, pieceLength: nat, content: Content)
    requires Addressable(pieceLength) && Honest(s, e, content) && Inv(s, pieceLength, content, None)
    requires s.failedAt.None? && !e.message.Block?
    ensures var t := Step(s, e, pieceLength);
            && !PieceComplete(Finished(s, e, pieceLength)) && t.notified == s.notified
            && (e.message.Unchoke? ==> s.peer.choking && t.peer.theirs == s.peer.theirs && !t.peer.choking)
            && (!e.message.Unchoke? ==>
                  && t.failedAt.None? && t.peer.piece == s.peer.piece && t.peer.choking == s.peer.choking
                  && (!e.message.Have? && !e.message.Bitfield? ==> t.peer.theirs == s.peer.theirs))
            && (e.message.Unchoke? ==>
                  var found := Search(e.first.ours, s.peer.theirs, e.first.skips);
                  if found.Some? then t.failedAt.None? && t.peer.piece.index == found.value
                  else t.failedAt == Some(|t.notified|))
  {
    if e.message.Unchoke? {
      UnchokeContinues(s, e, pieceLength, content, None);
      assert s.peer.piece == NO_PIECE;
    } else {
      OtherContinues(s, e, pieceLength, content, None);
    }
    StepOfOther(s, e, pieceLength);
    hide Step, Search, RequestsOf, RequestsFor, Fetching, WithBit, ToBits, Right;
  }

  /** After a failed selection the trusted notifications stay the same. */
  lemma FailedStays(s: System, e: Event, pieceLength: nat)
    requires s.failedAt.Some?
    ensures Step(s, e, pieceLength).failedAt == s.failedAt && s.notified <= Step(s, e, pieceLength).notified
  {
    hide Work;
  }

  // ------------------------------------------------------------ each piece once

  /** The bits that a selection sees include the notified pieces. */
  predicate Sees(look: Look, ns: seq<Notice>) {
    forall i :: 0 <= i < |ns| ==> BitGet(look.ours, ns[i].index)
  }

  /** By the time the next piece is selected, the parent has marked those notified and the one at hand. */
  predicate Informed(s: System, e: Event, pieceLength: nat) {
    PieceComplete(Finished(s, e, pieceLength)) ==> Sees(e.second, NotifiedThen(s, e, pieceLength))
  }

  predicate InformedRun(s: System, events: seq<Event>, pieceLength: nat)
    decreases events
  {
    events == [] ||
    (Informed(s, events[0], pieceLength) && InformedRun(Step(s, events[0], pieceLength), events[1..], pieceLength))
  }

  predicate Distinct(ns: seq<Notice>) {
    forall i, j :: 0 <= i < j < |ns| ==> ns[i].index != ns[j].index
  }

  predicate Without(ns: seq<Notice>, index: nat) {
    forall i :: 0 <= i < |ns| ==> ns[i].index != index
  }

  /** No piece was notified twice, and the one at hand is another. */
  predicate Once(s: System) {
    && Trusted(s) <= |s.notified| && Distinct(s.notified[..Trusted(s)])
    && (s.failedAt.None? ==> if s.peer.choking then s.notified == [] else Without(s.notified, s.peer.piece.index))
  }

  lemma OnceMore(ns: seq<Notice>, n: Notice, look: Look, theirs: seq<bv8>)
    requires Distinct(ns) && Without(ns, n.index) && Sees(look, ns + [n])
    ensures Distinct(ns + [n])
    ensures var found := Search(look.ours, theirs, look.skips);
            found.Some? ==> Without(ns + [n], found.value)
  {
    hide Search, BitGet;
    var found := Search(look.ours, theirs, look.skips);
    if found.Some? {
      assert Wanted(look.ours, theirs, found.value);
    }
  }

  lemma StepKeepsOnce(s: System, e: Event, pieceLength: nat, content: Content)
    requires Pieces(pieceLength, content) && Honest(s, e, content) && Inv(s, pieceLength, content, None)
    requires Informed(s, e, pieceLength) && Once(s)
    ensures Once(Step(s, e, pieceLength))
  {
    var t := Step(s, e, pieceLength);
    if s.failedAt.Some? {
      FailedStays(s, e, pieceLength);
      assert t.notified[..Trusted(s)] == s.notified[..Trusted(s)];
    } else if e.message.Block? {
      AnswerSelects(s, e, pieceLength, content);
      assert s.notified[..|s.notified|] == s.notified && t.notified[..|t.notified|] == t.notified;
      if PieceComplete(Finished(s, e, pieceLength)) {
        var p := Finished(s, e, pieceLength);
        OnceMore(s.notified, Notice(p.index, p.Allocation()), e.second, s.peer.theirs);
      }
    } else {
      OtherSelects(s, e, pieceLength, content);
      assert s.notified[..|s.notified|] == s.notified && t.notified[..|t.notified|] == t.notified;
    }
    hide Step, Search, Fetching, Honest, Pieces, Handle;
  }

  lemma {:induction false} RunKeepsOnce(s: System, events: seq<Event>, pieceLength: nat, content: Content,
                                        answered: nat)
    requires Pieces(pieceLength, content) && HonestRun(s, events, pieceLength, content)
    requires Inv(s, pieceLength, content, None) && Progress(s, answered, pieceLength)
    requires InformedRun(s, events, pieceLength) && Once(s)
    ensures Once(Run(s, events, pieceLength))
    decreases events
  {
    if events == [] {
    } else {
      StepKeepsOnce(s, events[0], pieceLength, content);
      StepKeepsInv(s, events[0], pieceLength, content, None, answered);
      hide Once, Inv, Progress, Informed, Honest, Step;
      var more := answered + if events[0].message.Block? then 1 else 0;
      RunKeepsOnce(Step(s, events[0], pieceLength), events[1..], pieceLength, content, more);
    }
  }

  /** If every selection after a piece sees the pieces notified so far, then over any run against an honest
      peer no piece is notified twice before the first failed selection. */
  lemma NotifiedOnce(events: seq<Event>, pieceLength: nat, content: Content)
    requires Pieces(pieceLength, content) && HonestRun(Start(), events, pieceLength, content)
    requires InformedRun(Start(), events, pieceLength)
    ensures var s := Run(Start(), events, pieceLength);
            Trusted(s) <= |s.notified| && Distinct(s.notified[..Trusted(s)])
  {
    RunKeepsOnce(Start(), events, pieceLength, content, 0);
  }

  // ------------------------------------------------------------ every missing piece

  function Indices(ns: seq<Notice>): (r: set<nat>)
    ensures forall i :: 0 <= i < |ns| ==> ns[i].index in r
    ensures forall x :: x in r ==> exists i :: 0 <= i < |ns| && ns[i].index == x
  {
    set i | 0 <= i < |ns| :: ns[i].index
  }

  lemma IndicesMore(ns: seq<Notice>, n: Notice)
    ensures Indices(ns + [n]) == Indices(ns) + {n.index}
  {
    forall x
      ensures x in Indices(ns + [n]) <==> x in Indices(ns) + {n.index}
    {
      if x in Indices(ns) + {n.index} {
        assert (ns + [n])[|ns|] == n;
        if x in Indices(ns) {
          var i :| 0 <= i < |ns| && ns[i].index == x;
          assert (ns + [n])[i].index == x;
        }
      }
    }
  }

  lemma {:induction false} DistinctSize(ns: seq<Notice>)
    requires Distinct(ns)
    ensures |Indices(ns)| == |ns|
    decreases |ns|
  {
    if ns == [] {
    } else {
      var n := |ns| - 1;
      assert ns == ns[..n] + [ns[n]];
      DistinctSize(ns[..n]);
      IndicesMore(ns[..n], ns[n]);
    }
  }

  /** The bits that a selection sees are those of the start and the notified pieces. */
  predicate Tracks(look: Look, ours: seq<bv8>, ns: seq<Notice>) {
    |look.ours| == |ours| && Members(look.ours) == Members(ours) + Indices(ns)
  }

  predicate Tracked(s: System, e: Event, pieceLength: nat, ours: seq<bv8>) {
    && (e.message.Unchoke? ==> Tracks(e.first, ours, []))
    && (PieceComplete(Finished(s, e, pieceLength)) ==> Tracks(e.second, ours, NotifiedThen(s, e, pieceLength)))
  }

  predicate TrackedRun(s: System, events: seq<Event>, pieceLength: nat, ours: seq<bv8>)
    decreases events
  {
    events == [] ||
    (Tracked(s, events[0], pieceLength, ours)
     && TrackedRun(Step(s, events[0], pieceLength), events[1..], pieceLength, ours))
  }

  lemma {:induction false} TrackedIsInformed(s: System, events: seq<Event>, pieceLength: nat, ours: seq<bv8>)
    requires TrackedRun(s, events, pieceLength, ours)
    ensures InformedRun(s, events, pieceLength)
    decreases events
  {
    if events == [] {
    } else {
      var e, ns := events[0], NotifiedThen(s, events[0], pieceLength);
      if PieceComplete(Finished(s, e, pieceLength)) {
        forall i | 0 <= i < |ns|
          ensures BitGet(e.second.ours, ns[i].index)
        {
          assert ns[i].index in Members(e.second.ours);
        }
      }
      TrackedIsInformed(Step(s, e, pieceLength), events[1..], pieceLength, ours);
    }
  }

  /** From the unchoke on the peer does not change its bits. */
  predicate SettledRun(s: System, events: seq<Event>, pieceLength: nat)
    decreases events
  {
    events == [] ||
    (&& (s.peer.choking || (!events[0].message.Have? && !events[0].message.Bitfield?))
     && SettledRun(Step(s, events[0], pieceLength), events[1..], pieceLength))
  }

  /** What the search makes of bits that track the notified pieces. */
  lemma SearchTracks(look: Look, ours: seq<bv8>, ns: seq<Notice>, theirs: seq<bv8>)
    requires Tracks(look, ours, ns) && Within(ours, theirs) && Indices(ns) <= Missing(ours, theirs)
    ensures var found := Search(look.ours, theirs, look.skips);
            if found.Some? then found.value in Missing(ours, theirs) && found.value !in Indices(ns)
            else Indices(ns) == Missing(ours, theirs)
  {
    hide Has, Search, Inspected, Mismatches;
    forall i | 0 <= i < 8 * Common(look.ours, theirs) && BitGet(look.ours, i)
      ensures BitGet(theirs, i)
    {
      assert i in Members(look.ours);
      assert i in Members(ours) || i in Indices(ns);
    }
    SearchCompleteWithin(look.ours, theirs, look.skips);
    forall i: nat
      ensures i in Missing(look.ours, theirs) <==> i in Missing(ours, theirs) && i !in Indices(ns)
    {
      assert BitGet(look.ours, i) <==> i in Members(look.ours);
      assert BitGet(ours, i) <==> i in Members(ours);
    }
    if Search(look.ours, theirs, look.skips).Some? {
      SearchFinds(look.ours, theirs, look.skips);
    }
  }

  /** The pieces notified, and the one at hand, were missing; after a failed selection nothing else is. */
  predicate Covers(s: System, ours: seq<bv8>, theirs: seq<bv8>) {
    && Trusted(s) <= |s.notified| && Indices(s.notified[..Trusted(s)]) <= Missing(ours, theirs)
    && (s.failedAt.Some? ==> Indices(s.notified[..Trusted(s)]) == Missing(ours, theirs))
    && (s.failedAt.None? ==>
          if s.peer.choking then s.notified == [] else s.peer.piece.index in Missing(ours, theirs))
  }

  lemma StepKeepsCovers(s: System, e: Event, pieceLength: nat, content: Content, ours: seq<bv8>, theirs: seq<bv8>)
    requires Pieces(pieceLength, content) && Honest(s, e, content) && Inv(s, pieceLength, content, None)
    requires Tracked(s, e, pieceLength, ours) && Covers(s, ours, theirs) && Within(ours, theirs)
    requires !Step(s, e, pieceLength).peer.choking ==> s.peer.theirs == theirs
    ensures Covers(Step(s, e, pieceLength), ours, theirs)
  {
    var t := Step(s, e, pieceLength);
    assert s.notified[..|s.notified|] == s.notified && t.notified[..|t.notified|] == t.notified;
    if s.failedAt.Some? {
      FailedStays(s, e, pieceLength);
      assert t.notified[..Trusted(s)] == s.notified[..Trusted(s)];
    } else if e.message.Block? {
      AnswerSelects(s, e, pieceLength, content);
      if PieceComplete(Finished(s, e, pieceLength)) {
        var p := Finished(s, e, pieceLength);
        IndicesMore(s.notified, Notice(p.index, p.Allocation()));
        SearchTracks(e.second, ours, NotifiedThen(s, e, pieceLength), theirs);
      }
    } else {
      OtherSelects(s, e, pieceLength, content);
      if e.message.Unchoke? {
        assert Indices([]) == {};
        SearchTracks(e.first, ours, [], theirs);
      }
    }
    hide Step, Search, Fetching, Honest, Pieces, Handle, Missing, Indices, Finished;
  }

  lemma UnchokedStays(s: System, e: Event, pieceLength: nat, content: Content)
    requires Honest(s, e, content) && !s.peer.choking
    ensures var t := Step(s, e, pieceLength);
            && !t.peer.choking
            && (!e.message.Have? && !e.message.Bitfield? ==> t.peer.theirs == s.peer.theirs)
  {
    hide Search, RequestsFor, WithBit, ToBits, BlockReceived;
  }

  /** The peer's bits stay as they are from the unchoke on. */
  lemma {:induction false} SettledBits(s: System, events: seq<Event>, pieceLength: nat, content: Content)
    requires HonestRun(s, events, pieceLength, content) && SettledRun(s, events, pieceLength)
    ensures !s.peer.choking ==> Run(s, events, pieceLength).peer.theirs == s.peer.theirs
    decreases events
  {
    if events == [] || s.peer.choking {
    } else {
      UnchokedStays(s, events[0], pieceLength, content);
      hide Step, Honest;
      SettledBits(Step(s, events[0], pieceLength), events[1..], pieceLength, content);
    }
  }

  lemma {:induction false} RunKeepsCovers(s: System, events: seq<Event>, pieceLength: nat, content: Content,
                                          answered: nat, ours: seq<bv8>)
    requires Pieces(pieceLength, content) && HonestRun(s, events, pieceLength, content)
    requires Inv(s, pieceLength, content, None) && Progress(s, answered, pieceLength)
    requires TrackedRun(s, events, pieceLength, ours) && SettledRun(s, events, pieceLength)
    requires Within(ours, Run(s, events, pieceLength).peer.theirs)
    requires Covers(s, ours, Run(s, events, pieceLength).peer.theirs)
    ensures Covers(Run(s, events, pieceLength), ours, Run(s, events, pieceLength).peer.theirs)
    decreases events
  {
    if events == [] {
    } else {
      var e, theirs := events[0], Run(s, events, pieceLength).peer.theirs;
      SettledBits(s, events, pieceLength, content);
      SettledBits(Step(s, e, pieceLength), events[1..], pieceLength, content);
      UnchokeKeepsBits(s, e, pieceLength);
      StepKeepsCovers(s, e, pieceLength, content, ours, theirs);
      StepKeepsInv(s, e, pieceLength, content, None, answered);
      hide Covers, Inv, Progress, Tracked, Honest, Step;
      var more := answered + if e.message.Block? then 1 else 0;
      RunKeepsCovers(Step(s, e, pieceLength), events[1..], pieceLength, content, more, ours);
    }
  }

  /** A round that ends the choking leaves the bits alone. */
  lemma UnchokeKeepsBits(s: System, e: Event, pieceLength: nat)
    ensures var t := Step(s, e, pieceLength);
            s.peer.choking && !t.peer.choking ==> t.peer.theirs == s.peer.theirs
  {
    hide Search, RequestsFor, WithBit, ToBits, BlockReceived;
  }

  /** Selection and download together.  Our bits lie within the peer's, every selection sees the notified
      pieces marked, and the peer is honest and does not change its bits.  Then every piece notified
      before the first failed selection was missing, is notified once, and begins with what the peer
      holds; and when a selection fails, they are all the missing pieces. */
  lemma MissingPiecesOnce(events: seq<Event>, pieceLength: nat, content: Content, ours: seq<bv8>)
    requires Pieces(pieceLength, content) && HonestRun(Start(), events, pieceLength, content)
    requires TrackedRun(Start(), events, pieceLength, ours) && SettledRun(Start(), events, pieceLength)
    requires Within(ours, Run(Start(), events, pieceLength).peer.theirs)
    ensures var s := Run(Start(), events, pieceLength);
            var missing := Missing(ours, s.peer.theirs);
            && Trusted(s) <= |s.notified|
            && var trusted := s.notified[..Trusted(s)];
               && Distinct(trusted) && Indices(trusted) <= missing
               && (forall i :: 0 <= i < |trusted| ==> content(trusted[i].index) <= trusted[i].data)
               && (s.failedAt.Some? ==> Indices(trusted) == missing && |trusted| == |missing|)
               && (s.failedAt.None? && !s.peer.choking ==> |trusted| < |missing|)
  {
    var s := Run(Start(), events, pieceLength);
    TrackedIsInformed(Start(), events, pieceLength, ours);
    RunKeepsOnce(Start(), events, pieceLength, content, 0);
    RunKeepsCovers(Start(), events, pieceLength, content, 0, ours);
    NotifiedPiecesAreRight(events, pieceLength, content);
    hide Run, HonestRun, TrackedRun, SettledRun, InformedRun, Missing, Indices, Once, Covers, Within, Pieces;
    OnceAndCovered(s, ours, s.peer.theirs);
    assert forall i :: 0 <= i < Trusted(s) ==> s.notified[..Trusted(s)][i] == s.notified[i];
  }

  lemma OnceAndCovered(s: System, ours: seq<bv8>, theirs: seq<bv8>)
    requires Once(s) && Covers(s, ours, theirs)
    ensures var missing, trusted := Missing(ours, theirs), s.notified[..Trusted(s)];
            && Distinct(trusted) && Indices(trusted) <= missing
            && (s.failedAt.Some? ==> Indices(trusted) == missing && |trusted| == |missing|)
            && (s.failedAt.None? && !s.peer.choking ==> |trusted| < |missing|)
  {
    var trusted := s.notified[..Trusted(s)];
    hide Missing, Indices;
    DistinctSize(trusted);
    if s.failedAt.None? && !s.peer.choking {
      var n := Notice(s.peer.piece.index, []);
      assert trusted == s.notified;
      IndicesMore(trusted, n);
      DistinctSize(trusted + [n]);
      SmallerSet(Indices(trusted + [n]), Missing(ours, theirs));
    }
  }

  lemma SmallerSet(a: set<nat>, b: set<nat>)
    requires a <= b
    ensures |a| <= |b|
  {
    assert b == a + (b - a);
  }

  lemma Monotone(n: nat, x: nat, y: nat)
    requires x <= y
    ensures n * x <= n * y
  {
  }

  lemma QuotientAtLeast(a: nat, n: nat, m: nat)
    requires n > 0 && a >= n * m
    ensures a / n >= m
  {
    var q := a / n;
    assert a < n * (q + 1);
    if q + 1 <= m {
      Monotone(n, q + 1, m);
    }
  }

  /** And they do arrive: with whole blocks, once the peer has answered as many blocks as all missing pieces
      have, a selection has failed, and every missing piece was notified exactly once. */
  lemma MissingPiecesArrive(events: seq<Event>, pieceLength: nat, content: Content, ours: seq<bv8>)
    requires Pieces(pieceLength, content) && HonestRun(Start(), events, pieceLength, content)
    requires TrackedRun(Start(), events, pieceLength, ours) && SettledRun(Start(), events, pieceLength)
    requires Within(ours, Run(Start(), events, pieceLength).peer.theirs)
    requires pieceLength % MAX_BLOCK_SIZE == 0 && !Run(Start(), events, pieceLength).peer.choking
    ensures var s := Run(Start(), events, pieceLength);
            var missing := Missing(ours, s.peer.theirs);
            BlocksIn(events) >= (pieceLength / MAX_BLOCK_SIZE) * |missing| ==>
              && s.failedAt.Some? && Trusted(s) <= |s.notified|
              && Distinct(s.notified[..Trusted(s)]) && Indices(s.notified[..Trusted(s)]) == missing
  {
    MissingPiecesOnce(events, pieceLength, content, ours);
    EveryPieceCompletes(events, pieceLength, content);
    var s := Run(Start(), events, pieceLength);
    var missing := Missing(ours, s.peer.theirs);
    hide Run, HonestRun, TrackedRun, SettledRun, Missing, Indices, Within, BlocksIn;
    if BlocksIn(events) >= (pieceLength / MAX_BLOCK_SIZE) * |missing| {
      QuotientAtLeast(BlocksIn(events), pieceLength / MAX_BLOCK_SIZE, |missing|);
    }
  }

  // ------------------------------------------------------------ a concrete run

  /** The block completes the piece, and the next selection, which does not see it marked, takes it again. */
  lemma SelectedAgain(payload: seq<byte>, slack: seq<byte>)
    requires |payload| == MAX_BLOCK_SIZE
    ensures Step(Requesting(MAX_BLOCK_SIZE), Event(Block(0, 0, payload), NOTHING, NOTHING, slack), MAX_BLOCK_SIZE)
         == Requesting(MAX_BLOCK_SIZE).(notified := [Notice(0, payload + slack)])
  {
    OneBitSearches();
    OneRequest(MAX_BLOCK_SIZE);
    OneBlockHandled(MAX_BLOCK_SIZE, payload, slack);
    StepOfBlock(Requesting(MAX_BLOCK_SIZE), Event(Block(0, 0, payload), NOTHING, NOTHING, slack), MAX_BLOCK_SIZE);
    hide Handle, Step, Search, RequestsFor, RequestsOf;
    var r := [Request(0, 0, MAX_BLOCK_SIZE)];
    assert r[1..] + ([] + r) == r;
    assert [] + [Notice(0, payload + slack)] == [Notice(0, payload + slack)];
  }

  /** If the parent marks a piece too late, the same piece is downloaded and notified twice, with no failed
      selection in between. */
  lemma SamePieceTwice(payload: seq<byte>, slack: seq<byte>)
    requires |payload| == MAX_BLOCK_SIZE
    ensures var content: Content := i => payload;
            var late := Event(Block(0, 0, payload), NOTHING, NOTHING, slack);
            var run := [Event(Bitfield([1]), NOTHING, NOTHING, []), Event(Unchoke, NOTHING, NOTHING, [])]
                       + [late, late];
            var s := Run(Start(), run, MAX_BLOCK_SIZE);
            && HonestRun(Start(), run, MAX_BLOCK_SIZE, content)
            && s.failedAt.None? && s.notified == [Notice(0, payload + slack), Notice(0, payload + slack)]
  {
    hide Step, Search;
    var content: Content, L := i => payload, MAX_BLOCK_SIZE;
    var late := Event(Block(0, 0, payload), NOTHING, NOTHING, slack);
    Opens([late, late], L, content);
    SelectedAgain(payload, slack);
    var t := Step(Requesting(L), late, L);
    NotifiedFirst(Requesting(L), t.notified, late, L);
    assert content(0)[0..L] == payload;
    assert [late, late] == [late, late] + [];
    RunTwo(Requesting(L), late, t, late, Step(t, late, L), [], L, content);
    assert t.notified + [Notice(0, payload + slack)] == [Notice(0, payload + slack), Notice(0, payload + slack)];
    assert Run(Step(t, late, L), [], L) == Step(t, late, L);
  }

  /** What was notified before only stands in front. */
  lemma NotifiedFirst(s: System, ns: seq<Notice>, e: Event, pieceLength: nat)
    requires s.notified == [] && s.failedAt.None? && Step(s, e, pieceLength).failedAt.None?
    ensures var t := Step(s, e, pieceLength);
            Step(s.(notified := ns), e, pieceLength) == t.(notified := ns + t.notified)
  {
    hide Work, RequestsOf;
  }
}
