/** Selecting pieces until nothing is missing, and the bitfield that the processes share. */
module Selection {
  import opened Basics
  import opened Bits

  datatype Selected = Selected(bytes: seq<bv8>, picks: seq<nat>)

  /** Rounds of "search, then set the bit found", each with its own random skip count, up to the
      first search that finds nothing. */
  function Rounds(ours: seq<bv8>, theirs: seq<bv8>, skips: seq<nat>): Selected
    decreases skips
  {
    if skips == [] || Search(ours, theirs, skips[0]).None? then Selected(ours, []) else
      var i := Search(ours, theirs, skips[0]).value;
      var rest := Rounds(WithBit(ours, i), theirs, skips[1..]);
      Selected(rest.bytes, [i] + rest.picks)
  }

  function ToSet(s: seq<nat>): set<nat> {
    set i | i in s
  }

  /** A round removes exactly the index it picks from what is missing. */
  lemma OneRound(ours: seq<bv8>, theirs: seq<bv8>, i: nat)
    requires Within(ours, theirs) && i in Missing(ours, theirs)
    ensures var next := WithBit(ours, i);
            && Within(next, theirs) && Common(next, theirs) == Common(ours, theirs)
            && Missing(next, theirs) == Missing(ours, theirs) - {i}
            && Members(next) == Members(ours) + {i}
  {
    hide Has, Mask;
    var next := WithBit(ours, i);
    WithBitAdds(ours, i);
    forall j: nat
      ensures BitGet(next, j) <==> BitGet(ours, j) || j == i
    {
      WithBitGet(ours, i, j);
    }
  }

  predicate Distinct(s: seq<nat>) {
    forall k, l :: 0 <= k < l < |s| ==> s[k] != s[l]
  }

  function Min(a: nat, b: nat): nat {
    if a <= b then a else b
  }

  lemma PicksStep(missing: set<nat>, i: nat, rest: seq<nat>, n: nat)
    requires i in missing && Distinct(rest) && ToSet(rest) <= missing - {i}
    requires |rest| == Min(n, |missing - {i}|)
    ensures Distinct([i] + rest) && ToSet([i] + rest) == {i} + ToSet(rest)
    ensures |[i] + rest| == Min(n + 1, |missing|)
  {
    assert ToSet([i] + rest) == {i} + ToSet(rest);
    assert |missing - {i}| == |missing| - 1;
    assert forall k :: 0 <= k < |rest| ==> rest[k] in ToSet(rest);
  }

  /** If ours lie within theirs, then under every sequence of skip counts each round finds another
      missing piece until none is left. */
  lemma {:induction false} SelectionFinishes(ours: seq<bv8>, theirs: seq<bv8>, skips: seq<nat>)
    requires Within(ours, theirs)
    ensures var missing, r := Missing(ours, theirs), Rounds(ours, theirs, skips);
            && |r.picks| == Min(|skips|, |missing|) && Distinct(r.picks) && ToSet(r.picks) <= missing
            && Members(r.bytes) == Members(ours) + ToSet(r.picks)
            && |r.bytes| == |ours| && Within(r.bytes, theirs)
            && Missing(r.bytes, theirs) == missing - ToSet(r.picks)
    decreases skips
  {
    hide Has, Mask, Search, WithBit, Within, BitGet, Wanted;
    if skips == [] {
    } else {
      SearchCompleteWithin(ours, theirs, skips[0]);
      if Search(ours, theirs, skips[0]).Some? {
        var i := Search(ours, theirs, skips[0]).value;
        SearchFinds(ours, theirs, skips[0]);
        OneRound(ours, theirs, i);
        SelectionFinishes(WithBit(ours, i), theirs, skips[1..]);
        var rest := Rounds(WithBit(ours, i), theirs, skips[1..]);
        PicksStep(Missing(ours, theirs), i, rest.picks, |skips| - 1);
        assert Rounds(ours, theirs, skips) == Selected(rest.bytes, [i] + rest.picks);
        hide Rounds, ToSet, Distinct, Missing, Members;
      }
    }
  }

  /** After as many rounds as pieces were missing, exactly those were picked, the two sides agree on
      the common bytes, and every further search fails. */
  lemma SelectionEndsEqual(ours: seq<bv8>, theirs: seq<bv8>, skips: seq<nat>, another: nat)
    requires Within(ours, theirs) && |skips| >= |Missing(ours, theirs)|
    ensures var r, n := Rounds(ours, theirs, skips), Common(ours, theirs);
            && ToSet(r.picks) == Missing(ours, theirs)
            && |r.picks| == |Missing(ours, theirs)|
            && |r.bytes| == |ours| && r.bytes[..n] == theirs[..n]
            && Search(r.bytes, theirs, another) == None
  {
    hide Has, Mask, Search, WithBit, Within, BitGet, Wanted, Rounds;
    SelectionFinishes(ours, theirs, skips);
    var r := Rounds(ours, theirs, skips);
    DistinctSize(r.picks);
    SubsetOfSameSize(ToSet(r.picks), Missing(ours, theirs));
    SearchCompleteWithin(r.bytes, theirs, another);
    EqualWhenNothingMissing(r.bytes, theirs);
  }

  lemma EqualWhenNothingMissing(ours: seq<bv8>, theirs: seq<bv8>)
    requires Within(ours, theirs) && Missing(ours, theirs) == {}
    ensures ours[..Common(ours, theirs)] == theirs[..Common(ours, theirs)]
  {
    SearchCompleteWithin(ours, theirs, 0);
    SearchFailsExactly(ours, theirs, 0);
    MismatchesComplete(ours, theirs, Common(ours, theirs));
    if Inspected(ours, theirs, 0).Some? {
      DifferenceShows(ours, theirs, Inspected(ours, theirs, 0).value);
    }
  }

  lemma {:induction false} DistinctSize(s: seq<nat>)
    requires Distinct(s)
    ensures |ToSet(s)| == |s|
  {
    if s == [] {
    } else {
      DistinctSize(s[1..]);
      assert ToSet(s) == {s[0]} + ToSet(s[1..]);
      assert s[0] !in s[1..];
    }
  }

  lemma SubsetOfSameSize(a: set<nat>, b: set<nat>)
    requires a <= b && |a| == |b|
    ensures a == b
  {
    assert b == a + (b - a);
  }

  // ------------------------------------------------------------ the shared bitfield

  /** What processes do to the shared bytes: each construction clears them, in whichever process it
      happens, and each piece handled by the parent sets a bit. */
  datatype Event = Constructed | Handled(index: nat)

  const SHARED_BYTES: nat := 2048

  function Cleared(): (bytes: seq<bv8>)
    ensures |bytes| == SHARED_BYTES && forall i :: 0 <= i < SHARED_BYTES ==> bytes[i] == 0
  {
    seq(SHARED_BYTES, i => 0)
  }

  function Happened(bytes: seq<bv8>, e: Event): seq<bv8> {
    match e
    case Constructed => Cleared()
    case Handled(i) => WithBit(bytes, i)
  }

  function AfterAll(events: seq<Event>): seq<bv8> {
    if events == [] then Cleared()
    else Happened(AfterAll(events[..|events| - 1]), events[|events| - 1])
  }

  /** The position behind the last construction. */
  function SinceConstruction(events: seq<Event>): (n: nat)
    ensures n <= |events|
    ensures n > 0 ==> events[n - 1].Constructed?
    ensures forall k :: n <= k < |events| ==> events[k].Handled?
  {
    if events == [] then 0
    else if events[|events| - 1].Constructed? then |events|
    else SinceConstruction(events[..|events| - 1])
  }

  /** Over any run, the shared bits are the indices in range that were handled since the last
      construction. */
  lemma {:induction false} SharedBitsAreHandledPieces(events: seq<Event>, i: nat)
    ensures |AfterAll(events)| == 2048
    ensures i in Members(AfterAll(events)) <==>
              i < 8 * 2048 && Handled(i) in events[SinceConstruction(events)..]
  {
    if events == [] || events[|events| - 1].Constructed? {
      ClearedHasNone(i);
    } else {
      var n := |events| - 1;
      var before := events[..n];
      SharedBitsAreHandledPieces(before, i);
      WithBitGet(AfterAll(before), events[n].index, i);
      var k := SinceConstruction(before);
      assert events[k..] == before[k..] + [events[n]];
    }
  }

  lemma ClearedHasNone(i: nat)
    ensures !BitGet(Cleared(), i)
  {
    if i / 8 < SHARED_BYTES {
      MaskCases(i % 8);
      assert Cleared()[i / 8] == 0;
    }
  }
}
