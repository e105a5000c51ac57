/** A TCP connection as its receiver sees it: the bytes still to come, cut into segments at
    arbitrary places, of which one receive takes from the first only. */
module Stream {
  import opened Basics

  type Segments = seq<seq<byte>>

  predicate NoEmpty(segs: Segments) {
    forall i :: 0 <= i < |segs| ==> segs[i] != []
  }

  /** The segments without their first `n` bytes. */
  function Skip(segs: Segments, n: nat): (r: Segments)
    requires NoEmpty(segs) && n <= |Concat(segs)|
    ensures NoEmpty(r) && Concat(r) == Concat(segs)[n..]
    decreases segs
  {
    if n == 0 then segs
    else if n < |segs[0]| then [segs[0][n..]] + segs[1..]
    else Skip(segs[1..], n - |segs[0]|)
  }

  lemma {:induction false} SkipSkip(segs: Segments, m: nat, n: nat)
    requires NoEmpty(segs) && m + n <= |Concat(segs)|
    ensures Skip(Skip(segs, m), n) == Skip(segs, m + n)
    decreases segs
  {
    if m > 0 && m >= |segs[0]| {
      SkipSkip(segs[1..], m - |segs[0]|, n);
    } else if m > 0 {
      var head, rest := segs[0][m..], segs[1..];
      assert ([head] + rest)[1..] == rest;
      if n > 0 && n < |head| {
        assert head[n..] == segs[0][m + n..];
        assert [head[n..]] + rest == [segs[0][m + n..]] + rest;
      }
    }
  }

  /** How many bytes one receive of up to `n` bytes takes. */
  function Taken(segs: Segments, n: nat): (k: nat)
    requires NoEmpty(segs)
    ensures k <= n && k <= |Concat(segs)| && (n > 0 && segs != [] ==> k > 0)
  {
    if segs == [] then 0 else if n <= |segs[0]| then n else |segs[0]|
  }

  lemma TakenBytes(segs: Segments, n: nat)
    requires NoEmpty(segs) && segs != []
    ensures segs[0][..Taken(segs, n)] == Concat(segs)[..Taken(segs, n)]
  {
  }

  /** The first `n` bytes stand in the first segment, so that one receive takes them all. */
  predicate Whole(segs: Segments, n: nat) {
    segs != [] && n <= |segs[0]|
  }

  class Tcp {
    const closed: bool
    var segments: Segments
    var sent: seq<seq<byte>>

    ghost predicate Valid()
      reads this
    {
      NoEmpty(segments)
    }

    /** `ends` tells whether the peer closes the connection behind its last byte; otherwise the
        connection breaks there. */
    constructor (arriving: Segments, ends: bool)
      requires NoEmpty(arriving)
      ensures Valid() && segments == arriving && closed == ends && sent == []
    {
      segments, closed, sent := arriving, ends, [];
    }

    /** Receives at least one and at most `n` bytes.  When none are left, a receive on a closed
        connection reports zero bytes, again and again, and on a broken one an error. */
    method Receive(n: nat) returns (r: Option<seq<byte>>)
      requires Valid()
      modifies this`segments
      ensures Valid()
      ensures n == 0 ==> r == Some([]) && segments == old(segments)
      ensures n > 0 && old(segments) == [] && !closed ==> r == None && segments == []
      ensures n > 0 && (old(segments) != [] || closed) ==>
                var k := Taken(old(segments), n);
                r == Some(Concat(old(segments))[..k]) && segments == Skip(old(segments), k)
    {
      if n == 0 {
        return Some([]);
      }
      if segments == [] {
        return if closed then Some([]) else None;
      }
      var k := Taken(segments, n);
      TakenBytes(segments, n);
      r := Some(segments[0][..k]);
      segments := Skip(segments, k);
    }

    method Send(packet: seq<byte>)
      modifies this`sent
      ensures sent == old(sent) + [packet]
    {
      sent := sent + [packet];
    }
  }

  /** What a structure of `n` bytes holds after one receive: the bytes taken, over those there before. */
  function Overlay(bs: seq<byte>, before: seq<byte>): (r: seq<byte>)
    ensures |r| == |before|
    ensures |bs| >= |before| ==> r == bs[..|before|]
    ensures |bs| <= |before| ==> r[..|bs|] == bs && r[|bs|..] == before[|bs|..]
  {
    if |bs| >= |before| then bs[..|before|] else bs + before[|bs|..]
  }

  /** A single receive leaves the stream behind a structure of `n` bytes exactly if the structure
      arrived whole. */
  lemma FixedReadExactly(segs: Segments, n: nat)
    requires NoEmpty(segs) && segs != [] && n <= |Concat(segs)|
    ensures Concat(Skip(segs, Taken(segs, n))) == Concat(segs)[n..] <==> Whole(segs, n)
    ensures Whole(segs, n) ==> Taken(segs, n) == n
  {
    var k := Taken(segs, n);
    assert |Concat(segs)[k..]| == |Concat(segs)| - k;
    assert |Concat(segs)[n..]| == |Concat(segs)| - n;
  }
}
