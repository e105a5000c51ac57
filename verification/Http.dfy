/** The receive loop of an HTTP request and the removal of the response header. */
module Http {
  import opened Basics

  /** What one receive reports: bytes, the end of the stream, or an error. */
  datatype Receipt = Chunk(bytes: seq<byte>) | End | Error

  const CHUNK_SIZE: nat := 1024

  /** How many of the reports are chunks before the first one that ends the loop. */
  function ChunkRun(receipts: seq<Receipt>): (n: nat)
    ensures n <= |receipts|
    ensures forall i :: 0 <= i < n ==> receipts[i].Chunk? && receipts[i].bytes != []
    ensures n < |receipts| ==> !receipts[n].Chunk? || receipts[n].bytes == []
  {
    if receipts == [] || !receipts[0].Chunk? || receipts[0].bytes == [] then 0
    else 1 + ChunkRun(receipts[1..])
  }

  function Payload(receipts: seq<Receipt>): seq<byte>
    requires forall r :: r in receipts ==> r.Chunk?
  {
    if receipts == [] then [] else
      assert receipts[0] in receipts;
      receipts[0].bytes + Payload(receipts[1..])
  }

  lemma {:induction false} PayloadMore(receipts: seq<Receipt>, r: Receipt)
    requires (forall x :: x in receipts ==> x.Chunk?) && r.Chunk?
    ensures Payload(receipts + [r]) == Payload(receipts) + r.bytes
  {
    if receipts == [] {
      assert [] + [r] == [r] && [r][1..] == [];
    } else {
      assert (receipts + [r])[1..] == receipts[1..] + [r];
      assert forall x :: x in receipts[1..] ==> x in receipts;
      PayloadMore(receipts[1..], r);
      assert (receipts + [r])[0] == receipts[0];
    }
  }

  /** A line break at `i` that ends an empty line: only carriage returns since the line break before. */
  ghost predicate EndsBlankLine(data: seq<byte>, i: nat) {
    i < |data| && data[i] == 10 && AfterLineBreak(data, i)
  }

  ghost predicate AfterLineBreak(data: seq<byte>, i: int) {
    exists j :: LineBreakThenReturns(data, j, i)
  }

  lemma AfterLineBreakStep(data: seq<byte>, i: nat)
    requires i < |data|
    ensures AfterLineBreak(data, i + 1) <==> data[i] == 10 || (data[i] == 13 && AfterLineBreak(data, i))
  {
    if data[i] == 10 {
      assert LineBreakThenReturns(data, i, i + 1);
    } else if data[i] == 13 && AfterLineBreak(data, i) {
      var j :| LineBreakThenReturns(data, j, i);
      assert LineBreakThenReturns(data, j, i + 1);
    }
    if AfterLineBreak(data, i + 1) && data[i] != 10 {
      var j :| LineBreakThenReturns(data, j, i + 1);
      assert data[i] == 13 && LineBreakThenReturns(data, j, i);
    }
  }

  predicate LineBreakThenReturns(data: seq<byte>, j: int, i: int) {
    0 <= j < i <= |data| && data[j] == 10 && forall m :: j < m < i ==> data[m] == 13
  }

  ghost predicate FirstBlankLine(data: seq<byte>, i: nat) {
    EndsBlankLine(data, i) && forall k :: 0 <= k < i ==> !EndsBlankLine(data, k)
  }

  lemma PayloadNext(receipts: seq<Receipt>, k: nat)
    requires k < |receipts| && forall i :: 0 <= i <= k ==> receipts[i].Chunk?
    ensures Payload(receipts[..k + 1]) == Payload(receipts[..k]) + receipts[k].bytes
  {
    assert receipts[..k + 1] == receipts[..k] + [receipts[k]];
    PayloadMore(receipts[..k], receipts[k]);
  }

  /** The bytes received, and behind them what the buffer held there at the start of the loop. */
  predicate Holds(data: seq<byte>, received: seq<byte>, room: seq<byte>) {
    && |data| == |room| + |received|
    && data[..|received|] == received && data[|received|..] == Resized(room, |data|)[|received|..]
  }

  lemma NothingReceived(room: seq<byte>)
    ensures Holds(room, [], room) && Payload([]) == []
  {
    assert Resized(room, |room|) == room;
  }

  lemma HoldsSays(data: seq<byte>, received: seq<byte>, room: seq<byte>)
    requires Holds(data, received, room)
    ensures |data| == |room| + |received|
    ensures data[..|received|] == received && data[|received|..] == Resized(room, |data|)[|received|..]
  {
  }

  /** A chunk stored behind the bytes received, and the room made as large again. */
  lemma ChunkStored(data: seq<byte>, received: seq<byte>, bytes: seq<byte>, room: seq<byte>)
    requires Holds(data, received, room) && |bytes| <= |room|
    ensures |received| + |bytes| <= |data|
    ensures Holds(Resized(Written(data, |received|, bytes), |data| + |bytes|), received + bytes, room)
  {
    var n := |received|;
    forall i | n <= i < |data|
      ensures data[i] == if i < |room| then room[i] else 0
    {
      assert data[i] == data[n..][i - n] == Resized(room, |data|)[n..][i - n];
    }
    var m, stored := n + |bytes|, Written(data, n, bytes);
    var grown := Resized(stored, |data| + |bytes|);
    assert grown[..m] == received + bytes;
    forall i | m <= i < |grown|
      ensures grown[i] == Resized(room, |grown|)[i]
    {
      assert i < |data| ==> stored[i] == data[i];
    }
    assert grown[m..] == Resized(room, |grown|)[m..];
  }

  class Http {
    var data: seq<byte>

    constructor ()
      ensures data == []
    {
      data := [];
    }

    /** The receive loop.  Each call may store up to 1024 bytes behind those received so far, and
        the buffer always has room for them.  An error on a plain connection throws. */
    method Receive(receipts: seq<Receipt>, secure: bool) returns (r: Outcome<()>)
      requires forall x :: x in receipts && x.Chunk? ==> |x.bytes| <= CHUNK_SIZE
      modifies this
      ensures var n := ChunkRun(receipts);
              && (r.Fails? <==> n < |receipts| && receipts[n].Error? && !secure)
              && (r.Fails? ==> r.fault == BadAccess)
              && var received := Payload(receipts[..n]);
                 && |data| == CHUNK_SIZE + |received|
                 && data[..|received|] == received
                 && data[|received|..] == Resized(Resized(old(data), CHUNK_SIZE), |data|)[|received|..]
    {
      hide Holds, Resized, Payload, ChunkRun, Written;
      NothingReceived(Resized(data, CHUNK_SIZE));
      data := Resized(data, CHUNK_SIZE);
      ghost var room, received := data, [];
      assert receipts[..0] == [];
      var readOffset := 0;
      var k := 0;
      while k < |receipts|
        invariant 0 <= k <= ChunkRun(receipts)
        invariant received == Payload(receipts[..k]) && readOffset == |received|
        invariant Holds(data, received, room)
      {
        var receipt := receipts[k];
        if receipt.Error? && !secure {
          HoldsSays(data, received, room);
          return Fails(BadAccess);
        }
        var bytes := if receipt.Chunk? then receipt.bytes else [];
        if |bytes| == 0 {
          break;
        }
        PayloadNext(receipts, k);
        ChunkStored(data, received, bytes, room);
        data := Written(data, readOffset, bytes);
        readOffset := readOffset + |bytes|;
        data := Resized(data, |data| + |bytes|);
        received := received + bytes;
        k := k + 1;
      }
      HoldsSays(data, received, room);
      return Ok(());
    }

    /** Removes everything up to and including the first empty line, if there is one. */
    method StripHeader()
      modifies this
      ensures forall i :: FirstBlankLine(old(data), i) ==> data == old(data)[i + 1..]
      ensures (forall i :: !EndsBlankLine(old(data), i)) ==> data == old(data)
    {
      ghost var all := data;
      var headerEnd := 2;
      var i := 0;
      while i < |data|
        invariant 0 <= i <= |data| && data == all
        invariant headerEnd == 1 || headerEnd == 2
        invariant headerEnd == 1 <==> AfterLineBreak(all, i)
        invariant forall k :: 0 <= k < i ==> !EndsBlankLine(all, k)
      {
        AfterLineBreakStep(all, i);
        if data[i] == 10 {
          headerEnd := headerEnd - 1;
        } else if data[i] != 13 {
          headerEnd := 2;
        }

        if headerEnd == 0 {
          assert FirstBlankLine(all, i);
          data := data[i..];
          if data != [] {
            data := data[1..];
          }
          assert data == all[i + 1..];
          return;
        }
        i := i + 1;
      }
    }

    /** The data of a response, after sending the request succeeded. */
    method GetRequest(receipts: seq<Receipt>, secure: bool) returns (r: Outcome<seq<byte>>)
      requires forall x :: x in receipts && x.Chunk? ==> |x.bytes| <= CHUNK_SIZE
      modifies this
      ensures r.Fails? <==> ChunkRun(receipts) < |receipts| && receipts[ChunkRun(receipts)].Error? && !secure
      ensures r.Fails? ==> r.fault == BadAccess
      ensures r.Ok? ==> r.value == data
      ensures r.Ok? && old(data) == [] ==>
                var buffer := Payload(receipts[..ChunkRun(receipts)]) + Zeros(1024);
                && (forall i :: FirstBlankLine(buffer, i) ==> r.value == buffer[i + 1..])
                && ((forall i :: !EndsBlankLine(buffer, i)) ==> r.value == buffer)
    {
      var received := Receive(receipts, secure);
      if received.Fails? {
        return Fails(received.fault);
      }
      ghost var payload := Payload(receipts[..ChunkRun(receipts)]);
      assert data == data[..|payload|] + data[|payload|..];
      assert old(data) == [] ==> data[|payload|..] == Zeros(CHUNK_SIZE);
      StripHeader();
      return Ok(data);
    }
  }

  // ------------------------------------------------------------ well-formed responses

  /** A header line: no line break inside, and something other than carriage returns. */
  predicate HeaderLine(line: seq<byte>) {
    (forall i :: 0 <= i < |line| ==> line[i] != 10) && exists i :: 0 <= i < |line| && line[i] != 13
  }

  const CRLF: seq<byte> := [13, 10]

  /** The header lines, each ended by CR LF (section 2.1 of RFC 9112). */
  function Head(lines: seq<seq<byte>>): seq<byte> {
    if lines == [] then [] else Head(lines[..|lines| - 1]) + (lines[|lines| - 1] + CRLF)
  }

  lemma BlankLineInPrefix(a: seq<byte>, b: seq<byte>, k: nat)
    requires k < |a|
    ensures EndsBlankLine(a + b, k) ==> EndsBlankLine(a, k)
  {
    if EndsBlankLine(a + b, k) {
      var j :| LineBreakThenReturns(a + b, j, k);
      assert forall m :: j < m < k ==> a[m] == (a + b)[m];
      assert LineBreakThenReturns(a, j, k);
    }
  }

  lemma {:induction false} HeadHasNoBlankLine(lines: seq<seq<byte>>)
    requires forall i :: 0 <= i < |lines| ==> HeaderLine(lines[i])
    ensures forall k :: 0 <= k < |Head(lines)| ==> !EndsBlankLine(Head(lines), k)
    ensures lines != [] ==> |Head(lines)| > 0 && Head(lines)[|Head(lines)| - 1] == 10
  {
    if lines == [] {
    } else {
      var n := |lines| - 1;
      HeadHasNoBlankLine(lines[..n]);
      var h, l, all := Head(lines[..n]), lines[n], Head(lines);
      assert all == h + (l + CRLF);
      var p :| 0 <= p < |l| && l[p] != 13;
      assert all[|h| + p] == l[p];
      assert forall m :: |h| <= m < |all| - 1 ==> all[m] != 10;
      forall k | 0 <= k < |all|
        ensures !EndsBlankLine(all, k)
      {
        if k < |h| {
          BlankLineInPrefix(h, l + CRLF, k);
        } else {
          assert forall j :: LineBreakThenReturns(all, j, k) && k == |all| - 1 ==> j < |h| + p < k;
        }
      }
    }
  }

  /** In a well-formed response, whatever follows the header, the first empty line is the one that
      ends the header. */
  lemma BlankLineOfResponse(lines: seq<seq<byte>>, rest: seq<byte>)
    requires lines != [] && forall i :: 0 <= i < |lines| ==> HeaderLine(lines[i])
    ensures FirstBlankLine(Head(lines) + CRLF + rest, |Head(lines)| + 1)
    ensures (Head(lines) + CRLF + rest)[|Head(lines)| + 2..] == rest
  {
    var h, all := Head(lines), Head(lines) + CRLF + rest;
    HeadHasNoBlankLine(lines);
    assert LineBreakThenReturns(all, |h| - 1, |h| + 1);
    forall k | 0 <= k < |h| + 1
      ensures !EndsBlankLine(all, k)
    {
      if k < |h| {
        assert all == h + (CRLF + rest);
        BlankLineInPrefix(h, CRLF + rest, k);
      }
    }
  }
}
