/** The parent process: taking a piece out of the FIFO, and marking it in the shared bitfield. */
module Multiproc {
  import opened Basics
  import opened Bits
  import opened DynamicBitset
  import opened PieceFile

  lemma Joined(file: seq<byte>, data: seq<byte>, rest: seq<byte>)
    ensures file + data + rest == file + (data + rest)
  {
  }

  /** Where the countdown stands after `n` bytes.  `greedy` says that every read takes all it can. */
  predicate Counting(payloadSize: nat, queued: nat, capacity: nat, greedy: bool, n: nat, left: int) {
    && n <= queued && left == ToInt32(payloadSize - n)
    && (payloadSize < TWO_TO_THE_31 && capacity <= TWO_TO_THE_31 ==> n < payloadSize + capacity)
    && (greedy ==> GreedyReads(ToInt32(payloadSize), queued, capacity)
                   == match GreedyReads(left, queued - n, capacity)
                      case None => None
                      case Some(more) => Some(n + more))
  }

  lemma CountingStarts(payloadSize: nat, queued: nat, capacity: nat, greedy: bool)
    requires capacity > 0
    ensures Counting(payloadSize, queued, capacity, greedy, 0, ToInt32(payloadSize))
  {
  }

  lemma CountingGoesOn(payloadSize: nat, queued: nat, capacity: nat, greedy: bool, n: nat, left: int, read: nat)
    requires Counting(payloadSize, queued, capacity, greedy, n, left) && left > 0 && n < queued
    requires 0 < read <= queued - n && read <= capacity && (greedy ==> read == Min(queued - n, capacity))
    ensures Counting(payloadSize, queued, capacity, greedy, n + read, ToInt32(left - read))
  {
    CutAgain(payloadSize - n, read);
    hide ToInt32;
  }

  /** The countdown does not end before as many bytes are read as it began with. */
  lemma NotYet(payloadSize: nat, n: nat)
    ensures n < ToInt32(payloadSize) ==> ToInt32(payloadSize - n) > 0
  {
    CutAgain(payloadSize, n);
  }

  lemma CountingEnds(payloadSize: nat, queued: nat, capacity: nat, greedy: bool, n: nat, left: int)
    requires Counting(payloadSize, queued, capacity, greedy, n, left) && (left <= 0 || n == queued)
    ensures left == ToInt32(payloadSize - n) && (left <= 0 ==> n >= ToInt32(payloadSize))
    ensures payloadSize < TWO_TO_THE_31 && capacity <= TWO_TO_THE_31 ==>
              (left <= 0 <==> payloadSize <= queued) && n < payloadSize + capacity
    ensures greedy ==> GreedyReads(ToInt32(payloadSize), queued, capacity) == if left <= 0 then Some(n) else None
  {
    NotYet(payloadSize, n);
  }

  class Multiproc {
    var fifo: seq<byte>
    var capacity: nat
    const bitfieldPieces: DynamicBitset

    constructor (bits: DynamicBitset)
      ensures fifo == [] && capacity == 1024 && bitfieldPieces == bits
    {
      fifo, capacity, bitfieldPieces := [], 1024, bits;
    }

    /** What `start` does before its loop. */
    method Start()
      modifies this`capacity
      ensures capacity == Max(old(capacity), 65536)
    {
      if CAPACITY > capacity {
        capacity := CAPACITY;
      }
    }

    /** One read of the channel, of up to a whole buffer. */
    method Read(wish: nat) returns (data: seq<byte>)
      requires fifo != [] && capacity > 0
      modifies this`fifo
      ensures data + fifo == old(fifo) && data != [] && |data| <= capacity
      ensures wish >= |old(fifo)| ==> |data| == Min(|old(fifo)|, capacity)
    {
      var readSize := ReadSize(|fifo|, capacity, wish);
      data := fifo[..readSize];
      fifo := fifo[readSize..];
    }

    /** The read loop.  Reads take up to a whole buffer, not up to the bytes of the piece that are left.
        `wishes` says how much each read would take; a read takes less only if the buffer or the FIFO
        ends before.  If the FIFO runs dry, the read waits, and the loop is not done. */
    method ReadPiece(payloadSize: nat, wishes: nat -> nat) returns (file: seq<byte>, done: bool)
      requires 0 < capacity && payloadSize <= capacity
      modifies this`fifo
      ensures file + fifo == old(fifo)
      ensures if done then ToInt32(payloadSize - |file|) <= 0 else fifo == [] && ToInt32(payloadSize - |file|) > 0
      ensures done ==> |file| >= ToInt32(payloadSize)
      ensures payloadSize < TWO_TO_THE_31 && capacity <= TWO_TO_THE_31 ==>
                && done == (payloadSize <= |old(fifo)|)
                && (done && payloadSize > 0 ==> |file| < payloadSize + capacity)
      ensures (forall k :: wishes(k) >= |old(fifo)|) ==>
                GreedyReads(ToInt32(payloadSize), |old(fifo)|, capacity) == if done then Some(|file|) else None
    {
      ghost var queued, greedy := |fifo|, forall k :: wishes(k) >= |fifo|;
      hide ToInt32, GreedyReads;
      CountingStarts(payloadSize, queued, capacity, greedy);
      file := [];
      var receiveLeft := ToInt32(payloadSize);
      var k := 0;
      hide Counting;
      while receiveLeft > 0 && fifo != []
        invariant file + fifo == old(fifo)
        invariant Counting(payloadSize, queued, capacity, greedy, |file|, receiveLeft)
        decreases |fifo|
      {
        assert greedy ==> wishes(k) >= |old(fifo)|;
        var data := Read(wishes(k));
        CountingGoesOn(payloadSize, queued, capacity, greedy, |file|, receiveLeft, |data|);
        Joined(file, data, fifo);
        file := file + data;
        receiveLeft := ToInt32(receiveLeft - |data|);
        k := k + 1;
      }
      CountingEnds(payloadSize, queued, capacity, greedy, |file|, receiveLeft);
      done := receiveLeft <= 0;
    }

    /** `handle_downloaded_piece`, which runs with the semaphore held, so that nobody writes meanwhile.
        That the data of the frame is in the FIFO then is `BoundedChannel.DataIsQueued`. */
    method HandleDownloadedPiece(payloadSize: nat, index: nat, wishes: nat -> nat)
      returns (file: seq<byte>, done: bool)
      requires bitfieldPieces.Valid() && capacity > 0
      modifies this, bitfieldPieces.Data()
      ensures bitfieldPieces.Valid()
      ensures file + fifo == old(fifo) && (!done ==> fifo == [])
      ensures done ==> |file| >= ToInt32(payloadSize)
      ensures payloadSize < TWO_TO_THE_31 && capacity <= TWO_TO_THE_31 ==>
                && done == (payloadSize <= |old(fifo)|)
                && (done && payloadSize > 0 ==> |file| < payloadSize + capacity)
      ensures (forall k :: wishes(k) >= |old(fifo)|) ==>
                && FileSize(payloadSize, |old(fifo)|, old(capacity)) == (if done then Some(|file|) else None)
                && (payloadSize <= |old(fifo)| ==>
                      (done && file == old(fifo)[..payloadSize] <==> Exact(payloadSize, |old(fifo)|, old(capacity))))
      ensures capacity == Max(old(capacity), payloadSize)
      ensures Members(bitfieldPieces.Contents())
           == old(Members(bitfieldPieces.Contents()))
              + if done && index < 8 * |bitfieldPieces.Contents()| then {index} else {}
    {
      if payloadSize <= |fifo| {
        FileIsPieceExactly(payloadSize, |fifo|, capacity);
      }
      ghost var size := FileSize(payloadSize, |fifo|, capacity);
      if payloadSize > capacity {
        capacity := payloadSize;
      }
      assert size == GreedyReads(ToInt32(payloadSize), |fifo|, capacity);
      hide FileSize, Exact, Members, ToInt32, GreedyReads;
      file, done := ReadPiece(payloadSize, wishes);
      assert file == old(fifo)[..|file|];
      if done {
        var inside := bitfieldPieces.BitSet(index);
      }
    }
  }
}
