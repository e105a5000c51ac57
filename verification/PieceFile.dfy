/** How much of the FIFO the parent puts into the file of a piece. */
module PieceFile {
  import opened Basics

  /** The size of the parent's buffer at the start. */
  const CAPACITY: nat := 65536

  /** The `int` that the low 32 bits of an integer are. */
  function ToInt32(n: int): (r: int)
    ensures -TWO_TO_THE_31 <= r < TWO_TO_THE_31
    ensures -TWO_TO_THE_31 <= n < TWO_TO_THE_31 ==> r == n
    ensures (r - n) % TWO_TO_THE_32 == 0
  {
    var r := n % TWO_TO_THE_32;
    if r < TWO_TO_THE_31 then r else r - TWO_TO_THE_32
  }

  const TWO_TO_THE_31: int := 0x8000_0000

  /** Every subtraction from the countdown is cut to 32 bits; all of them together are one. */
  lemma CutAgain(n: int, k: int)
    ensures ToInt32(ToInt32(n) - k) == ToInt32(n - k)
  {
  }

  /** How many bytes a read of the FIFO returns: at least one, no more than the buffer holds or the
      FIFO has, and otherwise `wish`. */
  function ReadSize(available: nat, capacity: nat, wish: nat): (n: nat)
    requires available > 0 && capacity > 0
    ensures 0 < n <= available && n <= capacity
    ensures wish >= available ==> n == Min(available, capacity)
  {
    var most := if available <= capacity then available else capacity;
    if wish == 0 then 1 else if wish <= most then wish else most
  }

  function Max(a: nat, b: nat): nat {
    if a <= b then b else a
  }

  function Min(a: nat, b: nat): nat {
    if a <= b then a else b
  }

  /** What the file gets when reads take as much as they can, for a countdown of `left`; nothing if the
      FIFO runs dry first, so that the parent waits with the semaphore in its hands. */
  function GreedyReads(left: int, available: nat, capacity: nat): (r: Option<nat>)
    ensures r.Some? ==> r.value <= available
    decreases available
  {
    if left <= 0 then Some(0)
    else if available == 0 || capacity == 0 then None
    else
      var n := Min(available, capacity);
      match GreedyReads(ToInt32(left - n), available - n, capacity)
      case None => None
      case Some(m) => Some(n + m)
  }

  /** What the file of a piece of that size gets.  The size counts in a signed 32-bit integer. */
  function FileSize(payloadSize: nat, available: nat, capacity: nat): (r: Option<nat>)
    ensures r.Some? ==> r.value <= available
  {
    GreedyReads(ToInt32(payloadSize), available, Max(capacity, payloadSize))
  }

  /** The file gets the bytes of the piece and no others: the size counts as positive, and nothing else
      is queued, or the buffer was no larger than the piece. */
  predicate Exact(payloadSize: nat, available: nat, capacity: nat) {
    payloadSize == 0 || (ToInt32(payloadSize) > 0 && (available == payloadSize || capacity <= payloadSize))
  }

  lemma FileIsPieceExactly(payloadSize: nat, available: nat, capacity: nat)
    requires payloadSize <= available
    ensures FileSize(payloadSize, available, capacity) == Some(payloadSize) <==> Exact(payloadSize, available, capacity)
  {
    var left, c := ToInt32(payloadSize), Max(capacity, payloadSize);
    if left > 0 {
      var n := Min(available, c);
      var rest := GreedyReads(ToInt32(left - n), available - n, c);
      CutAgain(payloadSize, n);
      assert GreedyReads(left, available, c) == if rest.None? then None else Some(n + rest.value);
      assert n == payloadSize ==> rest == Some(0);
    }
  }

  /** While a buffer and the FIFO hold no more than 2^31 bytes, one read does for a piece. */
  lemma OneReadDoes(payloadSize: nat, available: nat, capacity: nat)
    requires 0 < payloadSize <= available && payloadSize < TWO_TO_THE_31
    requires available <= TWO_TO_THE_31 || Max(capacity, payloadSize) <= TWO_TO_THE_31
    ensures FileSize(payloadSize, available, capacity) == Some(Min(available, Max(capacity, payloadSize)))
  {
    var n := Min(available, Max(capacity, payloadSize));
    assert GreedyReads(ToInt32(payloadSize - n), available - n, Max(capacity, payloadSize)) == Some(0);
  }

  /** Having read at least what was left, the parent stops exactly if it read no more than 2^31 bytes
      beyond, up to multiples of 2^32. */
  lemma StopsExactly(left: nat, n: nat)
    requires 0 < left <= n && left < TWO_TO_THE_31
    ensures ToInt32(left - n) <= 0 <==> (n - left) % TWO_TO_THE_32 <= TWO_TO_THE_31
  {
    var d, m := n - left, TWO_TO_THE_32;
    if d % m == 0 {
      assert -d == m * -(d / m) + 0;
      Remainder(-d, m, -(d / m), 0);
    } else {
      assert -d == m * (-(d / m) - 1) + (m - d % m);
      Remainder(-d, m, -(d / m) - 1, m - d % m);
    }
  }

  lemma Remainder(x: int, m: nat, q: int, r: nat)
    requires m > 0 && x == m * q + r && r < m
    ensures x % m == r
  {
    var d := x / m - q;
    assert m * d == r - x % m;
    SmallMultiple(d, m);
  }

  lemma SmallMultiple(d: int, n: int)
    requires -n < n * d < n
    ensures d == 0
  {
  }

  /** With one byte left and a buffer of 2^31 + 2 bytes, a full read empties the FIFO, and the parent
      waits for more. */
  lemma CountdownWraps()
    ensures var b: nat := TWO_TO_THE_31 + 2;
            ToInt32(1 - b) == TWO_TO_THE_31 - 1 && GreedyReads(1, b, b) == None
  {
    var b: nat := TWO_TO_THE_31 + 2;
    assert GreedyReads(ToInt32(1 - b), b - b, b) == None;
  }
}
