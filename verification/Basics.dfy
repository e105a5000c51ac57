/** Shared vocabulary: bytes as the wire carries them, and the ways a call of the C++ code can end. */
module Basics {

  type byte = x: int | 0 <= x < 256

  /** Four bytes of memory. */
  type Word = bs: seq<byte> | |bs| == 4 witness [0, 0, 0, 0]

  const TWO_TO_THE_32: int := 0x1_0000_0000
  const TWO_TO_THE_63: int := 0x8000_0000_0000_0000
  const TWO_TO_THE_64: int := 0x1_0000_0000_0000_0000

  datatype Option<+T> = None | Some(value: T)

  /** Why a call does not return: the two exceptions of `std::stol`, the exception of
      `at()`, a failed `assert`, the exception of `std::expected::value()`, the exception of a
      vector asked to grow beyond its greatest size, a loop that never ends, and a call whose
      behaviour the language leaves undefined. */
  datatype Fault =
    | InvalidArgument
    | OutOfRange
    | AssertionFailed
    | BadAccess
    | LengthError
    | Endless
    | Undefined

  /** What a call returns, or the fault that ends it. */
  datatype Outcome<+T> = Ok(value: T) | Fails(fault: Fault) {
    predicate IsFailure() {
      Fails?
    }

    function PropagateFailure<U>(): Outcome<U>
      requires Fails?
    {
      Fails(fault)
    }

    function Extract(): T
      requires Ok?
    {
      value
    }
  }

  function Pow2(n: nat): (p: nat)
    ensures p > 0
  {
    if n == 0 then 1 else 2 * Pow2(n - 1)
  }

  lemma EightMore(n: nat)
    ensures Pow2(n + 8) == 256 * Pow2(n)
  {
    assert Pow2(n + 1) == 2 * Pow2(n) && Pow2(n + 2) == 2 * Pow2(n + 1) && Pow2(n + 3) == 2 * Pow2(n + 2);
    assert Pow2(n + 4) == 2 * Pow2(n + 3) && Pow2(n + 5) == 2 * Pow2(n + 4) && Pow2(n + 6) == 2 * Pow2(n + 5);
    assert Pow2(n + 7) == 2 * Pow2(n + 6);
  }

  /** The widths of the integers are as their names say. */
  lemma Widths()
    ensures TWO_TO_THE_32 == Pow2(32) && TWO_TO_THE_63 == Pow2(63) && TWO_TO_THE_64 == Pow2(64)
  {
    EightMore(0);
    EightMore(8);
    EightMore(16);
    EightMore(24);
    EightMore(32);
    EightMore(40);
    EightMore(48);
    EightMore(56);
    assert Pow2(64) == 2 * Pow2(63);
  }

  /** `n` zero bytes. */
  function Zeros(n: nat): (zs: seq<byte>)
    ensures |zs| == n && forall i :: 0 <= i < n ==> zs[i] == 0
  {
    seq(n, i => 0)
  }

  /** `vector::resize`: the elements of a vector of bytes with a new size. */
  function Resized(data: seq<byte>, size: nat): (r: seq<byte>)
    ensures |r| == size
    ensures forall i :: 0 <= i < size ==> r[i] == if i < |data| then data[i] else 0
  {
    if size <= |data| then data[..size] else data + Zeros(size - |data|)
  }

  /** A buffer with a chunk stored at an offset. */
  function Written(data: seq<byte>, at: nat, chunk: seq<byte>): (r: seq<byte>)
    requires at + |chunk| <= |data|
    ensures |r| == |data|
    ensures r[..at] == data[..at] && r[at..at + |chunk|] == chunk && r[at + |chunk|..] == data[at + |chunk|..]
  {
    data[..at] + chunk + data[at + |chunk|..]
  }

  /** The bytes of all chunks, in order. */
  function Concat(chunks: seq<seq<byte>>): seq<byte> {
    if chunks == [] then [] else chunks[0] + Concat(chunks[1..])
  }

  /** The bytes of an ASCII text. */
  function Ascii(text: string): (bs: seq<byte>)
    requires forall i :: 0 <= i < |text| ==> text[i] < 128 as char
    ensures |bs| == |text| && forall i :: 0 <= i < |text| ==> bs[i] == text[i] as int
  {
    if text == "" then [] else [text[0] as int] + Ascii(text[1..])
  }
}
