/** Decimal numbers as bencode writes them, and `std::stol` as the parser reads them. */
module Decimal {
  import opened Basics

  predicate IsDigit(c: byte) {
    48 <= c <= 57
  }

  predicate AllDigits(s: seq<byte>) {
    forall i :: 0 <= i < |s| ==> IsDigit(s[i])
  }

  /** The decimal digits of a natural number, most significant first and without leading zeros. */
  function Digits(n: nat): (ds: seq<byte>)
    ensures |ds| > 0 && AllDigits(ds)
  {
    if n < 10 then [48 + n] else Digits(n / 10) + [48 + n % 10]
  }

  /** `-` for a negative number, then the digits of its magnitude. */
  function IntText(n: int): (ds: seq<byte>)
    ensures |ds| > 0
    ensures forall i :: 0 <= i < |ds| ==> IsDigit(ds[i]) || ds[i] == 45
  {
    if n < 0 then [45] + Digits(-n) else Digits(n)
  }

  /** The number a string of digits denotes. */
  function NatOf(ds: seq<byte>): nat
    requires AllDigits(ds)
  {
    if ds == [] then 0 else 10 * NatOf(ds[..|ds| - 1]) + (ds[|ds| - 1] - 48)
  }

  /** Length of the longest prefix that consists of digits. */
  function DigitRun(s: seq<byte>): (n: nat)
    ensures n <= |s| && AllDigits(s[..n])
    ensures n < |s| ==> !IsDigit(s[n])
  {
    if s == [] || !IsDigit(s[0]) then 0 else
      assert forall i :: 0 < i <= DigitRun(s[1..]) ==> s[i] == s[1..][..DigitRun(s[1..])][i - 1];
      1 + DigitRun(s[1..])
  }

  predicate IsInt64(n: int) {
    -TWO_TO_THE_63 <= n < TWO_TO_THE_63
  }

  /** `std::stol` in base ten on the strings the parser accumulates: digits and `-` only, so
      neither leading blanks nor `+` can occur.  What follows the first run of digits is ignored. */
  function Stol(s: seq<byte>): (r: Outcome<int>)
    ensures r.Ok? ==> IsInt64(r.value)
  {
    var negative := s != [] && s[0] == 45;
    var body := if negative then s[1..] else s;
    var n := DigitRun(body);
    if n == 0 then Fails(InvalidArgument) else
      var magnitude: int := NatOf(body[..n]);
      var value := if negative then -magnitude else magnitude;
      if IsInt64(value) then Ok(value) else Fails(OutOfRange)
  }

  /** An integer converted to `size_t`: reduced modulo 2^64. */
  function ToSizeT(n: int): (r: nat)
    ensures r < TWO_TO_THE_64 && (r - n) % TWO_TO_THE_64 == 0
  {
    if 0 <= n < TWO_TO_THE_64 then n else n % TWO_TO_THE_64
  }

  function Pow10(n: nat): (p: nat)
    ensures p > 0
  {
    if n == 0 then 1 else 10 * Pow10(n - 1)
  }

  lemma Tenth(n: nat, p: nat)
    requires p > 0
    ensures n / 10 / p == n / (10 * p)
  {
    var q, r := n / 10 / p, n / 10 % p;
    assert n / 10 == p * q + r;
    assert n == 10 * (p * q + r) + n % 10;
    assert n == 10 * p * q + (10 * r + n % 10) && 10 * r + n % 10 < 10 * p;
    Quotient(n, 10 * p, q, 10 * r + n % 10);
  }

  lemma SmallMultiple(d: int, n: int)
    requires -n < n * d < n
    ensures d == 0
  {
  }

  lemma Quotient(x: nat, m: nat, q: nat, r: nat)
    requires x == m * q + r && r < m
    ensures x / m == q && x % m == r
  {
    assert m * (x / m - q) == r - x % m;
    SmallMultiple(x / m - q, m);
  }

  /** The digits of a number are its decimal digits, the last one that of the ones, and no more of them
      than it needs. */
  lemma {:induction false} DigitsArePositional(n: nat, j: nat)
    ensures n < Pow10(|Digits(n)|) && (n >= 10 ==> n >= Pow10(|Digits(n)| - 1)) && (n < 10 ==> |Digits(n)| == 1)
    ensures j < |Digits(n)| ==> Digits(n)[|Digits(n)| - 1 - j] == 48 + n / Pow10(j) % 10
    decreases n
  {
    if n < 10 {
      assert Pow10(1) == 10 * Pow10(0);
    } else {
      DigitsArePositional(n / 10, if j == 0 then 0 else j - 1);
      if n / 10 < 10 {
        assert Pow10(1) == 10 * Pow10(0);
      }
      if j > 0 {
        Tenth(n, Pow10(j - 1));
      }
    }
  }

  /** The number that digits denote, digit by digit: the digits in front weigh a power of ten more. */
  lemma {:induction false} NatOfConcat(a: seq<byte>, b: seq<byte>)
    requires AllDigits(a) && AllDigits(b)
    ensures NatOf(a + b) == NatOf(a) * Pow10(|b|) + NatOf(b)
    ensures |b| == 1 ==> NatOf(b) == b[0] - 48
    decreases |b|
  {
    if b == [] {
      assert a + b == a;
    } else {
      var n := |b| - 1;
      assert (a + b)[..|a + b| - 1] == a + b[..n] && (a + b)[|a + b| - 1] == b[n];
      NatOfConcat(a, b[..n]);
      Distribute(NatOf(a), Pow10(n), NatOf(b[..n]));
      if n == 0 {
        assert b[..0] == [];
      }
    }
  }

  lemma Distribute(x: nat, p: nat, y: nat)
    ensures 10 * (x * p + y) == x * (10 * p) + 10 * y
  {
  }

  lemma {:induction false} NatOfDigits(n: nat)
    ensures NatOf(Digits(n)) == n
  {
    if n >= 10 {
      NatOfDigits(n / 10);
      assert Digits(n)[..|Digits(n)| - 1] == Digits(n / 10);
    } else {
      assert Digits(n)[..0] == [];
    }
  }

  lemma DigitRunOfDigits(ds: seq<byte>)
    requires AllDigits(ds)
    ensures DigitRun(ds) == |ds|
  {
  }

  /** Reading a printed integer returns it when it fits 64 bits and throws otherwise. */
  lemma StolOfIntText(n: int)
    ensures Stol(IntText(n)) == if IsInt64(n) then Ok(n) else Fails(OutOfRange)
  {
    var ds := Digits(if n < 0 then -n else n);
    DigitRunOfDigits(ds);
    NatOfDigits(if n < 0 then -n else n);
    assert ds[..|ds|] == ds;
    if n < 0 {
      assert IntText(n)[1..] == ds;
    } else {
      assert IsDigit(ds[0]);
    }
  }

  /** Digits, also with zeros in front and with a `-`, are read as the number they denote, if it fits 64 bits,
      and what does not continue them is ignored. */
  lemma StolOfAnyDigits(ds: seq<byte>, rest: seq<byte>)
    requires ds != [] && AllDigits(ds) && (rest == [] || !IsDigit(rest[0]))
    ensures Stol(ds + rest) == if NatOf(ds) < TWO_TO_THE_63 then Ok(NatOf(ds)) else Fails(OutOfRange)
    ensures Stol([45] + (ds + rest)) == if NatOf(ds) <= TWO_TO_THE_63 then Ok(0 - NatOf(ds)) else Fails(OutOfRange)
  {
    hide NatOf, DigitRun, AllDigits;
    DigitRunStops(ds, rest);
    var s := ds + rest;
    assert IsDigit(ds[0]) by { FirstDigit(ds); }
    assert s[0] == ds[0] && s[..|ds|] == ds;
    assert ([45] + s)[1..] == s && ([45] + s)[0] == 45;
  }

  lemma FirstDigit(ds: seq<byte>)
    requires ds != [] && AllDigits(ds)
    ensures IsDigit(ds[0])
  {
  }

  /** Without a digit at the start, or behind a `-` there, nothing is read. */
  lemma StolNeedsDigit(s: seq<byte>)
    ensures Stol(s) == Fails(InvalidArgument) <==>
              s == [] || !IsDigit(if s[0] == 45 && |s| > 1 then s[1] else s[0])
  {
    hide NatOf;
  }

  lemma {:induction false} DigitRunStops(ds: seq<byte>, rest: seq<byte>)
    requires AllDigits(ds) && (rest == [] || !IsDigit(rest[0]))
    ensures DigitRun(ds + rest) == |ds|
  {
    if ds == [] {
      assert ds + rest == rest;
    } else {
      assert (ds + rest)[0] == ds[0] && (ds + rest)[1..] == ds[1..] + rest;
      DigitRunStops(ds[1..], rest);
    }
  }

  /** Printed numbers, literally. */
  lemma PrintedNumbers()
    ensures IntText(-1203) == [45, 49, 50, 48, 51] && IntText(0) == [48] && Digits(16384) == [49, 54, 51, 56, 52]
  {
    assert Digits(1203) == Digits(120) + [51] && Digits(120) == Digits(12) + [48] && Digits(12) == Digits(1) + [50];
    assert Digits(16384) == Digits(1638) + [52] && Digits(1638) == Digits(163) + [56];
    assert Digits(163) == Digits(16) + [51] && Digits(16) == Digits(1) + [54];
  }
}
