/** What a `bencode_map` promises about whole inputs. */
module BencodeTheorems {
  import opened Basics
  import opened Decimal
  import opened TargetTree
  import opened Bencode
  import opened BencodeMachine
  import opened BencodeSimulation

  // ------------------------------------------------------------ when parsing succeeds

  /** A fresh parser turns the encoding of a well-formed value into the tree of the value, and
      is then between values with no container open. */
  lemma ParseEncoded(v: Value, raw: bool)
    requires WellFormed(v)
    ensures Run(Fresh(raw), Encode(v)) == Ok(Fresh(raw).(root := Denote(v, raw)))
  {
    RunEncode(Fresh(raw), v);
  }

  /** A run that threw, or that is inside a word which `n` more bytes cannot end. */
  predicate Broken(r: Outcome<State>, n: nat) {
    r.Ok? ==> Inv(r.value) && r.value.mode == ParsingWord && n < Remaining(r.value)
  }

  lemma BrokenMore(s: State, a: seq<byte>, b: seq<byte>, n: nat)
    requires Inv(s) && Broken(Run(s, a), |b| + n)
    ensures Broken(Run(s, a + b), n)
  {
    hide ConsumeByte, Noted;
    RunConcat(s, a, b);
    if Run(s, a).Ok? {
      RunWordPart(Run(s, a).value, b);
    }
  }

  lemma {:induction false} StrBreaks(s: State, w: seq<byte>, n: nat)
    requires Quiet(s) && !StrFits(w) && |EncodeStr(w)| + n < TWO_TO_THE_64
    ensures Broken(Run(s, EncodeStr(w)), n)
  {
    RunLength(s, |w|);
    BrokenMore(s, Digits(|w|) + [58], w, n);
  }

  lemma {:induction false} Breaks(s: State, v: Value, n: nat)
    requires ExpectsValue(s) && !WellFormed(v) && |Encode(v)| + n < TWO_TO_THE_64
    ensures Broken(Run(s, Encode(v)), n)
    decreases v, 1
  {
    match v
    case IntValue(i) => RunInt(s, i);
    case StrValue(w) => StrBreaks(s, w, n);
    case ListValue(items) =>
      var o := Opened(s, 108, EMPTY_LIST, ParsingList);
      RunOne(s, 108);
      RunOpening(s, 108, EMPTY_LIST, ParsingList);
      RunConcat(s, [108], EncodeItems(items));
      ItemsBreak(o, items, n + 1);
      BrokenMore(s, [108] + EncodeItems(items), [101], n);
    case DictValue(entries) =>
      var o := Opened(s, 100, EMPTY_DICT, ParsingDictionary);
      RunOne(s, 100);
      RunOpening(s, 100, EMPTY_DICT, ParsingDictionary);
      RunConcat(s, [100], EncodeEntries(entries));
      EntriesBreak(o, entries, n + 1);
      BrokenMore(s, [100] + EncodeEntries(entries), [101], n);
  }

  lemma {:induction false} ItemsBreak(s: State, vs: seq<Value>, n: nat)
    requires Quiet(s) && s.queue != [] && OpenNode(s).kind == Lists
    requires !ItemsWellFormed(vs) && |EncodeItems(vs)| + n < TWO_TO_THE_64
    ensures Broken(Run(s, EncodeItems(vs)), n)
    decreases vs, 0
  {
    var a, b := Encode(vs[0]), EncodeItems(vs[1..]);
    if WellFormed(vs[0]) {
      RunEncode(s, vs[0]);
      RunConcat(s, a, b);
      ItemsBreak(Absorbed(s, a, Denote(vs[0], s.storeRaw)), vs[1..], n);
    } else {
      Breaks(s, vs[0], |b| + n);
      BrokenMore(s, a, b, n);
    }
  }

  lemma {:induction false} EntriesBreak(s: State, es: seq<Entry>, n: nat)
    requires Quiet(s) && s.queue != [] && OpenNode(s).kind == Dictionaries && OpenNode(s).latestKey == []
    requires !EntriesWellFormed(es) && |EncodeEntries(es)| + n < TWO_TO_THE_64
    ensures Broken(Run(s, EncodeEntries(es)), n)
    decreases es, 0
  {
    hide ConsumeByte, Absorbed, Edit, Encode, Denote, WellFormed, EncodeStr;
    var k, a, b := EncodeStr(es[0].key), Encode(es[0].value), EncodeEntries(es[1..]);
    if !StrFits(es[0].key) {
      StrBreaks(s, es[0].key, |a + b| + n);
      BrokenMore(s, k, a + b, n);
      assert k + a + b == k + (a + b);
    } else {
      RunStr(s, es[0].key);
      var t := Absorbed(s, k, StringTarget(es[0].key));
      AbsorbedShape(s, k, StringTarget(es[0].key));
      RunConcat(s, k, a);
      RunConcat(s, k + a, b);
      if WellFormed(es[0].value) {
        RunEncode(t, es[0].value);
        AbsorbedShape(t, a, Denote(es[0].value, s.storeRaw));
        EntriesBreak(Absorbed(t, a, Denote(es[0].value, s.storeRaw)), es[1..], n);
      } else {
        Breaks(t, es[0].value, |b| + n);
        BrokenMore(s, k + a, b, n);
      }
    }
  }

  /** On encodings that fit the address space the parser succeeds exactly on the well-formed
      values.  On all others, those with an empty string or key or an integer outside 64 bits,
      it throws or is left inside a word: `0:` wraps the countdown around. */
  lemma ParsesExactlyWellFormed(v: Value, raw: bool)
    requires |Encode(v)| < TWO_TO_THE_64
    ensures WellFormed(v) <==> Run(Fresh(raw), Encode(v)) == Ok(Fresh(raw).(root := Denote(v, raw)))
    ensures !WellFormed(v) <==> Broken(Run(Fresh(raw), Encode(v)), 0)
  {
    if WellFormed(v) {
      ParseEncoded(v, raw);
    } else {
      Breaks(Fresh(raw), v, 0);
    }
  }

  /** The empty string: the byte behind it is taken for the first of 2^64 bytes of a word. */
  lemma EmptyStringSwallows(raw: bool, c: byte)
    ensures Encode(StrValue([])) == [48, 58]
    ensures Run(Fresh(raw), Encode(StrValue([])) + [c])
         == Ok(Fresh(raw).(mode := ParsingWord, element := [c], elementLength := TWO_TO_THE_64 - 1))
  {
    assert Digits(0) == [48];
    var s := Fresh(raw);
    var t := s.(mode := ParsingWordLength, lengthText := [48]);
    var u := s.(mode := ParsingWord);
    assert [] + [48 as byte] == [48] && [] + [c] == [c];
    assert ConsumeByte(s, 48) == Ok(t);
    StolOfIntText(0);
    assert ConsumeByte(t, 58) == Ok(u);
    RunOne(s, 48);
    RunOne(t, 58);
    RunOne(u, c);
    RunConcat(s, [48], [58]);
    RunConcat(s, [48] + [58], [c]);
    assert [48 as byte] + [58] == [48, 58];
  }

  // ------------------------------------------------------------ padding

  /** A byte that starts no value and ends no container. */
  predicate Junk(c: byte) {
    c !in {100, 101, 105, 108} && !IsDigit(c)
  }

  /** Between values such a byte is only noted. */
  lemma JunkByte(s: State, c: byte)
    requires Inv(s) && s.mode in {Unknown, ParsingList, ParsingDictionary} && Junk(c)
    ensures ConsumeByte(s, c) == Ok(Noted(s, [c]).(mode := Unknown))
  {
    NotedShape(s, [c]);
    hide Noted;
  }

  /** After a complete value such bytes change neither the tree nor any raw record. */
  lemma {:induction false} JunkIgnored(s: State, bs: seq<byte>)
    requires Inv(s) && s.queue == [] && s.mode == Unknown
    requires forall i :: 0 <= i < |bs| ==> Junk(bs[i])
    ensures Run(s, bs) == Ok(s)
    decreases bs
  {
    hide ConsumeByte;
    if bs == [] {
    } else {
      JunkByte(s, bs[0]);
      JunkIgnored(s, bs[1..]);
    }
  }

  /** Zero bytes in particular. */
  lemma PaddingIgnored(s: State, n: nat)
    requires Inv(s) && s.queue == [] && s.mode == Unknown
    ensures Run(s, Zeros(n)) == Ok(s)
  {
    JunkIgnored(s, Zeros(n));
  }

  // ------------------------------------------------------------ raw records

  /** Does the path lead to a part of the value?  A key leads to the last value written for it. */
  predicate HasPart(v: Value, p: Path)
    decreases p
  {
    p == [] || (Part1(v, p[0]).Some? && HasPart(Part1(v, p[0]).value, p[1..]))
  }

  function Part1(v: Value, s: Step): Option<Value> {
    match (v, s)
    case (ListValue(items), Index(i)) => if i < |items| then Some(items[i]) else None
    case (DictValue(entries), Key(k)) => LastValue(entries, k)
    case _ => None
  }

  function Part(v: Value, p: Path): Value
    requires HasPart(v, p)
    decreases p
  {
    if p == [] then v else Part(Part1(v, p[0]).value, p[1..])
  }

  /** What stands for a key and is no string is dropped: the whole state stays, and a list or a dictionary
      is not opened, so that its `e` ends the dictionary around it. */
  lemma KeyMustBeString(s: State, child: Target)
    requires Inv(s) && s.queue != [] && child.kind != Strings
    requires OpenNode(s).kind == Dictionaries && OpenNode(s).latestKey == []
    ensures PushToTarget(s, child) == s
  {
    OpenPathIsPath(s.root, Last(s.queue));
    GraftSame(s.root, Last(s.queue));
  }

  /** The paths of the tree are those of the value, and lead to the trees of its parts. */
  lemma {:induction false} PartsOfTree(v: Value, raw: bool, p: Path)
    ensures IsPath(Denote(v, raw), p) <==> HasPart(v, p)
    ensures HasPart(v, p) ==> Get(Denote(v, raw), p) == Denote(Part(v, p), raw)
    decreases p
  {
    if p == [] {
    } else {
      match (v, p[0])
      case (ListValue(items), Index(i)) =>
        if i < |items| {
          PartsOfTree(items[i], raw, p[1..]);
        }
      case (DictValue(entries), Key(k)) =>
        DenoteEntriesIsLastWins(entries, raw, k);
        if LastValue(entries, k).Some? {
          PartsOfTree(LastValue(entries, k).value, raw, p[1..]);
        }
      case _ =>
    }
  }

  predicate SliceAt(x: seq<byte>, bs: seq<byte>, i: int) {
    0 <= i <= |bs| - |x| && bs[i..i + |x|] == x
  }

  /** `x` stands in `bs` at some offset. */
  ghost predicate Slice(x: seq<byte>, bs: seq<byte>) {
    exists i :: SliceAt(x, bs, i)
  }

  lemma SliceInside(x: seq<byte>, a: seq<byte>, b: seq<byte>, c: seq<byte>)
    requires Slice(x, b)
    ensures Slice(x, a + b + c)
  {
    var i :| SliceAt(x, b, i);
    assert SliceAt(x, a + b + c, |a| + i);
  }

  lemma {:induction false} ItemSlice(vs: seq<Value>, i: nat)
    requires i < |vs|
    ensures Slice(Encode(vs[i]), EncodeItems(vs))
  {
    var a, b := Encode(vs[0]), EncodeItems(vs[1..]);
    if i == 0 {
      assert SliceAt(a, a, 0);
      SliceInside(a, [], a, b);
      assert [] + a + b == EncodeItems(vs);
    } else {
      ItemSlice(vs[1..], i - 1);
      SliceInside(Encode(vs[i]), a, b, []);
      assert a + b + [] == EncodeItems(vs);
    }
  }

  lemma {:induction false} EntrySlice(es: seq<Entry>, i: nat)
    requires i < |es|
    ensures Slice(Encode(es[i].value), EncodeEntries(es))
  {
    var k, a, b := EncodeStr(es[0].key), Encode(es[0].value), EncodeEntries(es[1..]);
    if i == 0 {
      assert SliceAt(a, a, 0);
      SliceInside(a, k, a, b);
    } else {
      EntrySlice(es[1..], i - 1);
      SliceInside(Encode(es[i].value), k + a, b, []);
      assert (k + a) + b + [] == EncodeEntries(es);
    }
  }

  lemma {:induction false} PartSlice(v: Value, p: Path)
    requires HasPart(v, p)
    ensures Slice(Encode(Part(v, p)), Encode(v))
    decreases p
  {
    if p == [] {
      assert SliceAt(Encode(v), Encode(v), 0);
    } else {
      var c := Part1(v, p[0]).value;
      PartSlice(c, p[1..]);
      match v {
        case ListValue(items) =>
          ItemSlice(items, p[0].i);
          SliceTransitive(Encode(Part(v, p)), Encode(c), EncodeItems(items));
          SliceInside(Encode(Part(v, p)), [108], EncodeItems(items), [101]);
        case DictValue(entries) =>
          var i :| 0 <= i < |entries| && entries[i] == Entry(p[0].k, c);
          EntrySlice(entries, i);
          SliceTransitive(Encode(Part(v, p)), Encode(c), EncodeEntries(entries));
          SliceInside(Encode(Part(v, p)), [100], EncodeEntries(entries), [101]);
        case _ =>
      }
    }
  }

  lemma SliceTransitive(x: seq<byte>, y: seq<byte>, z: seq<byte>)
    requires Slice(x, y) && Slice(y, z)
    ensures Slice(x, z)
  {
    var i :| SliceAt(x, y, i);
    var j :| SliceAt(y, z, j);
    forall n | 0 <= n < |x|
      ensures z[j + i..j + i + |x|][n] == x[n]
    {
      assert y[i..i + |x|][n] == y[i + n] && z[j..j + |y|][i + n] == z[j + (i + n)];
    }
    assert SliceAt(x, z, j + i);
  }

  /** With raw storing on, every list and dictionary of the parsed tree, at every depth, holds its
      own slice of the input without the opening byte, and writing that byte in front again gives
      the encoding of the part it stands for. */
  lemma RawRecordsAreSlices(v: Value, p: Path)
    requires WellFormed(v) && HasPart(v, p) && CanHaveChildren(Denote(Part(v, p), true))
    ensures var r := Run(Fresh(true), Encode(v));
            && r.Ok? && IsPath(r.value.root, p)
            && var t := Get(r.value.root, p);
               var opening := if t.kind == Lists then 108 else 100;
               [opening] + t.raw == Encode(Part(v, p)) && Slice([opening] + t.raw, Encode(v))
  {
    ParseEncoded(v, true);
    PartsOfTree(v, true, p);
    PartSlice(v, p);
    var e := Encode(Part(v, p));
    assert e == [e[0]] + e[1..];
  }

  // ------------------------------------------------------------ the queue of open containers

  /** After the first `k` bytes of a value: the innermost container of the value that is open, as a
      path from the value down, or none when no container of the value is open. */
  function OpenIn(v: Value, k: nat): Option<Path>
    decreases v
  {
    if k == 0 || k >= |Encode(v)| then None else
      match v
      case ListValue(items) => Some(OpenInItems(items, k - 1, 0))
      case DictValue(entries) => Some(OpenInEntries(entries, k - 1))
      case _ => None
  }

  function Below(s: Step, inner: Option<Path>): Path {
    if inner.Some? then [s] + inner.value else []
  }

  function OpenInItems(vs: seq<Value>, k: nat, first: nat): Path
    decreases vs
  {
    if vs == [] then []
    else if k < |Encode(vs[0])| then Below(Index(first), OpenIn(vs[0], k))
    else OpenInItems(vs[1..], k - |Encode(vs[0])|, first + 1)
  }

  function OpenInEntries(es: seq<Entry>, k: nat): Path
    decreases es
  {
    if es == [] then [] else
      var key, value := |EncodeStr(es[0].key)|, |Encode(es[0].value)|;
      if k < key then []
      else if k < key + value then Below(Key(es[0].key), OpenIn(es[0].value, k - key))
      else OpenInEntries(es[1..], k - key - value)
  }

  /** Where the next value of a state will stand in the tree. */
  function Site(s: State): Path
    requires Inv(s)
  {
    if s.queue == [] then [] else Last(s.queue) + [NextStep(OpenNode(s))]
  }

  predicate RunsTo(r: Outcome<State>, queue: seq<Path>) {
    r.Ok? && r.value.queue == queue
  }

  lemma StrPrefix(s: State, w: seq<byte>, k: nat)
    requires Quiet(s) && StrFits(w) && k <= |EncodeStr(w)|
    ensures RunsTo(Run(s, EncodeStr(w)[..k]), s.queue)
  {
    var ds := Digits(|w|);
    if k == 0 {
    } else if k <= |ds| {
      assert EncodeStr(w)[..k] == ds[..k];
      RunFirstDigits(s, ds[..k]);
    } else if k < |EncodeStr(w)| {
      var head, most := ds + [58], w[..k - |ds| - 1];
      assert EncodeStr(w)[..k] == head + most;
      RunLength(s, |w|);
      RunConcat(s, head, most);
      RunWordPart(Run(s, head).value, most);
    } else {
      assert EncodeStr(w)[..k] == EncodeStr(w);
      RunStr(s, w);
    }
  }

  lemma IntPrefix(s: State, n: int, k: nat)
    requires Quiet(s) && IsInt64(n) && k <= |Encode(IntValue(n))|
    ensures RunsTo(Run(s, Encode(IntValue(n))[..k]), s.queue)
  {
    var bs := Encode(IntValue(n));
    if k == 0 {
    } else if k < |bs| {
      var most := IntText(n)[..k - 1];
      assert bs[..k] == [105] + most;
      RunOne(s, 105);
      RunConcat(s, [105], most);
      RunNumber(Run(s, [105]).value, most);
    } else {
      assert bs[..k] == bs;
      RunInt(s, n);
    }
  }

  /** On every prefix of a value the queue is the chain of containers open at that point of the
      text, continuing the chain that was open before the value. */
  lemma {:induction false} QueueAlongValue(s: State, v: Value, k: nat)
    requires ExpectsValue(s) && WellFormed(v) && k <= |Encode(v)|
    ensures RunsTo(Run(s, Encode(v)[..k]),
                   if OpenIn(v, k).Some? then Prefixes(Site(s) + OpenIn(v, k).value) else s.queue)
    decreases v, 1
  {
    hide ConsumeByte, Absorbed, Opened, Prefixes;
    if k == 0 {
    } else if k == |Encode(v)| {
      assert Encode(v)[..k] == Encode(v);
      RunEncode(s, v);
    } else {
      match v
      case IntValue(n) => IntPrefix(s, n, k);
      case StrValue(w) => StrPrefix(s, w, k);
      case ListValue(items) =>
        InsideContainer(s, 108, EMPTY_LIST, ParsingList, EncodeItems(items), k);
        QueueAlongItems(Opened(s, 108, EMPTY_LIST, ParsingList), items, k - 1);
      case DictValue(entries) =>
        InsideContainer(s, 100, EMPTY_DICT, ParsingDictionary, EncodeEntries(entries), k);
        QueueAlongEntries(Opened(s, 100, EMPTY_DICT, ParsingDictionary), entries, k - 1);
    }
  }

  lemma InsideContainer(s: State, c: byte, empty: Target, mode: Mode, body: seq<byte>, k: nat)
    requires ExpectsValue(s) && OpeningByte(c, empty, mode) && 0 < k < |body| + 2
    ensures var o := Opened(s, c, empty, mode);
            && Last(o.queue) == Site(s)
            && Run(s, ([c] + body + [101])[..k]) == Run(o, body[..k - 1])
  {
    var o := Opened(s, c, empty, mode);
    OpenedNode(s, c, empty);
    assert ([c] + body + [101])[..k] == [c] + body[..k - 1];
    RunOne(s, c);
    RunOpening(s, c, empty, mode);
    RunConcat(s, [c], body[..k - 1]);
  }

  lemma TakeConcat(a: seq<byte>, b: seq<byte>, k: nat)
    requires k <= |a| + |b|
    ensures (a + b)[..k] == if k < |a| then a[..k] else a + b[..k - |a|]
  {
  }

  lemma {:induction false} QueueAlongItems(s: State, vs: seq<Value>, k: nat)
    requires Quiet(s) && s.queue != [] && OpenNode(s).kind == Lists
    requires ItemsWellFormed(vs) && k <= |EncodeItems(vs)|
    ensures RunsTo(Run(s, EncodeItems(vs)[..k]),
                   Prefixes(Last(s.queue) + OpenInItems(vs, k, |OpenNode(s).list|)))
    decreases vs, 0
  {
    hide ConsumeByte, Absorbed, Edit, Prefixes, OpenIn, Encode, Denote, WellFormed;
    InnermostOnly(s);
    if vs == [] {
    } else {
      var a, b := Encode(vs[0]), EncodeItems(vs[1..]);
      TakeConcat(a, b, k);
      if k < |a| {
        QueueAlongValue(s, vs[0], k);
        BelowSite(s, OpenIn(vs[0], k));
      } else {
        RunEncode(s, vs[0]);
        AbsorbedShape(s, a, Denote(vs[0], s.storeRaw));
        RunConcat(s, a, b[..k - |a|]);
        QueueAlongItems(Absorbed(s, a, Denote(vs[0], s.storeRaw)), vs[1..], k - |a|);
      }
    }
  }

  lemma InnermostOnly(s: State)
    requires Inv(s) && s.queue != []
    ensures Prefixes(Last(s.queue) + []) == s.queue
  {
    assert Last(s.queue) + [] == Last(s.queue);
  }

  lemma BelowSite(s: State, inner: Option<Path>)
    requires Inv(s) && s.queue != []
    ensures inner.Some? ==>
              Site(s) + inner.value == Last(s.queue) + Below(NextStep(OpenNode(s)), inner)
  {
    if inner.Some? {
      var l, m, n := Last(s.queue), [NextStep(OpenNode(s))], inner.value;
      assert (l + m) + n == l + (m + n);
    }
  }

  lemma {:induction false} QueueAlongEntries(s: State, es: seq<Entry>, k: nat)
    requires Quiet(s) && s.queue != [] && OpenNode(s).kind == Dictionaries && OpenNode(s).latestKey == []
    requires EntriesWellFormed(es) && k <= |EncodeEntries(es)|
    ensures RunsTo(Run(s, EncodeEntries(es)[..k]), Prefixes(Last(s.queue) + OpenInEntries(es, k)))
    decreases es, 1
  {
    hide ConsumeByte, Absorbed, Edit, Prefixes, OpenIn, Encode, Denote, WellFormed;
    InnermostOnly(s);
    if es != [] {
      var key, a, b := EncodeStr(es[0].key), Encode(es[0].value), EncodeEntries(es[1..]);
      assert EncodeEntries(es) == key + (a + b);
      TakeConcat(key, a + b, k);
      if k < |key| {
        StrPrefix(s, es[0].key, k);
      } else {
        RunStr(s, es[0].key);
        var t := Absorbed(s, key, StringTarget(es[0].key));
        AbsorbedShape(s, key, StringTarget(es[0].key));
        QueueAfterKey(t, es, k - |key|);
        RunConcat(s, key, (a + b)[..k - |key|]);
      }
    }
  }

  lemma {:induction false} QueueAfterKey(t: State, es: seq<Entry>, k: nat)
    requires Quiet(t) && t.queue != [] && es != [] && EntriesWellFormed(es)
    requires OpenNode(t).kind == Dictionaries && OpenNode(t).latestKey == es[0].key
    requires k <= |Encode(es[0].value) + EncodeEntries(es[1..])|
    ensures RunsTo(Run(t, (Encode(es[0].value) + EncodeEntries(es[1..]))[..k]),
                   Prefixes(Last(t.queue) + OpenInEntries(es, k + |EncodeStr(es[0].key)|)))
    decreases es, 0
  {
    hide ConsumeByte, Absorbed, Edit, Prefixes, OpenIn, Encode, Denote, WellFormed;
    var a, b := Encode(es[0].value), EncodeEntries(es[1..]);
    TakeConcat(a, b, k);
    if k < |a| {
      QueueAlongValue(t, es[0].value, k);
      BelowSite(t, OpenIn(es[0].value, k));
      InnermostOnly(t);
    } else {
      RunEncode(t, es[0].value);
      var u := Absorbed(t, a, Denote(es[0].value, t.storeRaw));
      AbsorbedShape(t, a, Denote(es[0].value, t.storeRaw));
      RunConcat(t, a, b[..k - |a|]);
      QueueAlongEntries(u, es[1..], k - |a|);
    }
  }

  /** From a fresh parser: after any number of bytes of a well-formed value the queue is exactly
      the root-to-current path of open containers of the value.  No pop ever finds the queue empty,
      and the queue of a container empties at its last byte and not before. */
  lemma QueueIsOpenPath(v: Value, raw: bool, k: nat)
    requires WellFormed(v) && k <= |Encode(v)|
    ensures var r := Run(Fresh(raw), Encode(v)[..k]);
            && r.Ok?
            && r.value.queue == (if OpenIn(v, k).Some? then Prefixes(OpenIn(v, k).value) else [])
            && ((v.ListValue? || v.DictValue?) && k > 0 ==> (r.value.queue == [] <==> k == |Encode(v)|))
  {
    QueueAlongValue(Fresh(raw), v, k);
    if OpenIn(v, k).Some? {
      assert [] + OpenIn(v, k).value == OpenIn(v, k).value;
    }
  }

  // ------------------------------------------------------------ pointers stay valid

  /** Delivering a child may move or replace the node at `q`: `push_back` may move every element of
      the list it grows, a map assignment replaces the old value of its key, and a new top-level
      value replaces the root. */
  predicate Disturbs(s: State, q: Path)
    requires Inv(s)
  {
    if s.queue == [] then true else
      var p, u := Last(s.queue), OpenNode(s);
      && |p| < |q| && p == q[..|p|]
      && (if u.kind == Lists then q[|p|].Index? else u.latestKey != [] && q[|p|] == Key(u.latestKey))
  }

  /** On any input at all, well-formed or not: in every state the parser reaches, each queued
      pointer leads to a container open in the container before it, and delivering the next child
      disturbs no queued node. */
  lemma QueuedPointersStayValid(raw: bool, bs: seq<byte>)
    requires Run(Fresh(raw), bs).Ok?
    ensures var s := Run(Fresh(raw), bs).value;
            forall i :: 0 <= i < |s.queue| ==>
              && IsOpenPath(s.root, s.queue[i]) && |s.queue[i]| == i
              && (i > 0 ==> s.queue[i][..i - 1] == s.queue[i - 1])
              && !Disturbs(s, s.queue[i])
  {
    var s := Run(Fresh(raw), bs).value;
    forall i | 0 <= i < |s.queue|
      ensures IsOpenPath(s.root, s.queue[i]) && |s.queue[i]| == i
      ensures i > 0 ==> s.queue[i][..i - 1] == s.queue[i - 1]
      ensures !Disturbs(s, s.queue[i])
    {
      assert s.queue[i] == Last(s.queue)[..i];
      OpenPathPrefix(s.root, Last(s.queue), i);
    }
  }
}
