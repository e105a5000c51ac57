/** The byte machine simulates the grammar: feeding the encoding of a value, at any nesting
    depth, has the effect of inserting the tree of that value. */
module BencodeSimulation {
  import opened Basics
  import opened Decimal
  import opened TargetTree
  import opened Bencode
  import opened BencodeMachine

  /** Between two values, with nothing half accumulated. */
  predicate Quiet(s: State) {
    && Inv(s)
    && s.mode in {Unknown, ParsingList, ParsingDictionary}
    && s.elementLength == 0 && s.element == [] && s.lengthText == []
  }

  /** At a point where a value, of any kind, is expected. */
  predicate ExpectsValue(s: State) {
    Quiet(s) && (s.queue != [] ==> TakesContainer(OpenNode(s)))
  }

  // ------------------------------------------------------------ edits compose

  lemma EditEdit(s: State, a: seq<byte>, u: Target, b: seq<byte>, w: Target)
    requires Inv(s) && s.queue != [] && CanHaveChildren(u) && CanHaveChildren(w)
    ensures Edit(Edit(s, a, u), b, w) == Edit(s, a + b, w)
  {
    OpenPathIsPath(s.root, Last(s.queue));
    GraftGraft(s.root, Last(s.queue), Noting(s, a), u, Noting(s, b), w);
    assert Noting(s, a) + Noting(s, b) == Noting(s, a + b);
  }

  lemma NotedEdit(s: State, a: seq<byte>, u: Target, b: seq<byte>)
    requires Inv(s) && s.queue != [] && CanHaveChildren(u)
    ensures Noted(Edit(s, a, u), b) == Edit(s, a + b, Note(u, Noting(s, b)))
  {
    EditEdit(s, a, u, b, Note(u, Noting(s, b)));
  }

  lemma NotedNoted(s: State, a: seq<byte>, b: seq<byte>)
    requires Inv(s)
    ensures Noted(Noted(s, a), b) == Noted(s, a + b)
  {
    if s.queue != [] {
      var u := OpenNode(s);
      NotedEdit(s, a, Note(u, Noting(s, a)), b);
      assert u.raw + Noting(s, a) + Noting(s, b) == u.raw + Noting(s, a + b);
    }
  }

  lemma NotedNothing(s: State)
    requires Inv(s)
    ensures Noted(s, []) == s
  {
    if s.queue != [] {
      OpenPathIsPath(s.root, Last(s.queue));
      var u := OpenNode(s);
      assert Noting(s, []) == [] && u.raw + [] == u.raw;
      GraftSame(s.root, Last(s.queue));
    }
  }

  lemma PushAfterNoted(s: State, bs: seq<byte>, child: Target)
    requires Inv(s) && s.queue != []
    ensures PushToTarget(Noted(s, bs), child).root
         == Edit(s, bs, Inserted(Note(OpenNode(s), Noting(s, bs)), child)).root
  {
    var t := Noted(s, bs);
    var u := OpenNode(t);
    OpenPathIsPath(s.root, Last(s.queue));
    GraftGraft(s.root, Last(s.queue), Noting(s, bs), u, [], Inserted(u, child));
    assert Noting(s, bs) + [] == Noting(s, bs);
  }

  // ------------------------------------------------------------ leaves

  /** The state after the whole text of a value with tree `child` has been read. */
  function Absorbed(s: State, bs: seq<byte>, child: Target): (r: State)
    requires Inv(s)
    ensures Inv(r) && r.queue == s.queue
  {
    if s.queue == [] then s.(root := child, mode := Unknown)
    else Edit(s, bs, Inserted(Note(OpenNode(s), Noting(s, bs)), child)).(mode := Unknown)
  }

  /** Noting touches the tree only: after `a` was noted and other fields changed, noting `b`
      leaves the tree that noting both leaves. */
  lemma NotedThen(s: State, a: seq<byte>, t: State, b: seq<byte>)
    requires Inv(s) && Inv(t)
    requires t == Noted(s, a).(mode := t.mode, elementLength := t.elementLength,
                               element := t.element, lengthText := t.lengthText)
    ensures Noted(t, b) == t.(root := Noted(s, a + b).root)
    ensures t.queue == s.queue && Noted(s, a + b).queue == s.queue
  {
    NotedNoted(s, a, b);
    assert Noted(t, b) == t.(root := Noted(Noted(s, a), b).root);
  }

  /** Absorbing a value leaves the parser between values, with the same containers open. */
  lemma AbsorbedShape(s: State, bs: seq<byte>, child: Target)
    requires Quiet(s)
    ensures var r := Absorbed(s, bs, child);
            && Quiet(r) && r.mode == Unknown && r.queue == s.queue && r.storeRaw == s.storeRaw
            && (s.queue != [] ==> OpenNode(r) == Inserted(Note(OpenNode(s), Noting(s, bs)), child))
  {
  }

  lemma NotedShape(s: State, bs: seq<byte>)
    requires Inv(s)
    ensures Noted(s, bs) == s.(root := Noted(s, bs).root)
  {
  }

  lemma DigitByte(s: State, c: byte)
    requires Inv(s) && s.mode == ParsingWordLength && IsDigit(c)
    ensures ConsumeByte(s, c) == Ok(Noted(s, [c]).(lengthText := s.lengthText + [c]))
  {
  }

  lemma {:induction false} RunDigits(s: State, ds: seq<byte>)
    requires Inv(s) && s.mode == ParsingWordLength && AllDigits(ds)
    ensures Run(s, ds) == Ok(s.(root := Noted(s, ds).root, lengthText := s.lengthText + ds))
    decreases ds
  {
    hide ConsumeByte, Noted;
    if ds == [] {
      NotedNothing(s);
      assert s.lengthText + [] == s.lengthText;
    } else {
      var t := Noted(s, [ds[0]]).(lengthText := s.lengthText + [ds[0]]);
      NotedShape(s, [ds[0]]);
      DigitByte(s, ds[0]);
      RunDigits(t, ds[1..]);
      NotedThen(s, [ds[0]], t, ds[1..]);
      assert [ds[0]] + ds[1..] == ds;
      assert s.lengthText + [ds[0]] + ds[1..] == s.lengthText + ds;
    }
  }

  lemma NumberByte(s: State, c: byte)
    requires Inv(s) && s.mode == ParsingInteger && (IsDigit(c) || c == 45)
    ensures ConsumeByte(s, c) == Ok(Noted(s, [c]).(element := s.element + [c]))
  {
  }

  lemma {:induction false} RunNumber(s: State, ds: seq<byte>)
    requires Inv(s) && s.mode == ParsingInteger
    requires forall i :: 0 <= i < |ds| ==> IsDigit(ds[i]) || ds[i] == 45
    ensures Run(s, ds) == Ok(s.(root := Noted(s, ds).root, element := s.element + ds))
    decreases ds
  {
    hide ConsumeByte, Noted;
    if ds == [] {
      NotedNothing(s);
      assert s.element + [] == s.element;
    } else {
      var t := Noted(s, [ds[0]]).(element := s.element + [ds[0]]);
      NotedShape(s, [ds[0]]);
      NumberByte(s, ds[0]);
      RunNumber(t, ds[1..]);
      NotedThen(s, [ds[0]], t, ds[1..]);
      assert [ds[0]] + ds[1..] == ds;
      assert s.element + [ds[0]] + ds[1..] == s.element + ds;
    }
  }

  lemma WordByte(s: State, c: byte)
    requires Inv(s) && s.mode == ParsingWord && 1 < Remaining(s)
    ensures ConsumeByte(s, c)
         == Ok(Noted(s, [c]).(element := s.element + [c], elementLength := Decrement(s.elementLength)))
  {
  }

  /** Any bytes at all are taken into a word while its countdown has not reached its end. */
  lemma {:induction false} RunWordPart(s: State, bs: seq<byte>)
    requires Inv(s) && s.mode == ParsingWord && |bs| < Remaining(s)
    ensures Run(s, bs) == Ok(s.(root := Noted(s, bs).root, element := s.element + bs,
                                elementLength := CountedDown(s.elementLength, |bs|)))
    decreases bs
  {
    hide ConsumeByte, Noted;
    if bs == [] {
      NotedNothing(s);
      assert s.element + [] == s.element;
    } else {
      var t := Noted(s, [bs[0]]).(element := s.element + [bs[0]], elementLength := Decrement(s.elementLength));
      NotedShape(s, [bs[0]]);
      WordByte(s, bs[0]);
      RunWordPart(t, bs[1..]);
      NotedThen(s, [bs[0]], t, bs[1..]);
      assert [bs[0]] + bs[1..] == bs;
      assert s.element + [bs[0]] + bs[1..] == s.element + bs;
    }
  }

  /** A countdown after `k` more bytes. */
  function CountedDown(n: nat, k: nat): (r: nat)
    requires n < TWO_TO_THE_64 && k < if n == 0 then TWO_TO_THE_64 else n
    ensures r < TWO_TO_THE_64
  {
    if n == 0 && k > 0 then TWO_TO_THE_64 - k else n - k
  }

  /** How many more bytes end the current word: a zero countdown wraps around first. */
  function Remaining(s: State): nat {
    if s.elementLength == 0 then TWO_TO_THE_64 else s.elementLength
  }

  lemma RunFirstDigits(s: State, ds: seq<byte>)
    requires Quiet(s) && AllDigits(ds) && ds != []
    ensures Run(s, ds) == Ok(s.(root := Noted(s, ds).root, mode := ParsingWordLength, lengthText := ds))
  {
    var first, rest := [ds[0]], ds[1..];
    assert ds == first + rest && s.lengthText + first == first;
    var t := Noted(s, first).(mode := ParsingWordLength, lengthText := first);
    assert ConsumeByte(s, ds[0]) == Ok(t);
    RunOne(s, ds[0]);
    RunDigits(t, rest);
    RunConcat(s, first, rest);
    NotedThen(s, first, t, rest);
  }

  lemma LengthEnds(u: State, n: nat)
    requires Inv(u) && u.mode == ParsingWordLength && u.lengthText == Digits(n)
    ensures ConsumeByte(u, 58)
         == if n < TWO_TO_THE_63
            then Ok(Noted(u, [58]).(mode := ParsingWord, elementLength := n, lengthText := []))
            else Fails(OutOfRange)
  {
    StolOfIntText(n);
  }

  /** The length and the colon of a string. */
  lemma RunLength(s: State, n: nat)
    requires Quiet(s)
    ensures Run(s, Digits(n) + [58])
         == if n < TWO_TO_THE_63
            then Ok(s.(root := Noted(s, Digits(n) + [58]).root, mode := ParsingWord, elementLength := n))
            else Fails(OutOfRange)
  {
    var ds := Digits(n);
    var u := s.(root := Noted(s, ds).root, mode := ParsingWordLength, lengthText := ds);
    RunFirstDigits(s, ds);
    NotedThen(s, ds, u, [58]);
    RunConcat(s, ds, [58]);
    RunOne(u, 58);
    LengthEnds(u, n);
  }

  /** The last byte of a word delivers it. */
  lemma WordEnds(s: State, head: seq<byte>, most: seq<byte>, c: byte)
    requires Quiet(s)
    ensures Run(s.(root := Noted(s, head).root, mode := ParsingWord, element := most, elementLength := 1), [c])
         == Ok(Absorbed(s, head + [c], StringTarget(most + [c])))
  {
    var u := s.(root := Noted(s, head).root, mode := ParsingWord, element := most, elementLength := 1);
    RunOne(u, c);
    NotedThen(s, head, u, [c]);
    LeafDelivered(s, head + [c], StringTarget(most + [c]));
  }

  /** A non-empty string is delivered to the innermost open container as one leaf. */
  lemma RunStr(s: State, w: seq<byte>)
    requires Quiet(s) && StrFits(w)
    ensures Run(s, EncodeStr(w)) == Ok(Absorbed(s, EncodeStr(w), StringTarget(w)))
  {
    var head, most, last := Digits(|w|) + [58], w[..|w| - 1], w[|w| - 1];
    assert w == most + [last] && EncodeStr(w) == (head + most) + [last];
    RunLength(s, |w|);
    var t := s.(root := Noted(s, head).root, mode := ParsingWord, elementLength := |w|);
    RunWordPart(t, most);
    RunConcat(s, head, most);
    NotedThen(s, head, t, most);
    assert [] + most == most;
    RunConcat(s, head + most, [last]);
    WordEnds(s, head + most, most, last);
  }

  /** Delivering a leaf after its text was noted absorbs it. */
  lemma LeafDelivered(s: State, bs: seq<byte>, leaf: Target)
    requires Quiet(s) && !CanHaveChildren(leaf)
    ensures PushToTarget(Noted(s, bs).(mode := Unknown), leaf) == Absorbed(s, bs, leaf)
  {
    if s.queue != [] {
      PushAfterNoted(s, bs, leaf);
    }
  }

  lemma NumberEnds(u: State, n: int)
    requires Inv(u) && u.mode == ParsingInteger && u.element == IntText(n)
    ensures ConsumeByte(u, 101)
         == if IsInt64(n)
            then Ok(PushToTarget(Noted(u, [101]).(mode := Unknown), IntegerTarget(n)).(element := []))
            else Fails(OutOfRange)
  {
    StolOfIntText(n);
  }

  lemma NumberDelivered(s: State, bs: seq<byte>, u: State, leaf: Target)
    requires Quiet(s) && !CanHaveChildren(leaf)
    requires Inv(u) && u == s.(root := Noted(s, bs).root, mode := Unknown, element := u.element)
    ensures PushToTarget(u, leaf).(element := []) == Absorbed(s, bs, leaf)
  {
    LeafDelivered(s, bs, leaf);
    assert u.(element := []) == Noted(s, bs).(mode := Unknown);
  }

  /** An integer is delivered as one leaf if it fits 64 bits; if not, the call throws. */
  lemma RunInt(s: State, n: int)
    requires Quiet(s)
    ensures Run(s, Encode(IntValue(n)))
         == if IsInt64(n) then Ok(Absorbed(s, Encode(IntValue(n)), IntegerTarget(n))) else Fails(OutOfRange)
  {
    var ds := IntText(n);
    var t := Noted(s, [105]).(mode := ParsingInteger);
    assert ConsumeByte(s, 105) == Ok(t);
    hide ConsumeByte, PushToTarget;
    RunOne(s, 105);
    RunNumber(t, ds);
    RunConcat(s, [105], ds);
    NotedThen(s, [105], t, ds);
    var u := s.(root := Noted(s, [105] + ds).root, mode := ParsingInteger, element := ds);
    assert [] + ds == ds;
    RunConcat(s, [105] + ds, [101]);
    RunOne(u, 101);
    NumberEnds(u, n);
    NotedThen(s, [105] + ds, u, [101]);
    if IsInt64(n) {
      NumberDelivered(s, [105] + ds + [101], Noted(u, [101]).(mode := Unknown), IntegerTarget(n));
    }
  }

  // ------------------------------------------------------------ containers

  /** The state right after the opening byte of a container. */
  function Opened(s: State, c: byte, empty: Target, mode: Mode): (r: State)
    requires ExpectsValue(s) && CanHaveChildren(empty)
    ensures Quiet(r.(mode := Unknown)) && r.mode == mode && r.storeRaw == s.storeRaw
    ensures r.queue != [] && OpenNode(r) == empty
  {
    var t := PushToTarget(Noted(s, [c]), empty);
    OpenedNode(s, c, empty);
    t.(mode := mode)
  }

  lemma OpenedNode(s: State, c: byte, empty: Target)
    requires ExpectsValue(s) && CanHaveChildren(empty)
    ensures var t := PushToTarget(Noted(s, [c]), empty);
            && t.queue != [] && OpenNode(t) == empty
            && (s.queue == [] ==> t.root == empty && t.queue == [[]])
            && (s.queue != [] ==>
                  && t.queue == s.queue + [Last(s.queue) + [NextStep(OpenNode(s))]]
                  && t.root == Edit(s, [c], Inserted(Note(OpenNode(s), Noting(s, [c])), empty)).root)
  {
    if s.queue != [] {
      PushAfterNoted(s, [c], empty);
      var u := OpenNode(s);
      var e := Edit(s, [c], Inserted(Note(u, Noting(s, [c])), empty));
      OpenPathIsPath(e.root, Last(s.queue));
      IsPathExtend(e.root, Last(s.queue), NextStep(u));
    }
  }

  /** The container at the end of the path grew from `empty` to `w` over `body`, then `e` closed it. */
  lemma CloseContainer(s: State, c: byte, empty: Target, mode: Mode, body: seq<byte>, w: Target)
    requires ExpectsValue(s) && CanHaveChildren(empty) && CanHaveChildren(w)
    ensures EndTarget(Noted(Edit(Opened(s, c, empty, mode), body, w).(mode := Unknown), [101]))
         == Ok(Absorbed(s, [c] + body + [101], Note(w, Noting(s, [101]))))
  {
    var o := Opened(s, c, empty, mode);
    OpenedNode(s, c, empty);
    var w' := Note(w, Noting(s, [101]));
    NotedEdit(o, body, w, [101]);
    assert Noted(Edit(o, body, w).(mode := Unknown), [101]) == Edit(o, body + [101], w').(mode := Unknown);
    if s.queue == [] {
      assert EndTarget(Edit(o, body + [101], w').(mode := Unknown)) == Ok(s.(root := w', mode := Unknown));
    } else {
      var p := Last(s.queue) + [NextStep(OpenNode(s))];
      assert p[..|p| - 1] == Last(s.queue);
      assert (s.queue + [p])[..|s.queue|] == s.queue;
      NestedClose(s, c, empty, body + [101], w');
      assert [c] + body + [101] == [c] + (body + [101]);
    }
  }

  lemma NestedClose(s: State, c: byte, empty: Target, rest: seq<byte>, w: Target)
    requires ExpectsValue(s) && s.queue != [] && CanHaveChildren(empty) && CanHaveChildren(w)
    ensures Edit(Opened(s, c, empty, Unknown), rest, w).root == Absorbed(s, [c] + rest, w).root
  {
    OpenedNode(s, c, empty);
    var p, u := Last(s.queue), OpenNode(s);
    var st := NextStep(u);
    var u1 := Inserted(Note(u, Noting(s, [c])), empty);
    var e := Edit(s, [c], u1);
    OpenPathIsPath(e.root, p);
    GraftExtend(e.root, p, st, Noting(s, rest), w);
    var u2 := SetChild(Note(u1, Noting(s, rest)), st, w);
    EditEdit(s, [c], u1, rest, u2);
    InsertedThenSet(u, Noting(s, [c]), empty, Noting(s, rest), w);
    assert Noting(s, [c]) + Noting(s, rest) == Noting(s, [c] + rest);
  }

  /** Storing an empty container and replacing it when it is complete is storing it once. */
  lemma InsertedThenSet(u: Target, a: seq<byte>, empty: Target, b: seq<byte>, w: Target)
    requires TakesContainer(u) && CanHaveChildren(empty) && CanHaveChildren(w)
    ensures HasChild(Inserted(Note(u, a), empty), NextStep(u))
    ensures SetChild(Note(Inserted(Note(u, a), empty), b), NextStep(u), w) == Inserted(Note(u, a + b), w)
  {
    assert u.raw + a + b == u.raw + (a + b);
    if u.kind == Lists {
      assert (u.list + [empty])[|u.list| := w] == u.list + [w];
    } else {
      assert u.dict[u.latestKey := empty][u.latestKey := w] == u.dict[u.latestKey := w];
    }
  }

  // ------------------------------------------------------------ the simulation

  /** The innermost open list after the text `bs` of items with the trees `ts`. */
  function Listed(s: State, bs: seq<byte>, ts: seq<Target>): (r: State)
    requires Inv(s) && s.queue != [] && OpenNode(s).kind == Lists
    ensures Inv(r)
  {
    Edit(s, bs, Note(OpenNode(s), Noting(s, bs)).(list := OpenNode(s).list + ts))
  }

  /** The innermost open dictionary after the text `bs` of entries with the trees `m`. */
  function Entered(s: State, bs: seq<byte>, m: map<seq<byte>, Target>): (r: State)
    requires Inv(s) && s.queue != [] && OpenNode(s).kind == Dictionaries
    ensures Inv(r)
  {
    Edit(s, bs, Note(OpenNode(s), Noting(s, bs)).(dict := OpenNode(s).dict + m))
  }

  /** Feeding the encoding of a well-formed value is inserting the tree of the value, and noting
      the encoding in every container open around it. */
  lemma {:induction false} RunEncode(s: State, v: Value)
    requires ExpectsValue(s) && WellFormed(v)
    ensures Run(s, Encode(v)) == Ok(Absorbed(s, Encode(v), Denote(v, s.storeRaw)))
    decreases v, 1
  {
    match v
    case IntValue(n) => RunInt(s, n);
    case StrValue(w) => RunStr(s, w);
    case ListValue(items) => RunEncodeList(s, v);
    case DictValue(entries) => RunEncodeDict(s, v);
  }

  lemma {:induction false} RunEncodeList(s: State, v: Value)
    requires ExpectsValue(s) && WellFormed(v) && v.ListValue?
    ensures Run(s, Encode(v)) == Ok(Absorbed(s, Encode(v), Denote(v, s.storeRaw)))
    decreases v, 0
  {
    hide ConsumeByte, Opened, Listed, Absorbed;
    var body := EncodeItems(v.items);
    RunItems(Opened(s, 108, EMPTY_LIST, ParsingList), v.items);
    RunList(s, body, DenoteItems(v.items, s.storeRaw));
    assert Encode(v)[1..] == body + [101];
  }

  lemma {:induction false} RunEncodeDict(s: State, v: Value)
    requires ExpectsValue(s) && WellFormed(v) && v.DictValue?
    ensures Run(s, Encode(v)) == Ok(Absorbed(s, Encode(v), Denote(v, s.storeRaw)))
    decreases v, 0
  {
    hide ConsumeByte, Opened, Entered, Absorbed;
    var body := EncodeEntries(v.entries);
    RunEntries(Opened(s, 100, EMPTY_DICT, ParsingDictionary), v.entries);
    RunDict(s, body, DenoteEntries(v.entries, s.storeRaw));
    assert Encode(v)[1..] == body + [101];
  }

  predicate SameButMode(r: Outcome<State>, t: State) {
    && r.Ok?
    && r.value.mode in {Unknown, ParsingList, ParsingDictionary}
    && r.value.(mode := Unknown) == t.(mode := Unknown)
  }

  lemma RunList(s: State, body: seq<byte>, ts: seq<Target>)
    requires ExpectsValue(s)
    requires var o := Opened(s, 108, EMPTY_LIST, ParsingList); SameButMode(Run(o, body), Listed(o, body, ts))
    ensures Run(s, [108] + body + [101])
         == Ok(Absorbed(s, [108] + body + [101], EMPTY_LIST.(list := ts, raw := Noting(s, body + [101]))))
  {
    hide ConsumeByte, Opened, Absorbed;
    assert [] + ts == ts && [] + Noting(s, body) == Noting(s, body);
    RunContainer(s, 108, EMPTY_LIST, ParsingList, body, EMPTY_LIST.(list := ts, raw := Noting(s, body)));
  }

  lemma RunDict(s: State, body: seq<byte>, m: map<seq<byte>, Target>)
    requires ExpectsValue(s)
    requires var o := Opened(s, 100, EMPTY_DICT, ParsingDictionary); SameButMode(Run(o, body), Entered(o, body, m))
    ensures Run(s, [100] + body + [101])
         == Ok(Absorbed(s, [100] + body + [101], EMPTY_DICT.(dict := m, raw := Noting(s, body + [101]))))
  {
    hide ConsumeByte, Opened, Absorbed;
    assert map[] + m == m && [] + Noting(s, body) == Noting(s, body);
    RunContainer(s, 100, EMPTY_DICT, ParsingDictionary, body, EMPTY_DICT.(dict := m, raw := Noting(s, body)));
  }

  predicate OpeningByte(c: byte, empty: Target, mode: Mode) {
    (c == 108 && empty == EMPTY_LIST && mode == ParsingList) ||
    (c == 100 && empty == EMPTY_DICT && mode == ParsingDictionary)
  }

  lemma RunOpening(s: State, c: byte, empty: Target, mode: Mode)
    requires ExpectsValue(s) && OpeningByte(c, empty, mode)
    ensures ConsumeByte(s, c) == Ok(Opened(s, c, empty, mode))
  {
    OpenedNode(s, c, empty);
  }

  lemma RunClosing(t: State)
    requires Inv(t) && t.mode in {Unknown, ParsingList, ParsingDictionary}
    ensures ConsumeByte(t, 101) == EndTarget(Noted(t.(mode := Unknown), [101]))
  {
  }

  lemma RunContainer(s: State, c: byte, empty: Target, mode: Mode, body: seq<byte>, w: Target)
    requires ExpectsValue(s) && OpeningByte(c, empty, mode) && CanHaveChildren(w)
    requires var o := Opened(s, c, empty, mode); SameButMode(Run(o, body), Edit(o, body, w))
    ensures Run(s, [c] + body + [101])
         == Ok(Absorbed(s, [c] + body + [101], Note(w, Noting(s, [101]))))
  {
    RunOne(s, c);
    RunOpening(s, c, empty, mode);
    RunConcat(s, [c], body);
    var t := Run(Opened(s, c, empty, mode), body).value;
    RunConcat(s, [c] + body, [101]);
    RunOne(t, 101);
    RunClosing(t);
    CloseContainer(s, c, empty, mode, body, w);
  }

  lemma {:induction false} RunItems(s: State, vs: seq<Value>)
    requires Quiet(s) && s.queue != [] && OpenNode(s).kind == Lists && ItemsWellFormed(vs)
    ensures SameButMode(Run(s, EncodeItems(vs)), Listed(s, EncodeItems(vs), DenoteItems(vs, s.storeRaw)))
    decreases vs, 0
  {
    if vs == [] {
      NotedNothing(s);
      assert OpenNode(s).list + [] == OpenNode(s).list;
    } else {
      var a, b := Encode(vs[0]), EncodeItems(vs[1..]);
      var d, ts := Denote(vs[0], s.storeRaw), DenoteItems(vs[1..], s.storeRaw);
      RunEncode(s, vs[0]);
      var t := Absorbed(s, a, d);
      RunItems(t, vs[1..]);
      RunConcat(s, a, b);
      MoreItems(s, a, d, b, ts);
    }
  }

  lemma MoreItems(s: State, a: seq<byte>, d: Target, b: seq<byte>, ts: seq<Target>)
    requires Inv(s) && s.queue != [] && OpenNode(s).kind == Lists
    ensures Listed(Absorbed(s, a, d), b, ts) == Listed(s, a + b, [d] + ts).(mode := Unknown)
  {
    var u := OpenNode(s);
    var u1 := Inserted(Note(u, Noting(s, a)), d);
    EditEdit(s, a, u1, b, Note(u1, Noting(s, b)).(list := u1.list + ts));
    assert u.list + [d] + ts == u.list + ([d] + ts);
    assert u.raw + Noting(s, a) + Noting(s, b) == u.raw + Noting(s, a + b);
  }

  lemma {:induction false} RunEntries(s: State, es: seq<Entry>)
    requires Quiet(s) && s.queue != [] && EntriesWellFormed(es)
    requires OpenNode(s).kind == Dictionaries && OpenNode(s).latestKey == []
    ensures SameButMode(Run(s, EncodeEntries(es)), Entered(s, EncodeEntries(es), DenoteEntries(es, s.storeRaw)))
    decreases es, 0
  {
    if es == [] {
      NotedNothing(s);
      assert OpenNode(s).dict + map[] == OpenNode(s).dict;
    } else {
      var k, a, b := EncodeStr(es[0].key), Encode(es[0].value), EncodeEntries(es[1..]);
      var d, m := Denote(es[0].value, s.storeRaw), DenoteEntries(es[1..], s.storeRaw);
      RunStr(s, es[0].key);
      var t := Absorbed(s, k, StringTarget(es[0].key));
      RunEncode(t, es[0].value);
      var u := Absorbed(t, a, d);
      RunConcat(s, k, a);
      PairAbsorbed(s, k, es[0].key, a, d);
      RunEntries(u, es[1..]);
      RunConcat(s, k + a, b);
      MoreEntries(s, k + a, es[0].key, d, b, m);
    }
  }

  /** A dictionary with one more entry, having noted `bs`. */
  function Stored(n: Target, bs: seq<byte>, key: seq<byte>, d: Target): Target {
    Note(n, bs).(dict := n.dict[key := d])
  }

  lemma PairAbsorbed(s: State, k: seq<byte>, key: seq<byte>, a: seq<byte>, d: Target)
    requires Inv(s) && s.queue != [] && key != []
    requires OpenNode(s).kind == Dictionaries && OpenNode(s).latestKey == []
    ensures Absorbed(Absorbed(s, k, StringTarget(key)), a, d)
         == Edit(s, k + a, Stored(OpenNode(s), Noting(s, k + a), key, d)).(mode := Unknown)
  {
    var n := OpenNode(s);
    var n1 := Inserted(Note(n, Noting(s, k)), StringTarget(key));
    var n2 := Inserted(Note(n1, Noting(s, a)), d);
    EditEdit(s, k, n1, a, n2);
    assert n.raw + Noting(s, k) + Noting(s, a) == n.raw + Noting(s, k + a);
  }

  lemma MoreEntries(s: State, a: seq<byte>, key: seq<byte>, d: Target, b: seq<byte>, m: map<seq<byte>, Target>)
    requires Inv(s) && s.queue != [] && OpenNode(s).kind == Dictionaries
    ensures Entered(Edit(s, a, Stored(OpenNode(s), Noting(s, a), key, d)).(mode := Unknown), b, m)
         == Entered(s, a + b, map[key := d] + m).(mode := Unknown)
  {
    var n := OpenNode(s);
    var n2 := Stored(n, Noting(s, a), key, d);
    EditEdit(s, a, n2, b, Note(n2, Noting(s, b)).(dict := n2.dict + m));
    assert n.dict[key := d] + m == n.dict + (map[key := d] + m);
    assert n.raw + Noting(s, a) + Noting(s, b) == n.raw + Noting(s, a + b);
  }
}
