/** What a chain of subscripts finds in a parsed document, in terms of the document. */
module BencodeAccess {
  import opened Basics
  import opened Decimal
  import opened TargetTree
  import opened Bencode
  import opened BencodeMachine
  import opened BencodeTheorems
  import opened BencodeMap

  /** What subscripts mean in a value: a number an element of a list, a key the last value written for it;
      either is out of range if there is none, and ignored on a value of another kind. */
  function Found(v: Value, steps: seq<Step>): Outcome<Value>
    decreases steps
  {
    if steps == [] then Ok(v)
    else
      match (v, steps[0])
      case (ListValue(items), Index(i)) =>
        if i < |items| then Found(items[i], steps[1..]) else Fails(OutOfRange)
      case (DictValue(entries), Key(k)) =>
        var last := LastValue(entries, k);
        if last.Some? then Found(last.value, steps[1..]) else Fails(OutOfRange)
      case _ => Found(v, steps[1..])
  }

  /** The child that a subscript finds. */
  lemma SubscriptFinds(root: Target, at: Path, v: Value, raw: bool, s: Step)
    requires IsPath(root, at) && Get(root, at) == Denote(v, raw)
    ensures var found, next := Found(v, [s]), Subscript(root, at, s);
            if found.Ok? then next.Ok? && Get(root, next.value) == Denote(found.value, raw)
            else next == Fails(found.fault)
  {
    IsPathExtend(root, at, s);
    assert [s][1..] == [];
    if v.DictValue? && s.Key? {
      DenoteEntriesIsLastWins(v.entries, raw, s.k);
    }
    hide LastValue, DenoteEntries;
  }

  lemma FoundFirst(v: Value, steps: seq<Step>)
    requires steps != []
    ensures var first := Found(v, [steps[0]]);
            Found(v, steps) == if first.Ok? then Found(first.value, steps[1..]) else first
  {
    assert [steps[0]][1..] == [];
  }

  lemma {:induction false} WalkFinds(root: Target, at: Path, v: Value, raw: bool, steps: seq<Step>)
    requires IsPath(root, at) && Get(root, at) == Denote(v, raw)
    ensures var found, walked := Found(v, steps), Walked(root, at, steps);
            if found.Ok? then walked.Ok? && Get(root, walked.value) == Denote(found.value, raw)
            else walked == Fails(found.fault)
    decreases steps
  {
    hide Denote, Get, Subscript;
    if steps == [] {
    } else {
      FoundFirst(v, steps);
      SubscriptFinds(root, at, v, raw, steps[0]);
      var first, next := Found(v, [steps[0]]), Subscript(root, at, steps[0]);
      hide Found;
      if first.Ok? {
        WalkFinds(root, next.value, first.value, raw, steps[1..]);
      }
    }
  }

  /** For every well-formed document and any subscripts: after parsing they find the tree of what they mean
      in the document, or throw exactly if they mean nothing. */
  lemma AccessFinds(v: Value, raw: bool, steps: seq<Step>)
    requires WellFormed(v)
    ensures var parsed := Run(Fresh(raw), Encode(v));
            && parsed.Ok?
            && var found := Found(v, steps);
               Lookup(parsed.value.root, steps)
               == if found.Ok? then Ok(Denote(found.value, raw)) else Fails(found.fault)
  {
    ParseEncoded(v, raw);
    WalkFinds(Denote(v, raw), [], v, raw, steps);
    hide Run, Encode, Denote, Walked, Found;
  }

  // ------------------------------------------------------------ documents that are not well-formed

  /** Any byte but a digit ends a length like a `:`, and any byte but a digit and `-` an integer like an
      `e`. */
  lemma DelimitersAreAlike(s: State, c: byte)
    requires Inv(s) && !s.storeRaw && !IsDigit(c)
    ensures s.mode == ParsingWordLength ==> BencodeMachine.ConsumeByte(s, c) == BencodeMachine.ConsumeByte(s, 58)
    ensures s.mode == ParsingInteger && c != 45 ==>
              BencodeMachine.ConsumeByte(s, c) == BencodeMachine.ConsumeByte(s, 101)
  {
    NotedWithoutRaw(s, [c]);
    NotedWithoutRaw(s, [58]);
    NotedWithoutRaw(s, [101]);
    hide Noted, BencodeMachine.SwitchState;
  }

  // ------------------------------------------------------------ a document byte by byte

  const WIKI: seq<byte> := [119, 105, 107, 105]
  const HITS: seq<byte> := [104, 105, 116, 115]
  const CPP: seq<byte> := [67, 43, 43, 50, 48]
  const COOL: seq<byte> := [99, 111, 111, 108]

  /** `i32ei22ed5:C++204:coole` */
  const WRITTEN_ITEMS: seq<byte> :=
    [105, 51, 50, 101] + [105, 50, 50, 101] + ([100] + ([53, 58] + CPP + ([52, 58] + COOL)) + [101])

  /** `d4:wiki4:cool4:hitsli32ei22ed5:C++204:cooleee` */
  const WRITTEN: seq<byte> :=
    [100] + ([52, 58] + WIKI + ([52, 58] + COOL) + ([52, 58] + HITS + ([108] + WRITTEN_ITEMS + [101]))) + [101]

  const ITEMS: seq<Value> := [IntValue(32), IntValue(22), DictValue([Entry(CPP, StrValue(COOL))])]

  const DOCUMENT: Value := DictValue([Entry(WIKI, StrValue(COOL)), Entry(HITS, ListValue(ITEMS))])

  lemma FirstItem(x: Value, rest: seq<Value>)
    ensures EncodeItems([x] + rest) == Encode(x) + EncodeItems(rest)
    ensures ItemsWellFormed([x] + rest) <==> WellFormed(x) && ItemsWellFormed(rest)
  {
    assert ([x] + rest)[1..] == rest;
  }

  lemma NoItems()
    ensures EncodeItems([]) == [] && ItemsWellFormed([])
  {
  }

  lemma ThreeItems(a: Value, b: Value, c: Value)
    ensures EncodeItems([a, b, c]) == Encode(a) + Encode(b) + Encode(c)
    ensures ItemsWellFormed([a, b, c]) <==> WellFormed(a) && WellFormed(b) && WellFormed(c)
  {
    hide Encode, WellFormed, EncodeItems, ItemsWellFormed;
    FirstItem(a, [b, c]);
    FirstItem(b, [c]);
    FirstItem(c, []);
    assert [a] + [b, c] == [a, b, c] && [b] + [c] == [b, c] && [c] + [] == [c];
    NoItems();
  }

  lemma TwoDigits(n: nat)
    requires 10 <= n < 100
    ensures IntText(n) == [48 + n / 10, 48 + n % 10]
  {
    assert Digits(n) == Digits(n / 10) + [48 + n % 10];
  }

  lemma ItemsWritten()
    ensures EncodeItems(ITEMS) == WRITTEN_ITEMS && ItemsWellFormed(ITEMS)
  {
    hide EncodeStr, EncodeEntries, EntriesWellFormed, EncodeItems, ItemsWellFormed, IntText, LastValue;
    TwoDigits(32);
    TwoDigits(22);
    OneEntry(CPP, StrValue(COOL));
    ThreeItems(ITEMS[0], ITEMS[1], ITEMS[2]);
    ShortText(CPP);
    ShortText(COOL);
    assert [105] + [51, 50] + [101] == [105, 51, 50, 101] && [105] + [50, 50] + [101] == [105, 50, 50, 101];
  }

  lemma DocumentWritten()
    ensures Encode(DOCUMENT) == WRITTEN && WellFormed(DOCUMENT)
  {
    ItemsWritten();
    AroundItems(ITEMS);
    hide Encode, WellFormed, EncodeItems, ItemsWellFormed;
  }

  lemma AroundItems(items: seq<Value>)
    ensures var v := DictValue([Entry(WIKI, StrValue(COOL)), Entry(HITS, ListValue(items))]);
            && Encode(v) == [100] + ([52, 58] + WIKI + ([52, 58] + COOL)
                                     + ([52, 58] + HITS + ([108] + EncodeItems(items) + [101]))) + [101]
            && (WellFormed(v) <==> ItemsWellFormed(items))
  {
    hide EncodeStr, EncodeEntries, EntriesWellFormed, EncodeItems, ItemsWellFormed, LastValue;
    TwoEntries(Entry(WIKI, StrValue(COOL)), Entry(HITS, ListValue(items)));
    ShortText(COOL);
    ShortText(WIKI);
    ShortText(HITS);
  }

  /** A document byte by byte: `hits` holds 32, 22 and a dictionary, everything is found as written, and there
      is no fourth item. */
  lemma DocumentRead()
    ensures var parsed := Run(Fresh(false), WRITTEN);
            && parsed.Ok?
            && var root := parsed.value.root;
               && Lookup(root, [Key(WIKI)]) == Ok(StringTarget(COOL))
               && Lookup(root, [Key(HITS), Index(0)]) == Ok(IntegerTarget(32))
               && Lookup(root, [Key(HITS), Index(1)]) == Ok(IntegerTarget(22))
               && Lookup(root, [Key(HITS), Index(2), Key(CPP)]) == Ok(StringTarget(COOL))
               && Lookup(root, [Key(HITS), Index(3)]) == Fails(OutOfRange)
  {
    hide Run, Encode, Lookup, WellFormed;
    DocumentWritten();
    FoundInDocument();
    AccessFinds(DOCUMENT, false, [Key(WIKI)]);
    AccessFinds(DOCUMENT, false, [Key(HITS), Index(0)]);
    AccessFinds(DOCUMENT, false, [Key(HITS), Index(1)]);
    AccessFinds(DOCUMENT, false, [Key(HITS), Index(2), Key(CPP)]);
    AccessFinds(DOCUMENT, false, [Key(HITS), Index(3)]);
    hide Found;
  }

  lemma FoundInDocument()
    ensures Found(DOCUMENT, [Key(WIKI)]) == Ok(StrValue(COOL))
    ensures Found(DOCUMENT, [Key(HITS), Index(0)]) == Ok(IntValue(32))
    ensures Found(DOCUMENT, [Key(HITS), Index(1)]) == Ok(IntValue(22))
    ensures Found(DOCUMENT, [Key(HITS), Index(2), Key(CPP)]) == Ok(StrValue(COOL))
    ensures Found(DOCUMENT, [Key(HITS), Index(3)]) == Fails(OutOfRange)
  {
    hide LastValue, EncodeEntries, EncodeStr;
    assert WIKI[0] != HITS[0];
    OneEntry(CPP, StrValue(COOL));
    TwoEntries(Entry(WIKI, StrValue(COOL)), Entry(HITS, ListValue(ITEMS)));
    assert Found(DOCUMENT, [Key(HITS)]) == Ok(ListValue(ITEMS));
    FoundFirst(DOCUMENT, [Key(HITS), Index(0)]);
    FoundFirst(DOCUMENT, [Key(HITS), Index(1)]);
    FoundFirst(DOCUMENT, [Key(HITS), Index(2), Key(CPP)]);
    FoundFirst(DOCUMENT, [Key(HITS), Index(3)]);
    FoundFirst(ListValue(ITEMS), [Index(2), Key(CPP)]);
    assert [Index(2), Key(CPP)][1..] == [Key(CPP)] && [Key(HITS), Index(2), Key(CPP)][1..] == [Index(2), Key(CPP)];
  }
}
