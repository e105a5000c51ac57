/** Bencoded values: how they are written (BEP 3, section "bencoding") and the tree that a
    parser should make of them. */
module Bencode {
  import opened Basics
  import opened Decimal
  import opened TargetTree

  datatype Value =
    | IntValue(n: int)
    | StrValue(s: seq<byte>)
    | ListValue(items: seq<Value>)
    | DictValue(entries: seq<Entry>)

  datatype Entry = Entry(key: seq<byte>, value: Value)

  function EncodeStr(s: seq<byte>): (bs: seq<byte>) {
    Digits(|s|) + [58] + s
  }

  function Encode(v: Value): (bs: seq<byte>)
    ensures |bs| >= 2
    decreases v
  {
    match v
    case IntValue(n) => [105] + IntText(n) + [101]
    case StrValue(s) => EncodeStr(s)
    case ListValue(items) => [108] + EncodeItems(items) + [101]
    case DictValue(entries) => [100] + EncodeEntries(entries) + [101]
  }

  function EncodeItems(items: seq<Value>): (bs: seq<byte>)
    decreases items
  {
    if items == [] then [] else Encode(items[0]) + EncodeItems(items[1..])
  }

  function EncodeEntries(entries: seq<Entry>): (bs: seq<byte>)
    decreases entries
  {
    if entries == [] then []
    else EncodeStr(entries[0].key) + Encode(entries[0].value) + EncodeEntries(entries[1..])
  }

  /** A string the parser can count down: not empty, and no longer than a `long` can say. */
  predicate StrFits(s: seq<byte>) {
    0 < |s| < TWO_TO_THE_63
  }

  /** Integers that fit 64 bits; strings and keys that fit the countdown. */
  predicate WellFormed(v: Value)
    decreases v
  {
    match v
    case IntValue(n) => IsInt64(n)
    case StrValue(s) => StrFits(s)
    case ListValue(items) => ItemsWellFormed(items)
    case DictValue(entries) => EntriesWellFormed(entries)
  }

  predicate ItemsWellFormed(items: seq<Value>)
    decreases items
  {
    items == [] || (WellFormed(items[0]) && ItemsWellFormed(items[1..]))
  }

  predicate EntriesWellFormed(entries: seq<Entry>)
    decreases entries
  {
    entries == [] ||
    (StrFits(entries[0].key) && WellFormed(entries[0].value) && EntriesWellFormed(entries[1..]))
  }

  /** The tree for a value.  With `raw`, each container carries its own encoding without the
      opening byte. */
  function Denote(v: Value, raw: bool): (t: Target)
    ensures CanHaveChildren(t) <==> v.ListValue? || v.DictValue?
    decreases v
  {
    match v
    case IntValue(n) => IntegerTarget(n)
    case StrValue(s) => StringTarget(s)
    case ListValue(items) =>
      EMPTY_LIST.(list := DenoteItems(items, raw), raw := if raw then Encode(v)[1..] else [])
    case DictValue(entries) =>
      EMPTY_DICT.(dict := DenoteEntries(entries, raw), raw := if raw then Encode(v)[1..] else [])
  }

  function DenoteItems(items: seq<Value>, raw: bool): (ts: seq<Target>)
    ensures |ts| == |items|
    ensures forall i :: 0 <= i < |items| ==> ts[i] == Denote(items[i], raw)
    decreases items
  {
    if items == [] then [] else [Denote(items[0], raw)] + DenoteItems(items[1..], raw)
  }

  // ------------------------------------------------------------ written byte by byte

  lemma ShortText(s: seq<byte>)
    requires |s| < 10
    ensures EncodeStr(s) == [48 + |s|, 58] + s
  {
  }

  lemma OneEntry(key: seq<byte>, v: Value)
    ensures EncodeEntries([Entry(key, v)]) == EncodeStr(key) + Encode(v)
    ensures LastValue([Entry(key, v)], key) == Some(v)
    ensures EntriesWellFormed([Entry(key, v)]) <==> StrFits(key) && WellFormed(v)
  {
    assert [Entry(key, v)][1..] == [];
  }

  lemma TwoEntries(a: Entry, b: Entry)
    ensures EncodeEntries([a, b]) == EncodeStr(a.key) + Encode(a.value) + (EncodeStr(b.key) + Encode(b.value))
    ensures LastValue([a, b], b.key) == Some(b.value)
    ensures a.key != b.key ==> LastValue([a, b], a.key) == Some(a.value)
    ensures EntriesWellFormed([a, b])
       <==> StrFits(a.key) && StrFits(b.key) && WellFormed(a.value) && WellFormed(b.value)
  {
    assert [a, b][1..] == [b] && [a, b][..1] == [a];
    OneEntry(b.key, b.value);
    OneEntry(a.key, a.value);
  }

  /** Later entries override earlier ones with the same key. */
  function DenoteEntries(entries: seq<Entry>, raw: bool): (m: map<seq<byte>, Target>)
    decreases entries
  {
    if entries == [] then map[]
    else map[entries[0].key := Denote(entries[0].value, raw)] + DenoteEntries(entries[1..], raw)
  }

  /** The value of the last entry with a key. */
  function LastValue(entries: seq<Entry>, key: seq<byte>): (v: Option<Value>)
    ensures v.Some? <==> exists i :: 0 <= i < |entries| && entries[i].key == key
    ensures v.Some? ==> exists i :: 0 <= i < |entries| && entries[i] == Entry(key, v.value)
                          && forall j :: i < j < |entries| ==> entries[j].key != key
  {
    if entries == [] then None
    else
      var last := |entries| - 1;
      if entries[last].key == key then
        assert entries[last] == Entry(key, entries[last].value);
        Some(entries[last].value)
      else LastValue(entries[..last], key)
  }

  lemma {:induction false} DenoteEntriesAppend(entries: seq<Entry>, e: Entry, raw: bool)
    ensures DenoteEntries(entries + [e], raw) == DenoteEntries(entries, raw)[e.key := Denote(e.value, raw)]
  {
    if entries == [] {
      assert entries + [e] == [e] && [e][1..] == [];
    } else {
      assert (entries + [e])[0] == entries[0] && (entries + [e])[1..] == entries[1..] + [e];
      DenoteEntriesAppend(entries[1..], e, raw);
    }
  }

  /** The dictionary of a tree holds exactly the keys written, each with its last value. */
  lemma {:induction false} DenoteEntriesIsLastWins(entries: seq<Entry>, raw: bool, key: seq<byte>)
    ensures key in DenoteEntries(entries, raw) <==> LastValue(entries, key).Some?
    ensures LastValue(entries, key).Some? ==>
              DenoteEntries(entries, raw)[key] == Denote(LastValue(entries, key).value, raw)
  {
    if entries == [] {
    } else {
      var last := |entries| - 1;
      assert entries == entries[..last] + [entries[last]];
      DenoteEntriesAppend(entries[..last], entries[last], raw);
      DenoteEntriesIsLastWins(entries[..last], raw, key);
    }
  }

  /** Looking a key up in the tree of a dictionary finds the tree of its last value. */
  lemma KindsOfEntry(entries: seq<Entry>, raw: bool, key: seq<byte>)
    ensures key in DenoteEntries(entries, raw) <==> LastValue(entries, key).Some?
    ensures LastValue(entries, key).Some? ==>
              var v, t := LastValue(entries, key).value, DenoteEntries(entries, raw)[key];
              && t == Denote(v, raw)
              && (t.kind == Strings <==> v.StrValue?) && (t.kind == Integers <==> v.IntValue?)
              && (t.kind == Dictionaries <==> v.DictValue?)
              && (v.DictValue? ==> t.dict == DenoteEntries(v.entries, raw))
  {
    DenoteEntriesIsLastWins(entries, raw, key);
  }
}
