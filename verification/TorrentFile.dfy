/** Loading a `.torrent` file: validation, the announce address, the piece length, and the
    reconstruction of the bytes that the info hash is taken over. */
module TorrentFile {
  import opened Basics
  import opened Decimal
  import opened TargetTree
  import opened Bencode
  import opened BencodeMachine
  import opened BencodeTheorems
  import opened BencodeMap

  const ANNOUNCE: seq<byte> := Ascii("announce")
  const INFO: seq<byte> := Ascii("info")
  const PIECE_LENGTH: seq<byte> := Ascii("piece length")
  const PIECES: seq<byte> := Ascii("pieces")

  /** A dictionary with an integer and a string under two keys. */
  predicate InfoShape(info: Target, length: seq<byte>, pieces: seq<byte>) {
    && info.kind == Dictionaries
    && length in info.dict && info.dict[length].kind == Integers
    && pieces in info.dict && info.dict[pieces].kind == Strings
  }

  /** A dictionary with a string, and a dictionary with an integer and a string, under the four keys. */
  predicate TorrentShape(root: Target) {
    && root.kind == Dictionaries
    && ANNOUNCE in root.dict && root.dict[ANNOUNCE].kind == Strings
    && INFO in root.dict && InfoShape(root.dict[INFO], PIECE_LENGTH, PIECES)
  }

  /** What a dictionary must hold of two keys; only the last value of a key counts. */
  predicate InfoValue(v: Value, length: seq<byte>, pieces: seq<byte>) {
    && v.DictValue?
    && LastValue(v.entries, length).Some? && LastValue(v.entries, length).value.IntValue?
    && LastValue(v.entries, pieces).Some? && LastValue(v.entries, pieces).value.StrValue?
  }

  /** What a dictionary written in a file must hold to be a torrent. */
  predicate TorrentValue(v: Value) {
    && v.DictValue?
    && var announce, info := LastValue(v.entries, ANNOUNCE), LastValue(v.entries, INFO);
       && announce.Some? && announce.value.StrValue?
       && info.Some? && InfoValue(info.value, PIECE_LENGTH, PIECES)
  }

  lemma InfoOfValue(v: Value, raw: bool, length: seq<byte>, pieces: seq<byte>)
    ensures InfoShape(Denote(v, raw), length, pieces) <==> InfoValue(v, length, pieces)
  {
    if v.DictValue? {
      KindsOfEntry(v.entries, raw, length);
      KindsOfEntry(v.entries, raw, pieces);
      assert Denote(v, raw).dict == DenoteEntries(v.entries, raw);
      hide DenoteEntries, LastValue;
    }
  }

  lemma ShapeOfValue(v: Value, raw: bool)
    ensures TorrentShape(Denote(v, raw)) <==> TorrentValue(v)
  {
    hide Ascii, InfoShape, InfoValue;
    if v.DictValue? {
      KindsOfEntry(v.entries, raw, ANNOUNCE);
      KindsOfEntry(v.entries, raw, INFO);
      var info := LastValue(v.entries, INFO);
      if info.Some? {
        InfoOfValue(info.value, raw, PIECE_LENGTH, PIECES);
      }
      assert Denote(v, raw).dict == DenoteEntries(v.entries, raw);
      hide DenoteEntries, LastValue, Denote;
    }
  }

  /** `validate_torrent_bencode_map`: it says yes exactly to trees of the required shape.  It may
      throw on others, when a key is missing, and it leaves the cursor at the root otherwise. */
  method Validate(bencode: BencodeMap) returns (r: Outcome<bool>)
    requires bencode.Valid() && bencode.CursorSet() && bencode.bracketRoot == Some([])
    modifies bencode`bracketRoot
    ensures bencode.CursorSet()
    ensures r.Ok? ==> bencode.bracketRoot == Some([])
    ensures r == Ok(true) <==> TorrentShape(bencode.root)
    ensures r.Fails? ==> r.fault == OutOfRange
  {
    var root := bencode.root;
    if root.kind == Dictionaries {
      Lookup1(root, Key(ANNOUNCE));
      Lookup1(root, Key(INFO));
    } else {
      LookupIgnored(root, Key(ANNOUNCE));
      LookupIgnored(root, Key(INFO));
    }
    var announce := bencode.TypeAt([Key(ANNOUNCE)]);
    if announce.Fails? || announce.value != Strings {
      return if announce.Fails? then Fails(announce.fault) else Ok(false);
    }
    var info := bencode.TypeAt([Key(INFO)]);
    if info.Fails? || info.value != Dictionaries {
      return if info.Fails? then Fails(info.fault) else Ok(false);
    }
    Lookup2(root, Key(INFO), Key(PIECE_LENGTH));
    Lookup2(root, Key(INFO), Key(PIECES));
    var length := bencode.TypeAt([Key(INFO), Key(PIECE_LENGTH)]);
    if length.Fails? || length.value != Integers {
      return if length.Fails? then Fails(length.fault) else Ok(false);
    }
    var pieces := bencode.TypeAt([Key(INFO), Key(PIECES)]);
    if pieces.Fails? || pieces.value != Strings {
      return if pieces.Fails? then Fails(pieces.fault) else Ok(false);
    }
    return Ok(true);
  }

  datatype Loading = Loaded | NoSuchFile | MissingInformation

  class TorrentFile {
    const bencode: BencodeMap
    var trackers: seq<seq<byte>>
    var fileHash: seq<byte>
    var pieceLength: nat

    ghost predicate Valid()
      reads this, bencode
    {
      bencode.Valid()
    }

    constructor ()
      ensures Valid() && fresh(bencode) && bencode.Snapshot() == Fresh(false)
      ensures trackers == [] && pieceLength == 0 && fileHash == []
    {
      bencode := new BencodeMap();
      trackers, fileHash, pieceLength := [], [], 0;
    }

    /** `from_path` on the content of a file, if there is one.  `sha1` stands for the hash function. */
    method FromPath(content: Option<seq<byte>>, sha1: seq<byte> -> seq<byte>) returns (r: Outcome<Loading>)
      requires Valid()
      modifies this, bencode
      ensures r == Ok(NoSuchFile) <==> content.None?
      ensures content.Some? ==>
                var parsed := Run(old(bencode.Snapshot()).(storeRaw := true), content.value);
                && (parsed.Fails? ==> r == Fails(parsed.fault))
                && (parsed.Ok? ==> Valid() && bencode.Snapshot() == parsed.value)
                && (r == Ok(Loaded) <==> parsed.Ok? && TorrentShape(parsed.value.root))
      ensures r == Ok(Loaded) ==>
                && TorrentShape(bencode.root)
                && var info := bencode.root.dict[INFO];
                   && pieceLength == ToSizeT(info.dict[PIECE_LENGTH].number)
                   && fileHash == sha1([100] + info.raw)
                   && trackers == old(trackers) + [bencode.root.dict[ANNOUNCE].text]
      ensures r != Ok(Loaded) ==> trackers == old(trackers) && fileHash == old(fileHash)
                                  && pieceLength == old(pieceLength)
      ensures old(bencode.Snapshot()) == Fresh(false) ==>
                forall v :: content == Some(Encode(v)) && WellFormed(v) ==>
                  && (r == Ok(Loaded) <==> TorrentValue(v))
                  && (TorrentValue(v) ==>
                        var info := LastValue(v.entries, INFO).value;
                        && pieceLength == ToSizeT(LastValue(info.entries, PIECE_LENGTH).value.n)
                        && fileHash == sha1(Encode(info))
                        && trackers == old(trackers) + [LastValue(v.entries, ANNOUNCE).value.s])
    {
      hide Run, Encode, WellFormed, TorrentShape, TorrentValue;
      forall v | content == Some(Encode(v)) && WellFormed(v)
        ensures Run(Fresh(true), content.value).Ok?
        ensures var root := Run(Fresh(true), content.value).value.root;
                (TorrentShape(root) <==> TorrentValue(v)) && (TorrentValue(v) ==> HoldsTorrent(root, v))
      {
        LoadsExactlyTorrents(v);
      }
      if content.None? {
        return Ok(NoSuchFile);
      }
      bencode.StoreRawBencode();
      var parsed := bencode.FromBuffer(content.value);
      if parsed.Fails? {
        return Fails(parsed.fault);
      }
      var valid := Validate(bencode);
      if valid.Fails? {
        return Fails(valid.fault);
      }
      if !valid.value {
        return Ok(MissingInformation);
      }
      r := Read(sha1);
    }

    /** The accesses after validation: none of their assertions can fail. */
    method Read(sha1: seq<byte> -> seq<byte>) returns (r: Outcome<Loading>)
      requires Valid() && bencode.CursorSet() && bencode.bracketRoot == Some([])
      requires TorrentShape(bencode.root)
      modifies this, bencode`bracketRoot
      ensures r == Ok(Loaded) && Valid()
      ensures var info := bencode.root.dict[INFO];
              && pieceLength == ToSizeT(info.dict[PIECE_LENGTH].number)
              && fileHash == sha1([100] + info.raw)
      ensures trackers == old(trackers) + [bencode.root.dict[ANNOUNCE].text]
    {
      hide Ascii, Lookup, Get, IsPath, Inv;
      var root := bencode.root;
      Lookup2(root, Key(INFO), Key(PIECE_LENGTH));
      var length := bencode.IntAt([Key(INFO), Key(PIECE_LENGTH)]);
      pieceLength := ToSizeT(length.value);

      Lookup1(root, Key(INFO));
      var infoRaw := bencode.RawAt([Key(INFO)]);
      fileHash := sha1([100] + infoRaw.value);

      Lookup1(root, Key(ANNOUNCE));
      var announce := bencode.StrAt([Key(ANNOUNCE)]);
      trackers := trackers + [announce.value];
      return Ok(Loaded);
    }
  }

  /** The tree holds what the torrent says, and its record of `info` with a `d` in front, the
      bytes that are hashed, is the encoding of the `info` value. */
  predicate HoldsTorrent(root: Target, v: Value)
    requires TorrentValue(v)
  {
    && TorrentShape(root)
    && var info := LastValue(v.entries, INFO).value;
       && [100] + root.dict[INFO].raw == Encode(info)
       && root.dict[INFO].dict[PIECE_LENGTH].number == LastValue(info.entries, PIECE_LENGTH).value.n
       && root.dict[ANNOUNCE].text == LastValue(v.entries, ANNOUNCE).value.s
  }

  lemma TreeHoldsTorrent(v: Value)
    requires TorrentValue(v)
    ensures HoldsTorrent(Denote(v, true), v)
  {
    ShapeOfValue(v, true);
    KindsOfEntry(v.entries, true, INFO);
    KindsOfEntry(v.entries, true, ANNOUNCE);
    var info := LastValue(v.entries, INFO).value;
    KindsOfEntry(info.entries, true, PIECE_LENGTH);
    InfoRecord(info);
  }

  lemma InfoRecord(info: Value)
    requires info.DictValue?
    ensures [100] + Denote(info, true).raw == Encode(info)
  {
    var body := EncodeEntries(info.entries) + [101];
    assert Encode(info) == [100] + body;
    assert Encode(info)[1..] == body;
  }

  /** A file that holds one well-formed value loads exactly if the value is a torrent.  Then the
      bytes that are hashed are the encoding of the value of `info`, a slice of the file. */
  lemma LoadsExactlyTorrents(v: Value)
    requires WellFormed(v)
    ensures var parsed := Run(Fresh(true), Encode(v));
            && parsed.Ok?
            && (TorrentShape(parsed.value.root) <==> TorrentValue(v))
            && (TorrentValue(v) ==> HoldsTorrent(parsed.value.root, v)
                                    && Slice(Encode(LastValue(v.entries, INFO).value), Encode(v)))
  {
    ParseEncoded(v, true);
    hide Run, Encode, Denote;
    ShapeOfValue(v, true);
    if TorrentValue(v) {
      TreeHoldsTorrent(v);
      InfoSlice(v);
    }
  }

  lemma InfoSlice(v: Value)
    requires TorrentValue(v)
    ensures Slice(Encode(LastValue(v.entries, INFO).value), Encode(v))
  {
    var info := LastValue(v.entries, INFO).value;
    var i :| 0 <= i < |v.entries| && v.entries[i] == Entry(INFO, info);
    EntrySlice(v.entries, i);
    SliceInside(Encode(info), [100], EncodeEntries(v.entries), [101]);
  }

  // ------------------------------------------------------------ a file byte by byte

  /** The keys, letter by letter. */
  lemma Keys()
    ensures ANNOUNCE == [97, 110, 110, 111, 117, 110, 99, 101] && INFO == [105, 110, 102, 111]
    ensures PIECE_LENGTH == [112, 105, 101, 99, 101, 32, 108, 101, 110, 103, 116, 104]
    ensures PIECES == [112, 105, 101, 99, 101, 115]
  {
    hide Ascii;
  }

  /** `12:piece lengthi16384e` */
  const LENGTH_WRITTEN: seq<byte> :=
    [49, 50, 58] + [112, 105, 101, 99, 101, 32, 108, 101, 110, 103, 116, 104] + [105, 49, 54, 51, 56, 52, 101]

  /** `6:pieces1:y` */
  const PIECES_WRITTEN: seq<byte> := [54, 58] + [112, 105, 101, 99, 101, 115] + ([49, 58] + [121])

  /** `8:announce1:x4:info` */
  const ANNOUNCE_WRITTEN: seq<byte> := [56, 58] + [97, 110, 110, 111, 117, 110, 99, 101] + ([49, 58] + [120])
  const INFO_WRITTEN: seq<byte> := [52, 58] + [105, 110, 102, 111]

  /** `d12:piece lengthi16384e6:pieces1:ye` */
  const SMALL_INFO: seq<byte> := [100] + (LENGTH_WRITTEN + PIECES_WRITTEN) + [101]

  /** `d8:announce1:x4:infod12:piece lengthi16384e6:pieces1:yee` */
  const SMALL_TORRENT: seq<byte> := [100] + (ANNOUNCE_WRITTEN + (INFO_WRITTEN + SMALL_INFO)) + [101]

  const SMALL_INFO_VALUE: Value := DictValue([Entry(PIECE_LENGTH, IntValue(16384)), Entry(PIECES, StrValue([121]))])

  const SMALL_VALUE: Value := DictValue([Entry(ANNOUNCE, StrValue([120])), Entry(INFO, SMALL_INFO_VALUE)])

  lemma SmallInfo()
    ensures Encode(SMALL_INFO_VALUE) == SMALL_INFO && WellFormed(SMALL_INFO_VALUE)
    ensures InfoValue(SMALL_INFO_VALUE, PIECE_LENGTH, PIECES)
    ensures LastValue(SMALL_INFO_VALUE.entries, PIECE_LENGTH) == Some(IntValue(16384))
  {
    hide Ascii, EncodeEntries, EncodeStr, LastValue, EntriesWellFormed, IntText;
    Keys();
    TwoEntries(Entry(PIECE_LENGTH, IntValue(16384)), Entry(PIECES, StrValue([121])));
    ShortText(PIECES);
    ShortText([121]);
    LongText(PIECE_LENGTH);
    Written16384();
    assert [105, 49, 54, 51, 56, 52, 101] == [105] + [49, 54, 51, 56, 52] + [101];
  }

  lemma Written16384()
    ensures IntText(16384) == [49, 54, 51, 56, 52]
  {
    PrintedNumbers();
    hide Digits;
  }

  lemma LongText(s: seq<byte>)
    requires |s| == 12
    ensures EncodeStr(s) == [49, 50, 58] + s
  {
    assert Digits(12) == Digits(1) + [50];
  }

  lemma SmallValue()
    ensures Encode(SMALL_VALUE) == SMALL_TORRENT && WellFormed(SMALL_VALUE) && TorrentValue(SMALL_VALUE)
    ensures LastValue(SMALL_VALUE.entries, ANNOUNCE) == Some(StrValue([120]))
    ensures LastValue(SMALL_VALUE.entries, INFO) == Some(SMALL_INFO_VALUE)
  {
    hide Ascii, Encode, LastValue, WellFormed, InfoValue;
    SmallInfo();
    AroundInfo(SMALL_INFO_VALUE);
  }

  lemma AroundInfo(info: Value)
    ensures var v := DictValue([Entry(ANNOUNCE, StrValue([120])), Entry(INFO, info)]);
            && Encode(v) == [100] + (ANNOUNCE_WRITTEN + (INFO_WRITTEN + Encode(info))) + [101]
            && (WellFormed(v) <==> WellFormed(info))
            && LastValue(v.entries, ANNOUNCE) == Some(StrValue([120])) && LastValue(v.entries, INFO) == Some(info)
  {
    hide Ascii, EncodeEntries, EncodeStr, LastValue, EntriesWellFormed;
    Keys();
    TwoEntries(Entry(ANNOUNCE, StrValue([120])), Entry(INFO, info));
    ShortText(ANNOUNCE);
    ShortText([120]);
    ShortText(INFO);
  }

  /** A file byte by byte: it is parsed into a tree that loads, and what is read of it is written there. */
  lemma SmallTorrentLoads()
    ensures var parsed := Run(Fresh(true), SMALL_TORRENT);
            && parsed.Ok? && TorrentShape(parsed.value.root)
            && parsed.value.root.dict[ANNOUNCE].text == [120]
            && var info := parsed.value.root.dict[INFO];
               info.dict[PIECE_LENGTH].number == 16384 && [100] + info.raw == SMALL_INFO
  {
    SmallInfo();
    SmallValue();
    LoadsExactlyTorrents(SMALL_VALUE);
    hide Run, Encode, LastValue, Ascii, WellFormed;
  }
}
