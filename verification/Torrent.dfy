/**
 Torrent files: the info hash is taken over the raw bytes of the info dictionary, and a
 magnet task's metadata is written back as a torrent file by hand-built concatenation.
 SHA-1, the UTF-8 test and the field checks of `parse_info` are parameters.
 */
module Torrent {
  import opened Bytes
  import opened Bencode

  datatype Env = Env(sha1: bytes -> bytes, utf8: bytes -> bool, infoOk: Value -> bool)

  datatype Meta = Meta(
    rawInfo: bytes,
    info: Value,
    infoHash: bytes,
    announce: Option<bytes>,
    comment: Option<bytes>,
    createdBy: Option<bytes>)

  datatype ParseError = Malformed(error: Error) | MissingInfo | TrailingBytes | BadInfo

  const INFO := Ascii("info")
  const ANNOUNCE := Ascii("announce")
  const COMMENT := Ascii("comment")
  const CREATED_BY := Ascii("created by")

  /** `dict.get(key).and_then(as_str)` */
  function TextField(env: Env, es: seq<Entry>, key: bytes): Option<bytes> {
    match Lookup(es, key)
    case Some(Str(s)) => if env.utf8(s) then Some(s) else None
    case _ => None
  }

  function ParseTorrent(env: Env, s: bytes): Result<Meta, ParseError> {
    match ParseRoot(s)
    case Err(e) => Err(Malformed(e))
    case Ok(root) =>
      RootRangesDecode(s);
      if INFO !in root.ranges then Err(MissingInfo)
      else
        var (a, b) := root.ranges[INFO];
        var raw := s[a..b];
        var info := Lookup(root.entries, INFO).value;
        if !info.Dict? || !env.infoOk(info) then Err(BadInfo)
        else Ok(Meta(raw, info, env.sha1(raw),
                     TextField(env, root.entries, ANNOUNCE),
                     TextField(env, root.entries, COMMENT),
                     TextField(env, root.entries, CREATED_BY)))
  }

  /** The info dictionary alone, as the metadata exchange delivers it. */
  function ParseInfoBytes(env: Env, s: bytes): Result<Meta, ParseError> {
    match DecodePrefix(s)
    case Err(e) => Err(Malformed(e))
    case Ok((v, n)) =>
      if n != |s| then Err(TrailingBytes)
      else if !v.Dict? || !env.infoOk(v) then Err(BadInfo)
      else Ok(Meta(s, v, env.sha1(s), None, None, None))
  }

  /** The info hash covers the very bytes of the file, not a re-encoding of the value. */
  lemma InfoHashOfRawBytes(env: Env, s: bytes)
    requires ParseTorrent(env, s).Ok?
    ensures var m := ParseTorrent(env, s).value;
            && (exists a, b :: 0 <= a < b <= |s| && m.rawInfo == s[a..b])
            && m.infoHash == env.sha1(m.rawInfo)
            && ParseInfoBytes(env, m.rawInfo) == Ok(m.(announce := None, comment := None, createdBy := None))
  {
    RootRangesDecode(s);
    var root := ParseRoot(s).value;
    var (a, b) := root.ranges[INFO];
    assert RangeDecodes(s, root.ranges[INFO], Lookup(root.entries, INFO).value);
    assert ParseTorrent(env, s).value.rawInfo == s[a..b];
  }

  /** A file is accepted exactly when it is one dictionary with a good info dictionary anywhere in it. */
  lemma AcceptedIff(env: Env, s: bytes)
    ensures ParseTorrent(env, s).Ok? <==>
            (Decode(s).Ok? && Decode(s).value.Dict?
             && (var info := Lookup(Decode(s).value.entries, Ascii("info")); info.Some? && info.value.Dict? && env.infoOk(info.value)))
    ensures ParseTorrent(env, s).Ok? ==> Some(ParseTorrent(env, s).value.info) == Lookup(Decode(s).value.entries, Ascii("info"))
  {
    hide Decode, ParseRoot, Lookup, TextField;
    RootIsDecode(s);
    if ParseRoot(s).Ok? {
      RootRangesDecode(s);
    }
  }

  /** Its optional texts are those of its keys that hold strings of valid UTF-8. */
  lemma TextsIff(env: Env, s: bytes, t: bytes)
    requires ParseTorrent(env, s).Ok?
    ensures Decode(s).Ok? && Decode(s).value.Dict?
    ensures var m, es := ParseTorrent(env, s).value, Decode(s).value.entries;
            && (m.announce == Some(t) <==> Lookup(es, Ascii("announce")) == Some(Str(t)) && env.utf8(t))
            && (m.comment == Some(t) <==> Lookup(es, Ascii("comment")) == Some(Str(t)) && env.utf8(t))
            && (m.createdBy == Some(t) <==> Lookup(es, Ascii("created by")) == Some(Str(t)) && env.utf8(t))
  {
    hide Decode, ParseRoot, Lookup, TextField;
    RootIsDecode(s);
    var es := ParseRoot(s).value.entries;
    RootRangesDecode(s);
    TextIs(env, es, ANNOUNCE, t);
    TextIs(env, es, COMMENT, t);
    TextIs(env, es, CREATED_BY, t);
  }

  lemma TextIs(env: Env, es: seq<Entry>, key: bytes, t: bytes)
    ensures TextField(env, es, key) == Some(t) <==> Lookup(es, key) == Some(Str(t)) && env.utf8(t)
  {
    hide Lookup;
  }

  /** An info dictionary on its own is accepted exactly when nothing stands behind it, and hashed as it came. */
  lemma InfoAloneIff(env: Env, s: bytes)
    ensures ParseInfoBytes(env, s).Ok? <==> Decode(s).Ok? && Decode(s).value.Dict? && env.infoOk(Decode(s).value)
    ensures ParseInfoBytes(env, s).Ok? ==>
              var m := ParseInfoBytes(env, s).value;
              m.rawInfo == s && m.info == Decode(s).value && m.infoHash == env.sha1(s)
  {
  }

  // Writing the file -------------------------------------------------------------

  function OptField(lead: bytes, o: Option<bytes>): bytes {
    match o
    case None => []
    case Some(v) => lead + (Digits(|v|) + [CH_COLON]) + v
  }

  /** `save_torrent_file`: info first, so the keys are not in sorted order. */
  function SaveTorrent(m: Meta): bytes {
    Ascii("d4:info") + m.rawInfo
    + OptField(Ascii("8:announce"), m.announce)
    + OptField(Ascii("7:comment"), m.comment)
    + OptField(Ascii("10:created by"), m.createdBy)
    + [CH_E]
  }

  /** The same bytes, read as a sequence of bencoded keys and values. */
  function Field(key: bytes, o: Option<bytes>): bytes {
    match o
    case None => []
    case Some(v) => EncodeStr(key) + EncodeStr(v)
  }

  function Tail3(m: Meta): bytes { Field(CREATED_BY, m.createdBy) + [CH_E] }
  function Tail2(m: Meta): bytes { Field(COMMENT, m.comment) + Tail3(m) }
  function Tail1(m: Meta): bytes { Field(ANNOUNCE, m.announce) + Tail2(m) }

  lemma LabelsAreKeys()
    ensures Ascii("8:announce") == EncodeStr(ANNOUNCE) && Ascii("7:comment") == EncodeStr(COMMENT)
    ensures Ascii("10:created by") == EncodeStr(CREATED_BY) && Ascii("4:info") == EncodeStr(INFO)
    ensures Ascii("d4:info") == [CH_D] + EncodeStr(INFO)
  {
    assert Digits(8) == [56] && Digits(7) == [55] && Digits(4) == [52];
    assert Ascii("8:announce") == [56] + [CH_COLON] + ANNOUNCE;
    assert Ascii("7:comment") == [55] + [CH_COLON] + COMMENT;
    assert Ascii("4:info") == [52] + [CH_COLON] + INFO;
    assert Ascii("d4:info") == [CH_D] + Ascii("4:info");
    LongestLabel();
  }

  lemma LongestLabel()
    ensures Ascii("10:created by") == EncodeStr(CREATED_BY)
  {
    assert Digits(10) == Digits(1) + [48] == [49, 48];
    assert Ascii("10:created by") == [49, 48] + [CH_COLON] + CREATED_BY;
  }

  lemma KeysDiffer()
    ensures INFO != ANNOUNCE && INFO != COMMENT && INFO != CREATED_BY
    ensures ANNOUNCE != COMMENT && ANNOUNCE != CREATED_BY && COMMENT != CREATED_BY
  {
    assert |INFO| == 4 && |ANNOUNCE| == 8 && |COMMENT| == 7 && |CREATED_BY| == 10;
  }

  lemma FieldIsOptField(key: bytes, lead: bytes, o: Option<bytes>)
    requires lead == EncodeStr(key)
    ensures OptField(lead, o) == Field(key, o)
  {
    if o.Some? {
      assert OptField(lead, o) == lead + (Digits(|o.value|) + [CH_COLON] + o.value);
    }
  }

  lemma SaveShape(m: Meta)
    ensures SaveTorrent(m) == [CH_D] + (EncodeStr(INFO) + (m.rawInfo + Tail1(m)))
  {
    LabelsAreKeys();
    FieldIsOptField(ANNOUNCE, Ascii("8:announce"), m.announce);
    FieldIsOptField(COMMENT, Ascii("7:comment"), m.comment);
    FieldIsOptField(CREATED_BY, Ascii("10:created by"), m.createdBy);
    var a, c, b := Field(ANNOUNCE, m.announce), Field(COMMENT, m.comment), Field(CREATED_BY, m.createdBy);
    Reassociate([CH_D], EncodeStr(INFO), m.rawInfo, a, c, b, [CH_E]);
  }

  lemma Reassociate(d: bytes, k: bytes, r: bytes, a: bytes, c: bytes, b: bytes, e: bytes)
    ensures (d + k) + r + a + c + b + e == d + (k + (r + (a + (c + (b + e)))))
  {
  }

  /** The saver's strings are Rust strings: valid UTF-8 and no longer than a slice can be. */
  predicate TextOk(env: Env, o: Option<bytes>) {
    o.Some? ==> env.utf8(o.value) && |o.value| <= U64_MAX
  }

  /** Reading one key and value at the top level. */
  lemma RootStep(t: bytes, q: nat, acc: seq<Entry>, ranges: Ranges, key: bytes, v: Value, r: nat)
    requires |key| <= U64_MAX && At(t, q, EncodeStr(key))
    requires q + |EncodeStr(key)| <= |t| && ParseValue(t, q + |EncodeStr(key)|, 1) == Ok((v, r))
    ensures ParseRootEntries(t, q, acc, ranges)
         == ParseRootEntries(t, r, Insert(acc, key, v), ranges[key := (q + |EncodeStr(key)|, r)])
  {
    hide At, ParseValue, ParseRaw, Insert;
    StrAt(t, q, key);
  }

  lemma FieldStep(t: bytes, q: nat, acc: seq<Entry>, ranges: Ranges, key: bytes, o: Option<bytes>, tail: bytes)
    returns (q': nat, acc': seq<Entry>, ranges': Ranges)
    requires |key| <= U64_MAX && (o.Some? ==> |o.value| <= U64_MAX) && Sorted(acc)
    requires At(t, q, Field(key, o) + tail)
    ensures At(t, q', tail) && Sorted(acc') && q' <= |t| && q' == q + |Field(key, o)|
    ensures q <= |t| && ParseRootEntries(t, q, acc, ranges) == ParseRootEntries(t, q', acc', ranges')
    ensures forall k :: k != key ==> Lookup(acc', k) == Lookup(acc, k) && (k in ranges' <==> k in ranges)
                                     && (k in ranges ==> ranges'[k] == ranges[k])
    ensures Lookup(acc', key) == match o case None => Lookup(acc, key) case Some(v) => Some(Str(v))
  {
    hide At, ParseRootEntries, ParseValue, Insert, Lookup, EncodeStr, Sorted;
    match o
    case None =>
      assert Field(key, o) + tail == tail;
      AtBounds(t, q, tail);
      q', acc', ranges' := q, acc, ranges;
    case Some(v) =>
      var k, x := EncodeStr(key), EncodeStr(v);
      assert Field(key, o) + tail == k + (x + tail);
      AtSplit(t, q, k, x + tail);
      AtSplit(t, q + |k|, x, tail);
      q' := q + |k| + |x|;
      acc' := Insert(acc, key, Str(v));
      ranges' := ranges[key := (q + |k|, q')];
      EncodeHead(Str(v));
      AtBounds(t, q', tail);
      ValueAt(Str(v), t, q + |k|, 1);
      RootStep(t, q, acc, ranges, key, Str(v), q');
      forall k' ensures Lookup(acc', k') == if k' == key then Some(Str(v)) else Lookup(acc, k') {
        InsertIsUpdate(acc, key, Str(v), k');
      }
      InsertIsUpdate(acc, key, Str(v), key);
  }

  /** Everything after the info dictionary is read back field by field. */
  lemma TailParses(env: Env, m: Meta, t: bytes, q: nat, acc: seq<Entry>, ranges: Ranges)
    requires TextOk(env, m.announce) && TextOk(env, m.comment) && TextOk(env, m.createdBy)
    requires Sorted(acc) && At(t, q, Tail1(m)) && q + |Tail1(m)| == |t|
    requires Lookup(acc, ANNOUNCE) == Lookup(acc, COMMENT) == Lookup(acc, CREATED_BY) == None
    requires INFO in ranges
    ensures ParseRootEntries(t, q, acc, ranges).Ok?
    ensures var root := ParseRootEntries(t, q, acc, ranges).value;
            && INFO in root.ranges && root.ranges[INFO] == ranges[INFO]
            && Lookup(root.entries, INFO) == Lookup(acc, INFO)
            && TextField(env, root.entries, ANNOUNCE) == m.announce
            && TextField(env, root.entries, COMMENT) == m.comment
            && TextField(env, root.entries, CREATED_BY) == m.createdBy
  {
    hide At, ParseRootEntries, Field, Sorted, Lookup, EncodeStr;
    KeysDiffer();
    var q1, acc1, rs1 := FieldStep(t, q, acc, ranges, ANNOUNCE, m.announce, Tail2(m));
    var q2, acc2, rs2 := FieldStep(t, q1, acc1, rs1, COMMENT, m.comment, Tail3(m));
    var q3, acc3, rs3 := FieldStep(t, q2, acc2, rs2, CREATED_BY, m.createdBy, [CH_E]);
    EndAt(t, q3, acc3, rs3);
  }

  lemma EndAt(t: bytes, q: nat, acc: seq<Entry>, ranges: Ranges)
    requires At(t, q, [CH_E]) && q + 1 == |t|
    ensures ParseRootEntries(t, q, acc, ranges) == Ok(Root(acc, ranges))
  {
    AtIndex(t, q, [CH_E], 0);
  }

  lemma SaveLayout(m: Meta)
    ensures var t := SaveTorrent(m);
            && |t| == 7 + |m.rawInfo| + |Tail1(m)| && t[0] == CH_D && t[7..7 + |m.rawInfo|] == m.rawInfo
            && At(t, 1, EncodeStr(INFO)) && |EncodeStr(INFO)| == 6
            && At(t, 7, m.rawInfo) && At(t, 7 + |m.rawInfo|, Tail1(m))
  {
    hide At, SaveTorrent, Tail1, EncodeStr;
    var t, raw := SaveTorrent(m), m.rawInfo;
    SaveShape(m);
    LabelsAreKeys();
    AtSlice(t, 0, |t|);
    assert t[0..|t|] == t;
    AtSplit(t, 0, [CH_D], EncodeStr(INFO) + (raw + Tail1(m)));
    AtSplit(t, 1, EncodeStr(INFO), raw + Tail1(m));
    AtSplit(t, 7, raw, Tail1(m));
    AtBounds(t, 7, raw);
  }

  lemma InfoStep(m: Meta, v: Value)
    requires DecodePrefix(m.rawInfo) == Ok((v, |m.rawInfo|))
    ensures var t := SaveTorrent(m);
            && 7 + |m.rawInfo| <= |t|
            && (if Nesting(m.rawInfo, 0, 0) < MAX_DEPTH
                then ParseRoot(t) == ParseRootEntries(t, 7 + |m.rawInfo|, [Entry(INFO, v)], map[INFO := (7, 7 + |m.rawInfo|)])
                else ParseRoot(t).Err?)
  {
    hide At, ParseValue, ParseRoot, ParseRootEntries, Nesting, SaveTorrent, EncodeStr;
    SaveLayout(m);
    InfoAtDepthOne(m.rawInfo, v, SaveTorrent(m), 7);
    RootFirst(SaveTorrent(m), v, 7 + |m.rawInfo|);
  }

  lemma RootFirst(t: bytes, v: Value, r: nat)
    requires |t| >= 7 && t[0] == CH_D && At(t, 1, EncodeStr(INFO)) && |EncodeStr(INFO)| == 6
    ensures ParseValue(t, 7, 1) == Ok((v, r)) ==>
              r <= |t| && ParseRoot(t) == ParseRootEntries(t, r, [Entry(INFO, v)], map[INFO := (7, r)])
    ensures ParseValue(t, 7, 1).Err? ==> ParseRoot(t).Err?
  {
    hide At, ParseValue, ParseRaw;
    StrAt(t, 1, INFO);
    if ParseValue(t, 7, 1) == Ok((v, r)) {
      RootStep(t, 1, [], map[], INFO, v, r);
    }
  }

  /** Raw info accepted at depth 0 is accepted one level down exactly when it nests less than 64 deep. */
  lemma InfoAtDepthOne(raw: bytes, v: Value, t: bytes, q: nat)
    requires DecodePrefix(raw) == Ok((v, |raw|)) && At(t, q, raw) && q <= |t|
    ensures if Nesting(raw, 0, 0) < MAX_DEPTH then ParseValue(t, q, 1) == Ok((v, q + |raw|)) else ParseValue(t, q, 1).Err?
  {
    hide ParseValue, At, Nesting;
    assert raw[0..|raw|] == raw;
    NestingExact(raw, 0, 0, 1);
    if Nesting(raw, 0, 0) < MAX_DEPTH {
      ValueLocal(raw, 0, 1, t, q, 1);
    } else if ParseValue(t, q, 1).Ok? {
      // the text at q would also stand, one level down, at the start of raw
      var (v', e) := ParseValue(t, q, 1).value;
      ValueLocal(raw, 0, 0, t, q, 0);
      AtSlice(t, q, e);
      ValueLocal(t, q, 1, t, q, 0);
      assert e == q + |raw|;
      AtBounds(t, q, raw);
      AtSlice(raw, 0, |raw|);
      ValueLocal(t, q, 1, raw, 0, 1);
    }
  }

  lemma AtSlice(t: bytes, q: nat, e: nat)
    requires q <= e <= |t|
    ensures At(t, q, t[q..e])
  {
  }

  /**
   Saving a magnet task's metadata and parsing the file again gives back the same raw info
   bytes, hence the same info hash, and the same text fields, although the keys are unsorted,
   exactly when the info text nests less than 64 levels.
   */
  lemma SaveThenParse(env: Env, m: Meta)
    requires ParseInfoBytes(env, m.rawInfo).Ok?
    requires m.info == ParseInfoBytes(env, m.rawInfo).value.info && m.infoHash == env.sha1(m.rawInfo)
    requires TextOk(env, m.announce) && TextOk(env, m.comment) && TextOk(env, m.createdBy)
    ensures if Nesting(m.rawInfo, 0, 0) < 64 then ParseTorrent(env, SaveTorrent(m)) == Ok(m)
            else ParseTorrent(env, SaveTorrent(m)).Err?
  {
    hide At, ParseRootEntries, ParseValue, Tail1, Nesting, SaveTorrent;
    var t, v, raw := SaveTorrent(m), m.info, m.rawInfo;
    SaveLayout(m);
    InfoStep(m, v);
    if Nesting(raw, 0, 0) < MAX_DEPTH {
      KeysDiffer();
      var acc := [Entry(INFO, v)];
      TailParses(env, m, t, 7 + |raw|, acc, map[INFO := (7, 7 + |raw|)]);
      RootRangesDecode(t);
    }
  }
}
