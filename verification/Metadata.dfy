/**
 The metadata exchange of magnet tasks (BEP 9): a server that slices the raw info dictionary
 and an accumulator that reassembles it from pieces that arrive in any order, repeated,
 rejected, or with conflicting sizes, from peers that need not be honest.
 */
module Metadata {
  import opened Bytes
  import opened Bencode
  import Torrent

  const PIECE_SIZE := 16 * 1024
  const MAX_SIZE := 4 * 1024 * 1024
  const REQUEST := 0
  const DATA := 1
  const REJECT := 2
  const MSG_TYPE := Ascii("msg_type")
  const PIECE := Ascii("piece")
  const TOTAL_SIZE := Ascii("total_size")
  const USIZE := 0x1_0000_0000_0000_0000

  /** What is verified: the parser of the info dictionary and the wanted info hash. */
  datatype Env = Env(torrent: Torrent.Env, infoHash: bytes)

  /** The accumulator, and the raw info dictionary once it is installed. */
  datatype State = State(
    pieces: map<nat, bytes>,
    expected: Option<nat>,
    requested: set<nat>,
    installed: Option<bytes>)

  function Empty(installed: Option<bytes>): State { State(map[], None, {}, installed) }

  function Count(size: nat): nat { DivCeil(size, PIECE_SIZE) }

  /** The length of piece `k` of a `size`-byte dictionary. */
  function LenOf(size: nat, k: nat): nat
    requires k * PIECE_SIZE <= size
  {
    Min(PIECE_SIZE, size - k * PIECE_SIZE)
  }

  lemma CountBounds(size: nat, k: nat)
    ensures k < Count(size) <==> k * PIECE_SIZE < size
  {
    DivCeilBounds(size, PIECE_SIZE);
  }

  // Messages -----------------------------------------------------------------------------

  function IntField(es: seq<Entry>, key: bytes): Option<int> {
    match Lookup(es, key)
    case Some(Int(i)) => Some(i)
    case _ => None
  }

  /** `as usize` on an i64. */
  function AsUsize(i: int): nat { i % USIZE }

  function MsgType(es: seq<Entry>): int {
    match IntField(es, MSG_TYPE)
    case Some(t) => t
    case None => -1
  }

  datatype Incoming =
    | Data(piece: nat, total: nat, content: bytes)
    | Rejected(asked: Option<nat>)
    | Ignored
    | Invalid

  /** The message as far as its own fields decide, with all checks that need no state. */
  function Classify(payload: bytes): Incoming {
    match DecodePrefix(payload)
    case Err(_) => Invalid
    case Ok((v, n)) =>
      if !v.Dict? then Invalid
      else
        var es := v.entries;
        var p, t := IntField(es, PIECE), IntField(es, TOTAL_SIZE);
        if MsgType(es) == REJECT then Rejected(if p.Some? then Some(AsUsize(p.value)) else None)
        else if MsgType(es) != DATA then Ignored
        else if p.None? || t.None? then Invalid
        else
          var piece, total := AsUsize(p.value), AsUsize(t.value);
          var content := payload[n..];
          if total == 0 || total > MAX_SIZE || content == [] || piece >= Count(total) then Invalid
          else
            CountBounds(total, piece);
            if |content| != LenOf(total, piece) then Invalid else Data(piece, total, content)
  }

  // The accumulator -------------------------------------------------------------------------

  function JoinFrom(pieces: map<nat, bytes>, i: nat, count: nat): Option<bytes>
    requires i <= count
    decreases count - i
  {
    if i == count then Some([])
    else if i !in pieces then None
    else
      match JoinFrom(pieces, i + 1, count)
      case None => None
      case Some(rest) => Some(pieces[i] + rest)
  }

  function Assembled(s: State): Option<bytes> {
    if s.expected.None? || |s.pieces| != Count(s.expected.value) then None
    else JoinFrom(s.pieces, 0, Count(s.expected.value))
  }

  datatype Outcome = Fine | Failed

  /** A size that differs from the one held starts a new collection. */
  function Store(s: State, piece: nat, total: nat, content: bytes): State {
    if s.expected != Some(total) then s.(pieces := map[piece := content], expected := Some(total), requested := {})
    else s.(pieces := s.pieces[piece := content])
  }

  /** `handle_metadata_payload`; `installOk` says whether opening the storage succeeded. */
  function Handle(env: Env, s: State, payload: bytes, installOk: bool): (State, Outcome) {
    match Classify(payload)
    case Invalid => (s, Failed)
    case Ignored => (s, Fine)
    case Rejected(p) => (if p.Some? then s.(requested := s.requested - {p.value}) else s, Failed)
    case Data(piece, total, content) =>
      var s' := Store(s, piece, total, content);
      match Assembled(s')
      case None => (s', Fine)
      case Some(data) =>
        match Torrent.ParseInfoBytes(env.torrent, data)
        case Err(_) => (Empty(s'.installed), Failed)
        case Ok(meta) =>
          if meta.infoHash != env.infoHash then (Empty(s'.installed), Failed)
          else if !installOk then (s', Failed)
          else (s'.(installed := Some(data)), Fine)
  }

  /** `next_metadata_piece`: the least piece neither received nor asked for. */
  function NextFrom(s: State, i: nat, count: nat): (r: Option<nat>)
    requires i <= count
    ensures r.Some? ==> i <= r.value < count && r.value !in s.requested && r.value !in s.pieces
    ensures forall k :: i <= k < (if r.Some? then r.value else count) ==> k in s.requested || k in s.pieces
    decreases count - i
  {
    if i == count then None
    else if i !in s.requested && i !in s.pieces then Some(i)
    else NextFrom(s, i + 1, count)
  }

  function Next(s: State): Option<nat> {
    if s.expected.None? then None else NextFrom(s, 0, Count(s.expected.value))
  }

  /** `release_unreceived_metadata_pieces` */
  function Release(s: State): State {
    if s.expected.None? then (if 0 in s.pieces then s else s.(requested := s.requested - {0}))
    else s.(requested := set k | k in s.requested && (k >= Count(s.expected.value) || k in s.pieces))
  }

  // What every reachable state keeps ----------------------------------------------------------

  predicate Inv(env: Env, s: State) {
    && (s.expected.None? ==> s.pieces == map[])
    && (s.expected.Some? ==> 1 <= s.expected.value <= MAX_SIZE)
    && (forall k :: k in s.pieces ==> PieceFits(s, k))
    && (s.installed.Some? ==> Genuine(env, s.installed.value))
  }

  predicate PieceFits(s: State, k: nat)
    requires k in s.pieces
  {
    s.expected.Some? && k * PIECE_SIZE < s.expected.value && |s.pieces[k]| == LenOf(s.expected.value, k)
  }

  predicate Genuine(env: Env, data: bytes) {
    env.torrent.sha1(data) == env.infoHash && Torrent.ParseInfoBytes(env.torrent, data).Ok?
  }

  lemma ClassifyData(payload: bytes)
    ensures match Classify(payload)
            case Data(piece, total, content) =>
              1 <= total <= MAX_SIZE && piece * PIECE_SIZE < total && |content| == LenOf(total, piece)
            case _ => true
  {
    hide DecodePrefix, MsgType, IntField;
    match Classify(payload)
    case Data(piece, total, _) => CountBounds(total, piece);
    case _ =>
  }

  /** Whatever a peer sends, stored pieces keep index and exact length, and only the genuine
      dictionary is ever installed; an assembly that is not genuine leaves the accumulator empty. */
  lemma HandleKeepsInv(env: Env, s: State, payload: bytes, installOk: bool)
    requires Inv(env, s)
    ensures Inv(env, Handle(env, s, payload, installOk).0)
    ensures match Classify(payload)
            case Data(piece, total, content) =>
              var full := Assembled(Store(s, piece, total, content));
              full.Some? && !Genuine(env, full.value) ==>
                Handle(env, s, payload, installOk) == (Empty(s.installed), Failed)
            case _ => true
  {
    hide Classify, Torrent.ParseInfoBytes, Assembled, LenOf;
    ClassifyData(payload);
    match Classify(payload)
    case Data(piece, total, content) =>
      var s' := Store(s, piece, total, content);
      forall k | k in s'.pieces ensures PieceFits(s', k) {
        assert k != piece ==> s.expected == Some(total) && PieceFits(s, k);
      }
      HashOfParsed(env, s');
    case _ =>
  }

  lemma HashOfParsed(env: Env, s: State)
    ensures Assembled(s).Some? && Torrent.ParseInfoBytes(env.torrent, Assembled(s).value).Ok? ==>
              Torrent.ParseInfoBytes(env.torrent, Assembled(s).value).value.infoHash == env.torrent.sha1(Assembled(s).value)
  {
    hide Assembled, DecodePrefix;
  }

  /** A stream of payloads with the storage's answers. */
  function HandleAll(env: Env, s: State, run: seq<(bytes, bool)>): State
    decreases |run|
  {
    if run == [] then s else HandleAll(env, Handle(env, s, run[0].0, run[0].1).0, run[1..])
  }

  lemma {:induction false} RunKeepsInv(env: Env, s: State, run: seq<(bytes, bool)>)
    requires Inv(env, s)
    ensures Inv(env, HandleAll(env, s, run))
    decreases |run|
  {
    if run != [] {
      hide Handle, Inv;
      HandleKeepsInv(env, s, run[0].0, run[0].1);
      RunKeepsInv(env, Handle(env, s, run[0].0, run[0].1).0, run[1..]);
    }
  }

  /** A piece is never stranded: after a release, nothing is left to ask for only if all arrived. */
  lemma ReleaseUnblocks(env: Env, s: State)
    requires Inv(env, s) && s.expected.Some?
    ensures Inv(env, Release(s))
    ensures Next(Release(s)) == None <==> forall k :: 0 <= k < Count(s.expected.value) ==> k in s.pieces
  {
    hide Count, LenOf;
    var r := Release(s);
    forall k | k in r.pieces ensures PieceFits(r, k) {
      assert PieceFits(s, k);
    }
  }

  // The server -----------------------------------------------------------------------------------

  function Slice(info: bytes, k: nat): bytes
    requires k * PIECE_SIZE <= |info|
  {
    info[k * PIECE_SIZE..Min(k * PIECE_SIZE + PIECE_SIZE, |info|)]
  }

  function ShortDict(kind: int, k: nat): seq<Entry> { [Entry(MSG_TYPE, Int(kind)), Entry(PIECE, Int(k))] }

  function DataDict(k: nat, total: nat): seq<Entry> { ShortDict(DATA, k) + [Entry(TOTAL_SIZE, Int(total))] }

  /** The reply to a request for piece `k`: its slice, or a reject when there is none. */
  function ReplyTo(info: Option<bytes>, k: nat): bytes {
    match info
    case Some(raw) =>
      if k < Count(|raw|) then
        CountBounds(|raw|, k);
        Encode(Dict(DataDict(k, |raw|))) + Slice(raw, k)
      else Encode(Dict(ShortDict(REJECT, k)))
    case None => Encode(Dict(ShortDict(REJECT, k)))
  }

  /** `serve_ut_metadata`: anything but a well-formed request is left unanswered. */
  function Serve(info: Option<bytes>, payload: bytes): Option<bytes> {
    match DecodePrefix(payload)
    case Err(_) => None
    case Ok((v, _)) =>
      if !v.Dict? || MsgType(v.entries) != REQUEST then None
      else
        match IntField(v.entries, PIECE)
        case Some(k) => if k >= 0 then Some(ReplyTo(info, k)) else None
        case None => None
  }

  /** `ut_metadata_request` */
  function RequestFor(k: nat): bytes { Encode(Dict(ShortDict(REQUEST, k))) }

  lemma KeysInOrder()
    ensures LexLess(MSG_TYPE, PIECE) && LexLess(PIECE, TOTAL_SIZE) && LexLess(MSG_TYPE, TOTAL_SIZE)
    ensures MSG_TYPE != PIECE && PIECE != TOTAL_SIZE && MSG_TYPE != TOTAL_SIZE
    ensures |MSG_TYPE| == 8 && |PIECE| == 5 && |TOTAL_SIZE| == 10
  {
    assert MSG_TYPE[0] == 109 && PIECE[0] == 112 && TOTAL_SIZE[0] == 116;
  }

  /** The dictionaries are what inserting the fields one by one into a BTreeMap gives. */
  lemma DictsAreInserted(kind: int, k: nat, total: nat)
    ensures ShortDict(kind, k) == Insert(Insert([], MSG_TYPE, Int(kind)), PIECE, Int(k))
    ensures DataDict(k, total) == Insert(Insert(Insert([], MSG_TYPE, Int(DATA)), PIECE, Int(k)), TOTAL_SIZE, Int(total))
  {
    hide LexLess;
    KeysInOrder();
    InsertLast([Entry(MSG_TYPE, Int(kind))], PIECE, Int(k));
    InsertLast([Entry(MSG_TYPE, Int(DATA))], PIECE, Int(k));
    InsertLast(ShortDict(DATA, k), TOTAL_SIZE, Int(total));
  }

  lemma ConsEntry(e: Entry, rest: seq<Entry>, key: bytes)
    ensures WfEntries([e] + rest) <==> |e.key| <= U64_MAX && Wf(e.val) && WfEntries(rest)
    ensures HeightEntries([e] + rest) == Max(1 + Height(e.val), HeightEntries(rest))
    ensures Lookup([e] + rest, key) == if e.key == key then Some(e.val) else Lookup(rest, key)
  {
    assert ([e] + rest)[1..] == rest;
  }

  /** The fields of a message dictionary, and that it is well-formed and flat. */
  lemma DictFields(kind: int, k: nat, tail: seq<Entry>)
    requires kind in {REQUEST, DATA, REJECT} && k <= I64_MAX
    requires WfEntries(tail) && HeightEntries(tail) <= 1
    ensures var es := ShortDict(kind, k) + tail;
            && WfEntries(es) && HeightEntries(es) == 1
            && MsgType(es) == kind && IntField(es, PIECE) == Some(k) && IntField(es, TOTAL_SIZE) == IntField(tail, TOTAL_SIZE)
  {
    hide Lookup, WfEntries, HeightEntries, Ascii;
    KeysInOrder();
    var a, b := Entry(MSG_TYPE, Int(kind)), Entry(PIECE, Int(k));
    assert ShortDict(kind, k) + tail == [a] + ([b] + tail);
    ConsEntry(b, tail, PIECE);
    ConsEntry(b, tail, TOTAL_SIZE);
    ConsEntry(a, [b] + tail, MSG_TYPE);
    ConsEntry(a, [b] + tail, PIECE);
    ConsEntry(a, [b] + tail, TOTAL_SIZE);
  }

  lemma ShortDictReads(kind: int, k: nat, rest: bytes)
    requires kind in {REQUEST, DATA, REJECT} && k <= I64_MAX
    ensures DecodePrefix(Encode(Dict(ShortDict(kind, k))) + rest)
         == Ok((Dict(ShortDict(kind, k)), |Encode(Dict(ShortDict(kind, k)))|))
    ensures MsgType(ShortDict(kind, k)) == kind && IntField(ShortDict(kind, k), PIECE) == Some(k)
  {
    hide Encode, DecodePrefix, LexLess, Lookup, WfEntries, HeightEntries;
    KeysInOrder();
    NoEntries();
    assert ShortDict(kind, k) + [] == ShortDict(kind, k);
    DictFields(kind, k, []);
    PrefixRoundTrip(Dict(ShortDict(kind, k)), rest);
  }

  lemma NoEntries()
    ensures WfEntries([]) && HeightEntries([]) == 0 && Lookup([], TOTAL_SIZE) == None
  {
  }

  lemma DataDictReads(k: nat, total: nat, rest: bytes)
    requires k <= I64_MAX && total <= I64_MAX
    ensures DecodePrefix(Encode(Dict(DataDict(k, total))) + rest)
         == Ok((Dict(DataDict(k, total)), |Encode(Dict(DataDict(k, total)))|))
    ensures MsgType(DataDict(k, total)) == DATA && IntField(DataDict(k, total), PIECE) == Some(k)
    ensures IntField(DataDict(k, total), TOTAL_SIZE) == Some(total)
  {
    hide Encode, DecodePrefix, LexLess, Lookup, WfEntries, HeightEntries;
    KeysInOrder();
    NoEntries();
    var t := Entry(TOTAL_SIZE, Int(total));
    ConsEntry(t, [], TOTAL_SIZE);
    assert [t] + [] == [t];
    DictFields(DATA, k, [t]);
    PrefixRoundTrip(Dict(DataDict(k, total)), rest);
  }

  /** Our own request is answered with the piece asked for. */
  lemma RequestIsServed(info: Option<bytes>, k: nat)
    requires k <= I64_MAX
    ensures Serve(info, RequestFor(k)) == Some(ReplyTo(info, k))
  {
    hide Encode, DecodePrefix, MsgType, IntField, ShortDict, ReplyTo;
    ShortDictReads(REQUEST, k, []);
    assert RequestFor(k) + [] == RequestFor(k);
  }

  /** The accumulator reads a reply as exactly the slice it carries, or as a reject of that piece. */
  lemma ReplyIsUnderstood(info: bytes, k: nat)
    requires 1 <= |info| <= MAX_SIZE && k <= I64_MAX
    ensures if k * PIECE_SIZE < |info| then Classify(ReplyTo(Some(info), k)) == Data(k, |info|, Slice(info, k))
            else Classify(ReplyTo(Some(info), k)) == Rejected(Some(k))
    ensures Classify(ReplyTo(None, k)) == Rejected(Some(k))
  {
    hide Encode, DecodePrefix, MsgType, IntField, ShortDict, DataDict;
    CountBounds(|info|, k);
    ShortDictReads(REJECT, k, []);
    var r := Encode(Dict(ShortDict(REJECT, k)));
    assert r + [] == r;
    if k < Count(|info|) {
      DataDictReads(k, |info|, Slice(info, k));
      var h := Encode(Dict(DataDict(k, |info|)));
      assert (h + Slice(info, k))[|h|..] == Slice(info, k);
    }
  }

  // Server and accumulator together ---------------------------------------------------------------

  /** All stored pieces are true slices of `info`. */
  predicate Collecting(s: State, info: bytes) {
    s.expected == Some(|info|)
    && forall k :: k in s.pieces ==> k * PIECE_SIZE < |info| && s.pieces[k] == Slice(info, k)
  }

  predicate Complete(s: State, info: bytes) {
    forall k :: 0 <= k < Count(|info|) ==> k in s.pieces
  }

  lemma {:induction false} JoinSlices(s: State, info: bytes, i: nat)
    requires Collecting(s, info) && Complete(s, info) && i <= Count(|info|)
    ensures JoinFrom(s.pieces, i, Count(|info|)) == Some(if i * PIECE_SIZE < |info| then info[i * PIECE_SIZE..] else [])
    decreases Count(|info|) - i
  {
    hide Count;
    CountBounds(|info|, i);
    if i < Count(|info|) {
      JoinSlices(s, info, i + 1);
      var a, b := i * PIECE_SIZE, (i + 1) * PIECE_SIZE;
      if b < |info| {
        assert info[a..] == info[a..b] + info[b..];
      } else {
        assert info[a..] == info[a..|info|] + [];
      }
    }
  }

  /** As many pieces as there should be are all of them. */
  lemma FullIff(s: State, info: bytes)
    requires Collecting(s, info) && info != []
    ensures |s.pieces| == Count(|info|) <==> Complete(s, info)
  {
    hide Count;
    var n := Count(|info|);
    forall k | k in s.pieces ensures k in Upto(n) {
      CountBounds(|info|, k);
    }
    CardLe(s.pieces.Keys, Upto(n));
    UptoCard(n);
    assert |s.pieces| == |s.pieces.Keys|;
    if Complete(s, info) {
      assert s.pieces.Keys == Upto(n);
    } else {
      var k :| 0 <= k < n && k !in s.pieces;
      assert k in Upto(n) && k !in s.pieces.Keys;
    }
  }

  /** Assembly succeeds exactly when the last piece is there, and then gives the dictionary. */
  lemma AssembledIs(s: State, info: bytes)
    requires Collecting(s, info) && info != []
    ensures Assembled(s) == if Complete(s, info) then Some(info) else None
  {
    hide Count, Complete, JoinFrom;
    FullIff(s, info);
    if Complete(s, info) {
      JoinSlices(s, info, 0);
    }
  }

  /** The accumulator fed with the server's replies for the pieces `ks`. */
  function Feed(env: Env, s: State, info: bytes, ks: seq<nat>): State
    decreases |ks|
  {
    if ks == [] then s else Feed(env, Handle(env, s, ReplyTo(Some(info), ks[0]), true).0, info, ks[1..])
  }

  lemma FeedOne(env: Env, s: State, info: bytes, k: nat)
    requires 1 <= |info| <= MAX_SIZE && Genuine(env, info) && k * PIECE_SIZE < |info|
    requires s.expected == Some(|info|) ==> Collecting(s, info)
    ensures var s' := Handle(env, s, ReplyTo(Some(info), k), true).0;
            && Collecting(s', info)
            && s'.pieces.Keys == (if s.expected == Some(|info|) then s.pieces.Keys else {}) + {k}
            && s'.installed == if Complete(s', info) then Some(info) else s.installed
  {
    hide ReplyTo, Classify, Torrent.ParseInfoBytes, Assembled, Slice;
    ReplyIsUnderstood(info, k);
    var s' := Store(s, k, |info|, Slice(info, k));
    AssembledIs(s', info);
    HashOfParsed(env, s');
  }

  lemma CompleteStays(s: State, s': State, info: bytes)
    requires s.pieces.Keys <= s'.pieces.Keys
    ensures Complete(s, info) ==> Complete(s', info)
  {
    hide Count;
    assert forall k :: k in s.pieces ==> k in s.pieces.Keys;
  }

  lemma FirstAndRest(ks: seq<nat>)
    requires ks != []
    ensures (set k | k in ks) == {ks[0]} + (set k | k in ks[1..])
  {
    assert ks == [ks[0]] + ks[1..];
  }

  /**
   Fed with the server's slices in any order and with any repeats, the accumulator holds
   exactly the slices fed, and installs exactly that dictionary once the last distinct slice
   has arrived, not before.
   */
  lemma {:induction false} ExchangeCompletes(env: Env, s: State, info: bytes, ks: seq<nat>)
    requires 1 <= |info| <= MAX_SIZE && Genuine(env, info)
    requires forall i :: 0 <= i < |ks| ==> ks[i] * PIECE_SIZE < |info|
    requires Collecting(s, info) && (Complete(s, info) ==> s.installed == Some(info))
    ensures var s' := Feed(env, s, info, ks);
            && Collecting(s', info)
            && s'.pieces.Keys == s.pieces.Keys + (set k | k in ks)
            && s'.installed == if Complete(s', info) then Some(info) else s.installed
    decreases |ks|
  {
    if ks != [] {
      hide Handle, ReplyTo, Collecting, Genuine, Complete, Count;
      FeedOne(env, s, info, ks[0]);
      var s1 := Handle(env, s, ReplyTo(Some(info), ks[0]), true).0;
      ExchangeCompletes(env, s1, info, ks[1..]);
      CompleteStays(s1, Feed(env, s1, info, ks[1..]), info);
      FirstAndRest(ks);
    }
  }

  /** From a fresh accumulator, or one holding another size, the first slice starts the collection. */
  lemma ExchangeFromAnywhere(env: Env, s: State, info: bytes, ks: seq<nat>)
    requires 1 <= |info| <= MAX_SIZE && Genuine(env, info) && ks != []
    requires forall i :: 0 <= i < |ks| ==> ks[i] * PIECE_SIZE < |info|
    requires s.expected != Some(|info|)
    requires forall k :: 0 <= k < Count(|info|) ==> k in ks
    ensures Feed(env, s, info, ks).installed == Some(info)
  {
    hide Handle, ReplyTo, Collecting, Genuine, Count;
    FeedOne(env, s, info, ks[0]);
    var s1 := Handle(env, s, ReplyTo(Some(info), ks[0]), true).0;
    ExchangeCompletes(env, s1, info, ks[1..]);
    var s' := Feed(env, s, info, ks);
    forall k | 0 <= k < Count(|info|) ensures k in s'.pieces {
      assert k in ks;
      assert ks == [ks[0]] + ks[1..];
      assert k in s'.pieces.Keys;
    }
  }

  // Recovery from false slices ----------------------------------------------------------------------

  /** The info hash names one dictionary of this length. */
  ghost predicate OnlyGenuine(env: Env, info: bytes) {
    Genuine(env, info) && forall x: bytes :: |x| == |info| && Genuine(env, x) ==> x == info
  }

  /** Pieces of the right lengths that join to the dictionary are its slices. */
  lemma {:induction false} JoinedAreSlices(s: State, info: bytes, i: nat)
    requires s.expected == Some(|info|) && (forall k :: k in s.pieces ==> PieceFits(s, k)) && i <= Count(|info|)
    requires JoinFrom(s.pieces, i, Count(|info|)) == Some(if i * PIECE_SIZE < |info| then info[i * PIECE_SIZE..] else [])
    ensures forall k :: i <= k < Count(|info|) ==> k in s.pieces && s.pieces[k] == Slice(info, k)
    decreases Count(|info|) - i
  {
    hide Count;
    CountBounds(|info|, i);
    if i < Count(|info|) {
      var a, b := i * PIECE_SIZE, (i + 1) * PIECE_SIZE;
      assert PieceFits(s, i);
      var x, rest := s.pieces[i], JoinFrom(s.pieces, i + 1, Count(|info|)).value;
      assert x + rest == info[a..];
      assert x == (x + rest)[..|x|] && rest == (x + rest)[|x|..];
      if b < |info| {
        assert info[a..][..|x|] == info[a..b] && info[a..][|x|..] == info[b..];
      } else {
        assert info[a..][..|x|] == info[a..|info|];
      }
      JoinedAreSlices(s, info, i + 1);
    }
  }

  /** Collecting true slices only, and installed as soon as they are complete. */
  predicate OnTrack(s: State, info: bytes) {
    Collecting(s, info) && (Complete(s, info) ==> s.installed == Some(info))
  }

  /** Still holding unknown slices; those of `fed` are true, and the last one fed did not complete it. */
  predicate Poisoned(s: State, info: bytes, fed: set<nat>) {
    && s.expected == Some(|info|)
    && (forall k :: k in s.pieces ==> PieceFits(s, k))
    && (forall k :: k in fed ==> k in s.pieces && s.pieces[k] == Slice(info, k))
    && (fed != {} ==> Assembled(s).None?)
  }

  predicate Recovering(s: State, info: bytes, fed: set<nat>) {
    OnTrack(s, info) || Poisoned(s, info, fed) || s.expected != Some(|info|)
  }

  /** A true slice fed to a poisoned accumulator overwrites, completes, or gets everything thrown away. */
  lemma FeedPoisoned(env: Env, s: State, info: bytes, fed: set<nat>, k: nat)
    requires 1 <= |info| <= MAX_SIZE && OnlyGenuine(env, info) && k * PIECE_SIZE < |info| && Poisoned(s, info, fed)
    ensures Recovering(Handle(env, s, ReplyTo(Some(info), k), true).0, info, fed + {k})
  {
    hide ReplyTo, Classify, Torrent.ParseInfoBytes, Assembled, JoinFrom, Slice, Count, Complete, OnlyGenuine;
    ReplyIsUnderstood(info, k);
    var s' := Store(s, k, |info|, Slice(info, k));
    SliceFits(s', info, k);
    forall j | j in s'.pieces ensures PieceFits(s', j) {
      assert j != k ==> PieceFits(s, j);
    }
    HashOfParsed(env, s');
    if Assembled(s').Some? && Genuine(env, Assembled(s').value) {
      AssembledSize(s', info);
      OnlyOne(env, info, Assembled(s').value);
      AssembledTrue(s', info);
    }
  }

  lemma OnlyOne(env: Env, info: bytes, x: bytes)
    requires OnlyGenuine(env, info) && |x| == |info| && Genuine(env, x)
    ensures x == info
  {
  }

  lemma SliceFits(s: State, info: bytes, k: nat)
    requires s.expected == Some(|info|) && k * PIECE_SIZE < |info| && k in s.pieces && s.pieces[k] == Slice(info, k)
    ensures PieceFits(s, k)
  {
  }

  lemma AssembledTrue(s: State, info: bytes)
    requires s.expected == Some(|info|) && (forall k :: k in s.pieces ==> PieceFits(s, k)) && Assembled(s) == Some(info)
    ensures Collecting(s, info)
  {
    hide Count, Slice;
    assert info[0..] == info;
    if info == [] {
      CountBounds(0, 0);
    }
    JoinedAreSlices(s, info, 0);
    forall k | k in s.pieces ensures k * PIECE_SIZE < |info| && s.pieces[k] == Slice(info, k) {
      assert PieceFits(s, k);
      CountBounds(|info|, k);
    }
  }

  /** What is assembled has the expected size. */
  lemma AssembledSize(s: State, info: bytes)
    requires s.expected == Some(|info|) && (forall k :: k in s.pieces ==> PieceFits(s, k)) && Assembled(s).Some?
    ensures |Assembled(s).value| == |info|
  {
    hide Count;
    JoinSize(s, |info|, 0);
  }

  lemma {:induction false} JoinSize(s: State, size: nat, i: nat)
    requires s.expected == Some(size) && (forall k :: k in s.pieces ==> PieceFits(s, k)) && i <= Count(size)
    ensures JoinFrom(s.pieces, i, Count(size)).Some? ==>
              |JoinFrom(s.pieces, i, Count(size)).value| == Max(size - i * PIECE_SIZE, 0)
    decreases Count(size) - i
  {
    hide Count;
    CountBounds(size, i);
    if i < Count(size) && i in s.pieces {
      assert PieceFits(s, i);
      JoinSize(s, size, i + 1);
    }
  }

  lemma {:induction false} FeedRecovers(env: Env, s: State, info: bytes, fed: set<nat>, ks: seq<nat>)
    requires 1 <= |info| <= MAX_SIZE && OnlyGenuine(env, info) && Recovering(s, info, fed)
    requires forall i :: 0 <= i < |ks| ==> ks[i] * PIECE_SIZE < |info|
    ensures Recovering(Feed(env, s, info, ks), info, fed + (set k | k in ks))
    decreases |ks|
  {
    hide Handle, ReplyTo, Genuine, Complete, Count, Collecting, Poisoned;
    if ks == [] {
      assert fed + (set k | k in ks) == fed;
    } else {
      var s1 := Handle(env, s, ReplyTo(Some(info), ks[0]), true).0;
      if OnTrack(s, info) || s.expected != Some(|info|) {
        FeedOneOnTrack(env, s, info, ks[0]);
      } else {
        FeedPoisoned(env, s, info, fed, ks[0]);
      }
      FeedRecovers(env, s1, info, fed + {ks[0]}, ks[1..]);
      FirstAndRest(ks);
      assert fed + {ks[0]} + (set k | k in ks[1..]) == fed + (set k | k in ks);
    }
  }

  lemma FeedOneOnTrack(env: Env, s: State, info: bytes, k: nat)
    requires 1 <= |info| <= MAX_SIZE && OnlyGenuine(env, info) && k * PIECE_SIZE < |info|
    requires OnTrack(s, info) || s.expected != Some(|info|)
    ensures OnTrack(Handle(env, s, ReplyTo(Some(info), k), true).0, info)
  {
    hide Handle, ReplyTo, Genuine, Complete, Count;
    FeedOne(env, s, info, k);
  }

  lemma ZeroIn(fed: set<nat>, n: nat)
    requires n > 0 && forall k :: 0 <= k < n ==> k in fed
    ensures fed != {}
  {
    assert 0 in fed;
  }

  /** With every slice fed nothing unknown can be left: the accumulator would have been assembled. */
  lemma NotPoisonedThen(s: State, info: bytes, fed: set<nat>)
    requires info != [] && (forall k :: 0 <= k < Count(|info|) ==> k in fed)
    ensures !Poisoned(s, info, fed)
  {
    hide Count, JoinFrom;
    CountBounds(|info|, 0);
    ZeroIn(fed, Count(|info|));
    if Poisoned(s, info, fed) {
      forall k | k in s.pieces ensures k * PIECE_SIZE < |info| && s.pieces[k] == Slice(info, k) {
        assert PieceFits(s, k);
        CountBounds(|info|, k);
      }
      AssembledIs(s, info);
      assert false;
    }
  }

  /**
   Whatever slices of the right lengths an accumulator holds, feeding it all true slices twice,
   in any order and with any repeats, installs the dictionary.
   */
  lemma RecoversFromPoison(env: Env, s: State, info: bytes, once: seq<nat>, again: seq<nat>)
    requires 1 <= |info| <= MAX_SIZE && OnlyGenuine(env, info) && Inv(env, s)
    requires forall i :: 0 <= i < |once| ==> once[i] * PIECE_SIZE < |info|
    requires forall i :: 0 <= i < |again| ==> again[i] * PIECE_SIZE < |info|
    requires forall k :: 0 <= k < Count(|info|) ==> k in once && k in again
    ensures Feed(env, Feed(env, s, info, once), info, again).installed == Some(info)
  {
    hide Handle, ReplyTo, Genuine, Count, Feed;
    assert Recovering(s, info, {});
    FeedRecovers(env, s, info, {}, once);
    var t := Feed(env, s, info, once);
    var fed: set<nat> := {} + (set k | k in once);
    NotPoisonedThen(t, info, fed);
    GenuineItself(env, info);
    NotEmptyList(info, again);
    if OnTrack(t, info) {
      ExchangeCompletes(env, t, info, again);
      var u := Feed(env, t, info, again);
      forall k | 0 <= k < Count(|info|) ensures k in u.pieces {
        assert k in (set j | j in again);
        assert k in u.pieces.Keys;
      }
    } else {
      ExchangeFromAnywhere(env, t, info, again);
    }
  }

  lemma GenuineItself(env: Env, info: bytes)
    requires OnlyGenuine(env, info)
    ensures Genuine(env, info)
  {
  }

  lemma NotEmptyList(info: bytes, ks: seq<nat>)
    requires info != [] && forall k :: 0 <= k < Count(|info|) ==> k in ks
    ensures ks != []
  {
    CountBounds(|info|, 0);
    assert 0 in ks;
  }
}
