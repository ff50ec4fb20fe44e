/** What single metadata messages do to the accumulator, and sessions that ask one piece after the other. */
module MetadataSession {
  import opened Bytes
  import opened Bencode
  import opened Metadata
  import Torrent

  // Single messages -----------------------------------------------------------------------------

  /** Without a dictionary in front a message is invalid; one that is neither data nor a reject is passed over. */
  lemma PassedOver(payload: bytes)
    ensures (DecodePrefix(payload).Err? || !DecodePrefix(payload).value.0.Dict? ==> Classify(payload) == Invalid)
    ensures DecodePrefix(payload).Ok? && DecodePrefix(payload).value.0.Dict? ==>
              var kind := Lookup(DecodePrefix(payload).value.0.entries, Ascii("msg_type"));
              Classify(payload) == Ignored <==> kind != Some(Int(1)) && kind != Some(Int(2))
  {
    hide DecodePrefix, LenOf, Count;
  }

  /** A reject names the piece its key holds, a negative number taken modulo 2 to the 64, or none. */
  lemma RejectNames(payload: bytes, es: seq<Entry>, n: nat, i: int)
    requires DecodePrefix(payload) == Ok((Dict(es), n)) && Lookup(es, Ascii("msg_type")) == Some(Int(2))
    ensures I64_MIN <= i <= I64_MAX && Lookup(es, Ascii("piece")) == Some(Int(i)) ==>
              Classify(payload) == Rejected(Some(if i >= 0 then i else 0x1_0000_0000_0000_0000 + i))
    ensures Lookup(es, Ascii("piece")).None? || !Lookup(es, Ascii("piece")).value.Int? ==> Classify(payload) == Rejected(None)
  {
    hide DecodePrefix;
  }

  /**
   Data is accepted exactly when both numbers are there, the size is 1 byte to 4 MiB, the piece lies
   in it, and what stands behind the dictionary is as long as that piece; all other data is invalid.
   */
  lemma DataRead(payload: bytes, es: seq<Entry>, n: nat, p: nat, t: nat)
    requires DecodePrefix(payload) == Ok((Dict(es), n)) && Lookup(es, Ascii("msg_type")) == Some(Int(1)) && n <= |payload|
    ensures Classify(payload).Data? || Classify(payload) == Invalid
    ensures Classify(payload) == Data(p, t, payload[n..]) <==>
            && Lookup(es, Ascii("piece")) == Some(Int(p)) && Lookup(es, Ascii("total_size")) == Some(Int(t))
            && 1 <= t <= 4 * 1024 * 1024 && 16384 * p < t
            && |payload| - n == if t - 16384 * p < 16384 then t - 16384 * p else 16384
  {
    hide DecodePrefix, Wf, ParseValue;
    PrefixIs(payload);
    ParsedIsWf(payload, 0, 0);
    FieldRange(es, PIECE);
    FieldRange(es, TOTAL_SIZE);
    if 1 <= t {
      CountBounds(t, p);
    }
  }

  lemma PrefixIs(payload: bytes)
    ensures DecodePrefix(payload) == ParseValue(payload, 0, 0)
  {
  }

  /** Numbers in a parsed dictionary are i64. */
  lemma FieldRange(es: seq<Entry>, key: bytes)
    requires Wf(Dict(es))
    ensures IntField(es, key).Some? ==> I64_MIN <= IntField(es, key).value <= I64_MAX
  {
    LookupWf(es, key);
  }

  lemma {:induction false} LookupWf(es: seq<Entry>, key: bytes)
    requires WfEntries(es)
    ensures Lookup(es, key).Some? ==> Wf(Lookup(es, key).value)
  {
    if es != [] {
      LookupWf(es[1..], key);
    }
  }

  /**
   A reject gives the piece free to be asked of another peer and changes nothing else: if it is still
   missing, the next piece to ask for is this one or an earlier one.
   */
  lemma RejectFrees(env: Env, s: State, payload: bytes, k: nat, installOk: bool)
    requires Classify(payload) == Rejected(Some(k))
    ensures var (t, r) := Handle(env, s, payload, installOk);
            && r == Failed && k !in t.requested && (forall j :: j != k ==> (j in t.requested <==> j in s.requested))
            && t.pieces == s.pieces && t.expected == s.expected && t.installed == s.installed
            && (s.expected.Some? && k < Count(s.expected.value) && k !in s.pieces ==> Next(t).Some? && Next(t).value <= k)
  {
    hide Classify, Count;
  }

  /** The reject a server without the data sends is such a message. */
  lemma ServerRejects(env: Env, s: State, k: nat)
    requires k <= I64_MAX
    ensures Classify(ReplyTo(None, k)) == Rejected(Some(k))
    ensures Handle(env, s, ReplyTo(None, k), true) == (s.(requested := s.requested - {k}), Failed)
  {
    hide Classify, ReplyTo;
    ReplyIsUnderstood([0], k);
  }

  /** A piece of a dictionary of another size: nothing collected or asked for so far is kept. */
  lemma OtherSizeResets(env: Env, s: State, payload: bytes, installOk: bool)
    requires Classify(payload).Data? && s.expected != Some(Classify(payload).total)
    ensures var d, t := Classify(payload), Handle(env, s, payload, installOk).0;
            && t.requested == {}
            && (t.expected.Some? ==> t.expected == Some(d.total) && t.pieces == map[d.piece := d.content])
            && (t.expected.None? ==> t.pieces == map[])
  {
    hide Classify, Torrent.ParseInfoBytes, Assembled;
  }

  /**
   Data joins what was collected for its size. If that completes the dictionary, it is installed if
   genuine and the storage opens, and nothing of it is kept if it is not genuine.
   */
  lemma DataEffect(env: Env, s: State, payload: bytes, installOk: bool)
    requires Classify(payload).Data?
    ensures var d, t := Classify(payload), Handle(env, s, payload, installOk).0;
            var same := s.expected == Some(d.total);
            var full := Assembled(Store(s, d.piece, d.total, d.content));
            if full.Some? && !Genuine(env, full.value)
            then t.pieces == map[] && t.expected.None? && t.requested == {} && t.installed == s.installed
            else && t.pieces == (if same then s.pieces else map[])[d.piece := d.content]
                 && t.expected == Some(d.total) && t.requested == (if same then s.requested else {})
                 && t.installed == if full.Some? && installOk then full else s.installed
  {
    hide Classify, Torrent.ParseInfoBytes, Assembled;
    var d := Classify(payload);
    HashOfParsed(env, Store(s, d.piece, d.total, d.content));
  }

  /**
   The session goes on exactly after messages that are neither data nor a reject, after data that
   does not complete the dictionary, and after data that does with the genuine one installed.
   */
  lemma FineIff(env: Env, s: State, payload: bytes, installOk: bool)
    ensures Handle(env, s, payload, installOk).1 == Fine <==>
            || Classify(payload).Ignored?
            || (Classify(payload).Data? &&
                var d := Classify(payload);
                var full := Assembled(Store(s, d.piece, d.total, d.content));
                full.None? || (Genuine(env, full.value) && installOk))
  {
    hide Classify, Torrent.ParseInfoBytes, Assembled;
    if Classify(payload).Data? {
      var d := Classify(payload);
      HashOfParsed(env, Store(s, d.piece, d.total, d.content));
    }
  }

  /** Before a size is known only piece 0 can be outstanding, and a release frees it. */
  lemma ReleaseUnknown(env: Env, s: State)
    requires Inv(env, s) && s.expected.None?
    ensures Release(s) == s.(requested := s.requested - {0})
  {
  }

  /** With the size known a release frees exactly the existing pieces that did not arrive. */
  lemma ReleaseKnown(s: State)
    requires s.expected.Some?
    ensures var t := Release(s);
            && t.pieces == s.pieces && t.expected == s.expected && t.installed == s.installed
            && (forall k :: k < Count(s.expected.value) ==> (k in t.requested <==> k in s.requested && k in s.pieces))
            && (forall k :: k >= Count(s.expected.value) ==> (k in t.requested <==> k in s.requested))
  {
    hide Count;
  }

  /** Exactly the well-formed requests are answered, and with the reply for their piece. */
  lemma ServedIff(info: Option<bytes>, payload: bytes)
    ensures Serve(info, payload).Some? <==>
            (DecodePrefix(payload).Ok? && var v := DecodePrefix(payload).value.0;
             v.Dict? && Lookup(v.entries, MSG_TYPE) == Some(Int(0))
             && exists k: nat :: Lookup(v.entries, PIECE) == Some(Int(k)))
    ensures Serve(info, payload).Some? ==>
              var v := DecodePrefix(payload).value.0;
              forall k: nat :: v.Dict? && Lookup(v.entries, PIECE) == Some(Int(k)) ==> Serve(info, payload) == Some(ReplyTo(info, k))
  {
    hide DecodePrefix, ReplyTo;
    if DecodePrefix(payload).Ok? && DecodePrefix(payload).value.0.Dict? {
      var es := DecodePrefix(payload).value.0.entries;
      var p := IntField(es, PIECE);
      if p.Some? && p.value >= 0 {
        var k: nat := p.value;
        assert Lookup(es, PIECE) == Some(Int(k));
      }
    }
  }

  /** Two servers never answer each other's replies. */
  lemma RepliesUnanswered(mine: Option<bytes>, theirs: Option<bytes>, k: nat)
    requires k <= I64_MAX && (theirs.Some? ==> |theirs.value| <= I64_MAX)
    ensures Serve(mine, ReplyTo(theirs, k)).None?
  {
    hide Encode, DecodePrefix, MsgType, IntField, ShortDict, DataDict;
    ShortDictReads(REJECT, k, []);
    var r := Encode(Dict(ShortDict(REJECT, k)));
    assert r + [] == r;
    if theirs.Some? && k < Count(|theirs.value|) {
      CountBounds(|theirs.value|, k);
      DataDictReads(k, |theirs.value|, Slice(theirs.value, k));
    }
  }

  // Sessions ---------------------------------------------------------------------------------------

  /** What a session asks for: the first piece until it is there, then the least one neither received nor asked for. */
  function AskNext(s: State): Option<nat> { if 0 !in s.pieces then Some(0) else Next(s) }

  /**
   A session with a server, one request at a time and up to `n` of them: it ends when the metadata is
   installed, when nothing is left to ask for, or, giving free what it asked for, on a failure.
   */
  function Session(env: Env, s: State, server: Option<bytes>, n: nat): State
    decreases n
  {
    if n == 0 then Release(s)
    else
      match AskNext(s)
      case None => Release(s)
      case Some(k) =>
        var (t, r) := Handle(env, s.(requested := s.requested + {k}), ReplyTo(server, k), true);
        if r.Failed? then Release(t) else if t.installed.Some? then t else Session(env, t, server, n - 1)
  }

  /** Between sessions: nothing is asked for that has not arrived, nothing is installed, and all slices are true. */
  predicate Resting(s: State, info: bytes) {
    && s.requested <= s.pieces.Keys && s.installed.None?
    && (if s.expected.None? then s.pieces == map[] else Collecting(s, info) && !Complete(s, info))
  }

  lemma AsksMissing(s: State, info: bytes)
    requires Resting(s, info) && 1 <= |info| <= MAX_SIZE
    ensures AskNext(s).Some?
    ensures var k := AskNext(s).value; k * PIECE_SIZE < |info| && k !in s.pieces && k !in s.requested && k <= I64_MAX
  {
    hide Count;
    CountBounds(|info|, 0);
    if 0 in s.pieces {
      var k :| 0 <= k < Count(|info|) && k !in s.pieces;
      assert k !in s.requested;
      CountBounds(|info|, AskNext(s).value);
    }
  }

  lemma RestingReleased(s: State, info: bytes)
    requires Resting(s, info)
    ensures Release(s) == s
  {
    hide Count, Slice, Complete;
    if s.expected.Some? {
      assert (set k | k in s.requested && (k >= Count(s.expected.value) || k in s.pieces)) == s.requested;
    }
  }

  /** A server without the data leaves the accumulator as it was, free for the next one. */
  lemma RejectingSession(env: Env, s: State, info: bytes, n: nat)
    requires Resting(s, info) && 1 <= |info| <= MAX_SIZE
    ensures Session(env, s, None, n) == s
  {
    hide Resting, Handle, ReplyTo, Release, AskNext;
    RestingReleased(s, info);
    if n > 0 {
      AsksMissing(s, info);
      var k := AskNext(s).value;
      var asked := s.(requested := s.requested + {k});
      ServerRejects(env, asked, k);
      assert s.requested + {k} - {k} == s.requested;
    }
  }

  function Missing(s: State, info: bytes): int { if s.expected.None? then Count(|info|) else Count(|info|) - |s.pieces| }

  /** One honest reply: the piece is there, and either all are and it is installed, or the session goes on. */
  lemma HonestReply(env: Env, s: State, info: bytes)
    requires Resting(s, info) && 1 <= |info| <= MAX_SIZE && Genuine(env, info)
    ensures AskNext(s).Some?
    ensures var k := AskNext(s).value;
            var (t, r) := Handle(env, s.(requested := s.requested + {k}), ReplyTo(Some(info), k), true);
            && r == Fine && (t.installed.Some? ==> t.installed == Some(info))
            && (t.installed.None? ==> Resting(t, info) && Missing(t, info) == Missing(s, info) - 1 && Missing(t, info) > 0)
  {
    hide Handle, ReplyTo, Genuine, Complete, AskNext, Count, Slice;
    AsksMissing(s, info);
    var k := AskNext(s).value;
    var asked := s.(requested := s.requested + {k});
    FeedOne(env, asked, info, k);
    ReplyHandled(env, asked, info, k);
    var t := Handle(env, asked, ReplyTo(Some(info), k), true).0;
    assert |t.pieces| == |t.pieces.Keys| && |s.pieces| == |s.pieces.Keys|;
    FullIff(t, info);
    CountAtLeast(t, info);
  }

  lemma CountAtLeast(s: State, info: bytes)
    requires Collecting(s, info)
    ensures |s.pieces| <= Count(|info|)
  {
    hide Count, Slice;
    forall k | k in s.pieces ensures k in Upto(Count(|info|)) {
      CountBounds(|info|, k);
    }
    UptoCard(Count(|info|));
    CardLe(s.pieces.Keys, Upto(Count(|info|)));
    assert |s.pieces| == |s.pieces.Keys|;
  }

  lemma ReplyHandled(env: Env, s: State, info: bytes, k: nat)
    requires 1 <= |info| <= MAX_SIZE && Genuine(env, info) && k * PIECE_SIZE < |info| && k <= I64_MAX
    requires s.expected == Some(|info|) ==> Collecting(s, info)
    ensures var (t, r) := Handle(env, s, ReplyTo(Some(info), k), true);
            r == Fine && t.requested <= s.requested && (s.expected != Some(|info|) ==> t.requested == {})
  {
    hide ReplyTo, Classify, Torrent.ParseInfoBytes, Assembled, Slice;
    ReplyIsUnderstood(info, k);
    var t := Store(s, k, |info|, Slice(info, k));
    AssembledIs(t, info);
    HashOfParsed(env, t);
    FineIff(env, s, ReplyTo(Some(info), k), true);
  }

  lemma {:induction false} HonestSession(env: Env, s: State, info: bytes, n: nat)
    requires Resting(s, info) && 1 <= |info| <= MAX_SIZE && Genuine(env, info) && n >= Missing(s, info)
    ensures Session(env, s, Some(info), n).installed == Some(info)
    decreases n
  {
    hide Resting, Handle, ReplyTo, Genuine, AskNext, Missing, Release;
    AtLeastOneMissing(s, info);
    HonestReply(env, s, info);
    var k := AskNext(s).value;
    var (t, r) := Handle(env, s.(requested := s.requested + {k}), ReplyTo(Some(info), k), true);
    if t.installed.None? {
      HonestSession(env, t, info, n - 1);
    }
  }

  lemma AtLeastOneMissing(s: State, info: bytes)
    requires Resting(s, info) && info != []
    ensures Missing(s, info) > 0
  {
    hide Count, Complete, Slice;
    CountBounds(|info|, 0);
    if s.expected.Some? {
      FullIff(s, info);
      CountAtLeast(s, info);
    }
  }

  /** Any number of sessions with servers that have nothing, then one with an honest server: the metadata is installed. */
  lemma {:induction false} RejectsThenHonest(env: Env, s: State, info: bytes, tries: seq<nat>, n: nat)
    requires Resting(s, info) && 1 <= |info| <= MAX_SIZE && Genuine(env, info) && n >= Count(|info|)
    ensures Session(env, Rejections(env, s, tries), Some(info), n).installed == Some(info)
    decreases |tries|
  {
    hide Resting, Session, Genuine, Count;
    if tries == [] {
      AtMostAll(s, info);
      HonestSession(env, s, info, n);
    } else {
      RejectingSession(env, s, info, tries[0]);
      RejectsThenHonest(env, s, info, tries[1..], n);
    }
  }

  lemma AtMostAll(s: State, info: bytes)
    ensures Missing(s, info) <= Count(|info|)
  {
    hide Count;
  }

  function Rejections(env: Env, s: State, tries: seq<nat>): State
    decreases |tries|
  {
    if tries == [] then s else Rejections(env, Session(env, s, None, tries[0]), tries[1..])
  }
}
