/**
 Peer wire messages (BEP 3, BEP 6, BEP 10): encoding, parsing, and the incremental reader
 that must find the same messages however the stream is cut into reads.
 */
module Wire {
  import opened Bytes
  import opened Connection

  const BLOCK_SIZE := 16 * 1024
  const MAX_MESSAGE := 2 * 1024 * 1024
  const PSTR := Ascii("BitTorrent protocol")
  const RESERVED: bytes := [0, 0, 0, 0, 0, 0x10, 0, 5]
  const HS_LEN := 68

  datatype Message =
    | KeepAlive | Choke | Unchoke | Interested | NotInterested
    | Have(piece: nat)
    | Bitfield(bits: bytes)
    | Request(index: nat, begin: nat, length: nat)
    | Piece(index: nat, begin: nat, block: bytes)
    | Cancel(index: nat, begin: nat, length: nat)
    | HaveAll | HaveNone
    | RejectRequest(index: nat, begin: nat, length: nat)
    | AllowedFast(piece: nat)
    | SuggestPiece(piece: nat)
    | Port(port: nat)
    | Extended(extId: byte, payload: bytes)
    | Unknown(msgId: byte, payload: bytes)

  /** The integer widths of the wire. */
  predicate Fits(m: Message) {
    match m
    case Have(p) => p <= U32_MAX
    case AllowedFast(p) => p <= U32_MAX
    case SuggestPiece(p) => p <= U32_MAX
    case Request(i: nat, b: nat, l: nat) => i <= U32_MAX && b <= U32_MAX && l <= U32_MAX
    case Cancel(i: nat, b: nat, l: nat) => i <= U32_MAX && b <= U32_MAX && l <= U32_MAX
    case RejectRequest(i: nat, b: nat, l: nat) => i <= U32_MAX && b <= U32_MAX && l <= U32_MAX
    case Piece(i, b, _) => i <= U32_MAX && b <= U32_MAX
    case Port(p) => p <= U16_MAX
    case _ => true
  }

  function Id(m: Message): byte
    requires !m.KeepAlive?
  {
    match m
    case Choke => 0
    case Unchoke => 1
    case Interested => 2
    case NotInterested => 3
    case Have(_) => 4
    case Bitfield(_) => 5
    case Request(_, _, _) => 6
    case Piece(_, _, _) => 7
    case Cancel(_, _, _) => 8
    case Port(_) => 9
    case SuggestPiece(_) => 13
    case HaveAll => 14
    case HaveNone => 15
    case RejectRequest(_, _, _) => 16
    case AllowedFast(_) => 17
    case Extended(_, _) => 20
    case Unknown(id, _) => id
  }

  function Triple(a: nat, b: nat, c: nat): (r: bytes)
    requires a <= U32_MAX && b <= U32_MAX && c <= U32_MAX
    ensures |r| == 12
  {
    Be32(a) + Be32(b) + Be32(c)
  }

  /** The bytes after the id. */
  function Body(m: Message): bytes
    requires Fits(m)
  {
    match m
    case Have(p) => Be32(p)
    case AllowedFast(p) => Be32(p)
    case SuggestPiece(p) => Be32(p)
    case Bitfield(bits) => bits
    case Request(i: nat, b: nat, l: nat) => Triple(i, b, l)
    case Cancel(i: nat, b: nat, l: nat) => Triple(i, b, l)
    case RejectRequest(i: nat, b: nat, l: nat) => Triple(i, b, l)
    case Piece(i, b, block) => Be32(i) + Be32(b) + block
    case Port(p) => Be16(p)
    case Extended(e, payload) => [e] + payload
    case Unknown(_, payload) => payload
    case _ => []
  }

  /** What the length prefix counts. */
  function Payload(m: Message): bytes
    requires Fits(m)
  {
    if m.KeepAlive? then [] else [Id(m)] + Body(m)
  }

  function Encode(m: Message): bytes
    requires Fits(m)
  {
    Be32(|Payload(m)| % 0x1_0000_0000) + Payload(m)
  }

  /** `Message::encode`: a placeholder prefix, the id and body appended, the prefix filled in last. */
  method EncodeMessage(m: Message) returns (out: bytes)
    requires Fits(m)
    ensures out == Encode(m)
  {
    if m.KeepAlive? {
      Be32Zero();
      return [0, 0, 0, 0];
    }
    out := [0, 0, 0, 0];
    out := out + [Id(m)];
    out := out + Body(m);
    var len := (|out| - 4) % 0x1_0000_0000;
    out := Be32(len) + out[4..];
    assert out[4..] == Payload(m);
  }

  lemma Be32Zero()
    ensures Be32(0) == [0, 0, 0, 0]
  {
  }

  function U32At(body: bytes, o: nat): Option<nat> {
    if o + 4 <= |body| then Some(FromBe32(body[o..o + 4])) else None
  }

  /** One `u32` field, or a message too short. */
  function One(body: bytes, f: nat -> Message): Option<Message> {
    match U32At(body, 0)
    case None => None
    case Some(p) => Some(f(p))
  }

  function Three(body: bytes, f: (nat, nat, nat) -> Message): Option<Message> {
    match (U32At(body, 0), U32At(body, 4), U32At(body, 8))
    case (Some(i), Some(b), Some(l)) => Some(f(i, b, l))
    case _ => None
  }

  /** None stands for the error "message body too short". */
  function Parse(payload: bytes): Option<Message> {
    if payload == [] then Some(KeepAlive)
    else
      var id, body := payload[0], payload[1..];
      if id == 0 then Some(Choke)
      else if id == 1 then Some(Unchoke)
      else if id == 2 then Some(Interested)
      else if id == 3 then Some(NotInterested)
      else if id == 4 then One(body, (p: nat) => Have(p))
      else if id == 5 then Some(Bitfield(body))
      else if id == 6 then Three(body, (i: nat, b: nat, l: nat) => Request(i, b, l))
      else if id == 7 then
        (match (U32At(body, 0), U32At(body, 4))
         case (Some(i), Some(b)) => Some(Piece(i, b, body[8..]))
         case _ => None)
      else if id == 8 then Three(body, (i: nat, b: nat, l: nat) => Cancel(i, b, l))
      else if id == 9 then
        Some(if |body| < 2 then Unknown(id, body) else Port(FromBe16(body[..2])))
      else if id == 13 then One(body, (p: nat) => SuggestPiece(p))
      else if id == 14 then Some(HaveAll)
      else if id == 15 then Some(HaveNone)
      else if id == 16 then Three(body, (i: nat, b: nat, l: nat) => RejectRequest(i, b, l))
      else if id == 17 then One(body, (p: nat) => AllowedFast(p))
      else if id == 20 then
        Some(if body == [] then Unknown(id, body) else Extended(body[0], body[1..]))
      else Some(Unknown(id, body))
  }

  /** An `Unknown` message parses back only if its id is free, or is too short for its id. */
  predicate Unambiguous(m: Message) {
    m.Unknown? ==>
      || m.msgId in {10, 11, 12, 18, 19} || m.msgId > 20
      || (m.msgId == 9 && |m.payload| < 2)
      || (m.msgId == 20 && m.payload == [])
  }

  lemma TripleFields(a: nat, b: nat, c: nat)
    requires a <= U32_MAX && b <= U32_MAX && c <= U32_MAX
    ensures var t := Triple(a, b, c);
            U32At(t, 0) == Some(a) && U32At(t, 4) == Some(b) && U32At(t, 8) == Some(c)
  {
    hide Be32, FromBe32;
    var t := Triple(a, b, c);
    assert t[0..4] == Be32(a) && t[4..8] == Be32(b) && t[8..12] == Be32(c);
    Be32RoundTrip(a);
    Be32RoundTrip(b);
    Be32RoundTrip(c);
  }

  lemma PieceFields(i: nat, b: nat, block: bytes)
    requires i <= U32_MAX && b <= U32_MAX
    ensures var t := Be32(i) + Be32(b) + block;
            U32At(t, 0) == Some(i) && U32At(t, 4) == Some(b) && t[8..] == block
  {
    hide Be32, FromBe32;
    var t := Be32(i) + Be32(b) + block;
    assert t[0..4] == Be32(i) && t[4..8] == Be32(b);
    Be32RoundTrip(i);
    Be32RoundTrip(b);
  }

  lemma SingleField(p: nat)
    requires p <= U32_MAX
    ensures U32At(Be32(p), 0) == Some(p)
  {
    assert Be32(p)[0..4] == Be32(p);
    Be32RoundTrip(p);
  }

  /** Parsing inverts encoding exactly on the messages whose id is not taken by another kind. */
  lemma ParseEncode(m: Message)
    requires Fits(m)
    ensures Parse(Payload(m)) == Some(m) <==> Unambiguous(m)
  {
    hide Be32, FromBe32, U32At, Triple, Be16, FromBe16;
    if !m.KeepAlive? {
      var payload := Payload(m);
      assert payload[0] == Id(m) && payload[1..] == Body(m);
      match m
      case Have(p) => SingleField(p);
      case AllowedFast(p) => SingleField(p);
      case SuggestPiece(p) => SingleField(p);
      case Request(i: nat, b: nat, l: nat) => TripleFields(i, b, l);
      case Cancel(i: nat, b: nat, l: nat) => TripleFields(i, b, l);
      case RejectRequest(i: nat, b: nat, l: nat) => TripleFields(i, b, l);
      case Piece(i, b, block) => PieceFields(i, b, block);
      case Port(p) => assert Be16(p)[..2] == Be16(p);
      case Extended(e, x) => assert ([e] + x)[1..] == x;
      case _ =>
    }
  }

  // Reading messages from a stream -----------------------------------------------------

  datatype ReadError = ShortPrefix | TooLong | ShortBody | Malformed | BadHandshake

  datatype ReadResult = Msg(msg: Message) | End | Bad(error: ReadError)

  /** The next message of a byte stream that ends after `t`, and the bytes after it. */
  function NextMessage(t: bytes): (r: (ReadResult, bytes))
    ensures r.0.Msg? ==> |r.1| < |t|
  {
    if t == [] then (End, [])
    else if |t| < 4 then (Bad(ShortPrefix), t)
    else
      var len := FromBe32(t[..4]);
      if len > MAX_MESSAGE then (Bad(TooLong), t)
      else if |t| < 4 + len then (Bad(ShortBody), t)
      else
        match Parse(t[4..4 + len])
        case None => (Bad(Malformed), t)
        case Some(m) => (Msg(m), t[4 + len..])
  }

  /** All messages of a stream, and how it ends. */
  function AllMessages(t: bytes): (seq<Message>, ReadResult)
    decreases |t|
  {
    var (r, rest) := NextMessage(t);
    if r.Msg? then ([r.msg] + AllMessages(rest).0, AllMessages(rest).1) else ([], r)
  }

  datatype Handshake = Handshake(infoHash: bytes, peerId: bytes, reserved: bytes)

  function EncodeHandshake(infoHash: bytes, peerId: bytes): bytes {
    [|PSTR|] + PSTR + RESERVED + infoHash + peerId
  }

  /** `decode_handshake`: at least 68 bytes, the protocol string, then the fields. */
  function DecodeHandshake(t: bytes): Option<Handshake> {
    if |t| < HS_LEN || t[0] != |PSTR| || t[1..20] != PSTR then None
    else Some(Handshake(t[28..48], t[48..68], t[20..28]))
  }

  lemma HandshakeRoundTrip(infoHash: bytes, peerId: bytes, tail: bytes)
    requires |infoHash| == 20 && |peerId| == 20
    ensures |EncodeHandshake(infoHash, peerId)| == HS_LEN
    ensures DecodeHandshake(EncodeHandshake(infoHash, peerId) + tail) == Some(Handshake(infoHash, peerId, RESERVED))
  {
    var t := EncodeHandshake(infoHash, peerId) + tail;
    assert |PSTR| == 19;
    assert t[1..20] == PSTR && t[20..28] == RESERVED && t[28..48] == infoHash && t[48..68] == peerId;
  }

  class PeerReader {
    var buf: bytes
    var handshake: Option<Handshake>

    constructor ()
      ensures buf == [] && handshake == None
    {
      buf, handshake := [], None;
    }

    /** Puts bytes already taken from the stream back in front. */
    method Preload(data: bytes)
      modifies this`buf
      ensures buf == data + old(buf)
    {
      if data == [] {
        return;
      }
      buf := data + buf;
    }

    /**
     Reads into the spare capacity of the buffer, which is at least `need` but may be more, so
     bytes of later messages can be taken as well. False at the end of the stream.
     */
    method Fill(conn: Conn, need: nat) returns (more: bool)
      requires need > 0
      modifies this`buf, conn`incoming
      ensures old(buf + conn.incoming) == buf + conn.incoming
      ensures more ==> |conn.incoming| < |old(conn.incoming)|
      ensures !more ==> conn.incoming == old(conn.incoming) == [] && buf == old(buf)
    {
      var spare: nat :| spare >= need;
      var chunk := conn.Read(spare);
      buf := buf + chunk;
      more := chunk != [];
    }

    method ReadMessage(conn: Conn) returns (r: ReadResult)
      modifies this`buf, conn`incoming
      ensures r == NextMessage(old(buf + conn.incoming)).0
      ensures buf + conn.incoming == NextMessage(old(buf + conn.incoming)).1
      ensures !r.Msg? ==> buf + conn.incoming == old(buf + conn.incoming)
    {
      hide Parse, FromBe32;
      ghost var t := buf + conn.incoming;
      while |buf| < 4
        invariant buf + conn.incoming == t
        decreases |conn.incoming|
      {
        var more := Fill(conn, 4 - |buf|);
        if !more {
          assert buf == t;
          return if buf == [] then End else Bad(ShortPrefix);
        }
      }
      assert buf[..4] == t[..4];
      var len := FromBe32(buf[..4]);
      if len > MAX_MESSAGE {
        return Bad(TooLong);
      }
      var total := 4 + len;
      while |buf| < total
        invariant buf + conn.incoming == t
        decreases |conn.incoming|
      {
        var more := Fill(conn, total - |buf|);
        if !more {
          assert buf == t;
          return Bad(ShortBody);
        }
      }
      assert buf[4..total] == t[4..total];
      var msg := Parse(buf[4..total]);
      if msg.None? {
        return Bad(Malformed);
      }
      buf := buf[total..];
      return Msg(msg.value);
    }

    /** The reader's loop: every message until the stream ends or is refused. */
    method ReadAll(conn: Conn) returns (msgs: seq<Message>, last: ReadResult)
      modifies this`buf, conn`incoming
      ensures (msgs, last) == AllMessages(old(buf + conn.incoming))
    {
      msgs := [];
      while true
        invariant AllMessages(old(buf + conn.incoming)).0 == msgs + AllMessages(buf + conn.incoming).0
        invariant AllMessages(old(buf + conn.incoming)).1 == AllMessages(buf + conn.incoming).1
        decreases |buf + conn.incoming|
      {
        ghost var t := buf + conn.incoming;
        var r := ReadMessage(conn);
        if !r.Msg? {
          assert AllMessages(t) == ([], r) && msgs + [] == msgs;
          return msgs, r;
        }
        msgs := msgs + [r.msg];
      }
    }

    method ReadHandshake(conn: Conn) returns (r: Result<Option<Handshake>, ReadError>)
      modifies this, conn`incoming
      ensures old(handshake).Some? ==>
                r == Ok(old(handshake)) && buf + conn.incoming == old(buf + conn.incoming) && handshake == old(handshake)
      ensures old(handshake).None? ==>
                var t := old(buf + conn.incoming);
                && r == (if t == [] then Ok(None)
                         else if |t| < HS_LEN then Err(ShortBody)
                         else if DecodeHandshake(t).None? then Err(BadHandshake)
                         else Ok(DecodeHandshake(t)))
                && (if r.Ok? && r.value.Some? then buf + conn.incoming == t[HS_LEN..] && handshake == r.value
                    else buf + conn.incoming == t && handshake == None)
    {
      if handshake.Some? {
        return Ok(handshake);
      }
      ghost var t := buf + conn.incoming;
      while |buf| < HS_LEN
        invariant buf + conn.incoming == t && handshake == None
        decreases |conn.incoming|
      {
        var more := Fill(conn, HS_LEN - |buf|);
        if !more {
          assert buf == t;
          return if buf == [] then Ok(None) else Err(ShortBody);
        }
      }
      SamePrefix(t, buf, conn.incoming);
      var hs := DecodeHandshake(buf);
      if hs.None? {
        return Err(BadHandshake);
      }
      buf := buf[HS_LEN..];
      handshake := hs;
      return Ok(hs);
    }
  }

  lemma SamePrefix(t: bytes, buf: bytes, rest: bytes)
    requires t == buf + rest && |buf| >= HS_LEN
    ensures DecodeHandshake(t) == DecodeHandshake(buf) && t[HS_LEN..] == buf[HS_LEN..] + rest
  {
    assert t[1..20] == buf[1..20] && t[20..28] == buf[20..28] && t[28..48] == buf[28..48] && t[48..68] == buf[48..68];
  }

  // The stream of a sender ---------------------------------------------------------------

  predicate Sendable(m: Message) {
    Fits(m) && Unambiguous(m) && |Payload(m)| <= MAX_MESSAGE
  }

  predicate AllSendable(ms: seq<Message>) {
    ms != [] ==> Sendable(ms[0]) && AllSendable(ms[1..])
  }

  function EncodeAll(ms: seq<Message>): bytes
    requires AllSendable(ms)
  {
    if ms == [] then [] else Encode(ms[0]) + EncodeAll(ms[1..])
  }

  lemma {:induction false} EncodeAppend(ms: seq<Message>, m: Message)
    requires AllSendable(ms) && Sendable(m)
    ensures AllSendable(ms + [m]) && EncodeAll(ms + [m]) == EncodeAll(ms) + Encode(m)
  {
    hide Sendable, Encode;
    if ms == [] {
      assert ms + [m] == [m] && [m][1..] == [];
    } else {
      EncodeAppend(ms[1..], m);
      assert (ms + [m])[1..] == ms[1..] + [m];
    }
  }

  lemma NextIsFirst(m: Message, rest: bytes)
    requires Sendable(m)
    ensures NextMessage(Encode(m) + rest) == (Msg(m), rest)
  {
    hide Parse, Payload, Be32, FromBe32, Unambiguous;
    var p := Payload(m);
    var t := Encode(m) + rest;
    assert t[..4] == Be32(|p|) && t[4..4 + |p|] == p && t[4 + |p|..] == rest;
    Be32RoundTrip(|p|);
    ParseEncode(m);
  }

  lemma NoMessage()
    ensures NextMessage([]) == (End, [])
  {
  }

  /**
   The reader of any chunking of the concatenated encodings yields exactly those messages and
   then the end of the stream.
   */
  lemma {:induction false} StreamRoundTrip(ms: seq<Message>)
    requires AllSendable(ms)
    ensures AllMessages(EncodeAll(ms)) == (ms, End)
  {
    hide NextMessage, Encode, Sendable;
    if ms == [] {
      assert NextMessage([]) == (End, []) by { NoMessage(); }
    } else {
      NextIsFirst(ms[0], EncodeAll(ms[1..]));
      StreamRoundTrip(ms[1..]);
      assert ms == [ms[0]] + ms[1..];
    }
  }

  // Requests ----------------------------------------------------------------------------

  /** The hand-built request of `fill_pipeline`. */
  function RequestWire(index: nat, begin: nat, length: nat): bytes
    requires index <= U32_MAX && begin <= U32_MAX && length <= U32_MAX
  {
    Be32(13) + [6] + Be32(index) + Be32(begin) + Be32(length)
  }

  lemma RequestWireIsEncoding(index: nat, begin: nat, length: nat)
    requires index <= U32_MAX && begin <= U32_MAX && length <= U32_MAX
    ensures RequestWire(index, begin, length) == Encode(Request(index, begin, length))
  {
    hide Be32;
    var t := Triple(index, begin, length);
    assert Payload(Request(index, begin, length)) == [6] + t;
  }

  function NumBlocks(pieceLen: nat): nat { DivCeil(pieceLen, BLOCK_SIZE) }

  method RequestBlocks(pieceLen: nat, blockSize: nat) returns (out: seq<(nat, nat)>)
    requires blockSize > 0
    ensures |out| == DivCeil(pieceLen, blockSize)
    ensures forall k :: 0 <= k < |out| ==>
              out[k].0 == k * blockSize < pieceLen && out[k].1 == Min(pieceLen - out[k].0, blockSize)
  {
    out := [];
    var begin := 0;
    while begin < pieceLen
      invariant begin == Min(|out| * blockSize, pieceLen)
      invariant |out| > 0 ==> (|out| - 1) * blockSize < pieceLen
      invariant forall k :: 0 <= k < |out| ==>
                  out[k].0 == k * blockSize < pieceLen && out[k].1 == Min(pieceLen - out[k].0, blockSize)
      decreases pieceLen - begin
    {
      var len := Min(pieceLen - begin, blockSize);
      out := out + [(begin, len)];
      begin := begin + len;
      assert |out| * blockSize == (|out| - 1) * blockSize + blockSize;
    }
    DivCeilIs(|out|, pieceLen, blockSize);
  }
}
