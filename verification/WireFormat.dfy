/** The bytes on the wire: message ids, byte order, the handshake of any peer, and frames that are cut or too long. */
module WireFormat {
  import opened Bytes
  import opened Wire

  /** Numbers are written with the highest byte first. */
  lemma BigEndian(a: byte, b: byte, c: byte, d: byte)
    ensures FromBe32([a, b, c, d]) == 0x100_0000 * a + 0x1_0000 * b + 0x100 * c + d
    ensures Be32(0x100_0000 * a + 0x1_0000 * b + 0x100 * c + d) == [a, b, c, d]
  {
    var s := [a, b, c, d];
    assert s[..2] == [a, b] && s[2..] == [c, d];
    var n := 0x100_0000 * a + 0x1_0000 * b + 0x100 * c + d;
    assert n / 0x1_0000 == 0x100 * a + b && n % 0x1_0000 == 0x100 * c + d;
  }

  /** The messages without a body, byte by byte. */
  lemma EmptyFrames()
    ensures Encode(KeepAlive) == [0, 0, 0, 0]
    ensures Encode(Choke) == [0, 0, 0, 1, 0] && Encode(Unchoke) == [0, 0, 0, 1, 1]
    ensures Encode(Interested) == [0, 0, 0, 1, 2] && Encode(NotInterested) == [0, 0, 0, 1, 3]
    ensures Encode(HaveAll) == [0, 0, 0, 1, 14] && Encode(HaveNone) == [0, 0, 0, 1, 15]
  {
    hide Be32;
    BigEndian(0, 0, 0, 0);
    BigEndian(0, 0, 0, 1);
  }

  /** The messages about one piece, and the port. */
  lemma ShortFrames(a: byte, b: byte, c: byte, d: byte)
    ensures var n := 0x100_0000 * a + 0x1_0000 * b + 0x100 * c + d;
            && Encode(Have(n)) == [0, 0, 0, 5, 4, a, b, c, d]
            && Encode(SuggestPiece(n)) == [0, 0, 0, 5, 13, a, b, c, d]
            && Encode(AllowedFast(n)) == [0, 0, 0, 5, 17, a, b, c, d]
    ensures Encode(Port(0x100 * a + b)) == [0, 0, 0, 3, 9, a, b]
  {
    hide Be32;
    BigEndian(0, 0, 0, 5);
    BigEndian(0, 0, 0, 3);
    BigEndian(a, b, c, d);
    var p := 0x100 * a + b;
    assert p / 0x100 == a && p % 0x100 == b;
  }

  /** The messages about one block: piece, offset and length in this order. */
  lemma BlockFrames(i: nat, b: nat, l: nat)
    requires i <= U32_MAX && b <= U32_MAX && l <= U32_MAX
    ensures var body := Be32(i) + Be32(b) + Be32(l);
            && Encode(Request(i, b, l)) == [0, 0, 0, 13, 6] + body
            && Encode(Cancel(i, b, l)) == [0, 0, 0, 13, 8] + body
            && Encode(RejectRequest(i, b, l)) == [0, 0, 0, 13, 16] + body
  {
    hide Be32;
    BigEndian(0, 0, 0, 13);
  }

  lemma FrameIs(m: Message, payload: bytes)
    requires Fits(m) && Payload(m) == payload && |payload| <= U32_MAX
    ensures Encode(m) == Be32(|payload|) + payload
  {
    hide Be32, Payload;
  }

  /** A block, with its piece and offset in front. */
  lemma PieceFrame(i: nat, b: nat, x: bytes)
    requires i <= U32_MAX && b <= U32_MAX && |x| + 9 <= U32_MAX
    ensures Encode(Piece(i, b, x)) == Be32(|x| + 9) + ([7] + (Be32(i) + Be32(b) + x))
  {
    hide Be32, Encode;
    FrameIs(Piece(i, b, x), [7] + (Be32(i) + Be32(b) + x));
  }

  /** The other messages with bytes of any length. */
  lemma LongFrames(x: bytes, id: byte)
    requires |x| + 2 <= U32_MAX
    ensures Encode(Bitfield(x)) == Be32(|x| + 1) + ([5] + x)
    ensures Encode(Extended(id, x)) == Be32(|x| + 2) + ([20] + ([id] + x))
    ensures Encode(Unknown(id, x)) == Be32(|x| + 1) + ([id] + x)
  {
    hide Be32, Encode;
    FrameIs(Bitfield(x), [5] + x);
    FrameIs(Extended(id, x), [20] + ([id] + x));
    FrameIs(Unknown(id, x), [id] + x);
  }

  // The handshake ------------------------------------------------------------------------------

  /** Whatever the peer's eight reserved bytes are, they and the two hashes are read as sent. */
  lemma HandshakeReads(reserved: bytes, infoHash: bytes, peerId: bytes, tail: bytes)
    requires |reserved| == 8 && |infoHash| == 20 && |peerId| == 20
    ensures DecodeHandshake([19] + Ascii("BitTorrent protocol") + reserved + infoHash + peerId + tail)
            == Some(Handshake(infoHash, peerId, reserved))
  {
    var t := [19] + Ascii("BitTorrent protocol") + reserved + infoHash + peerId + tail;
    assert |PSTR| == 19 && t[1..20] == PSTR && t[20..28] == reserved && t[28..48] == infoHash && t[48..68] == peerId;
  }

  /** And everything else is refused. */
  lemma HandshakeRefusedIff(t: bytes)
    ensures DecodeHandshake(t).None? <==> |t| < 68 || t[0] != 19 || t[1..20] != Ascii("BitTorrent protocol")
  {
  }

  /** What we send: the extension protocol in byte 5, the DHT and the fast extension in byte 7. */
  lemma OurHandshake(infoHash: bytes, peerId: bytes)
    ensures EncodeHandshake(infoHash, peerId)
            == [19] + Ascii("BitTorrent protocol") + [0, 0, 0, 0, 0, 0x10, 0, 0x05] + infoHash + peerId
  {
  }

  // Streams that end or overrun ---------------------------------------------------------------------

  /** A stream that ends inside a frame: nothing is made of the part that came. */
  lemma CutFrame(m: Message, n: nat)
    requires Fits(m) && |Payload(m)| <= MAX_MESSAGE && 0 < n < |Encode(m)|
    ensures NextMessage(Encode(m)[..n]) == (Bad(if n < 4 then ShortPrefix else ShortBody), Encode(m)[..n])
  {
    hide Be32, FromBe32, Payload, Parse;
    var t := Encode(m)[..n];
    Be32RoundTrip(|Payload(m)|);
    if n >= 4 {
      assert t[..4] == Be32(|Payload(m)|);
    }
  }

  /** A length above 2 MiB ends the session before any of the body is read, up to 2 MiB it does not. */
  lemma TooLongIff(n: nat, rest: bytes)
    requires n <= U32_MAX
    ensures NextMessage(Be32(n) + rest).0 == Bad(TooLong) <==> n > 2 * 1024 * 1024
  {
    hide Be32, FromBe32, Parse;
    Be32RoundTrip(n);
    assert (Be32(n) + rest)[..4] == Be32(n);
  }

  /** The stream ends where it is empty, and only a message that was read is taken from it. */
  lemma Consumed(t: bytes)
    ensures NextMessage(t).0 == End <==> t == []
    ensures !NextMessage(t).0.Msg? ==> NextMessage(t).1 == t
    ensures NextMessage(t).0.Msg? ==> 4 <= |t| && 4 + FromBe32(t[..4]) <= |t| && NextMessage(t).1 == t[4 + FromBe32(t[..4])..]
  {
    hide FromBe32, Parse;
  }

  /** A body too short for its id is an error of the session; an unknown id is not. */
  lemma ShortBodies(body: bytes)
    ensures (Parse([4] + body).None? <==> |body| < 4) && (Parse([13] + body).None? <==> |body| < 4) && (Parse([17] + body).None? <==> |body| < 4)
    ensures (Parse([6] + body).None? <==> |body| < 12) && (Parse([8] + body).None? <==> |body| < 12) && (Parse([16] + body).None? <==> |body| < 12)
    ensures (Parse([7] + body).None? <==> |body| < 8)
    ensures forall id: byte :: id !in {4, 6, 7, 8, 13, 16, 17} ==> Parse([id] + body).Some?
  {
    hide FromBe32;
    forall id: byte ensures ([id] + body)[0] == id && ([id] + body)[1..] == body {}
  }
}
