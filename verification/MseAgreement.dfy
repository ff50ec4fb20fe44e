/** The initiator and the responder of Mse run against each other. */
module MseAgreement {
  import opened Bytes
  import opened Cipher
  import opened Sync
  import opened Mse

  lemma Prefix(x: bytes, y: bytes)
    ensures (x + y)[..|x|] == x && (x + y)[|x|..] == y
  {
  }

  lemma HeaderFields(n: nat, k: nat)
    requires n <= U32_MAX && k <= U16_MAX
    ensures var h := Be32(n) + Be16(k); FromBe32(h[..4]) == n && FromBe16(h[4..]) == k
  {
    Be32RoundTrip(n);
    Prefix(Be32(n), Be16(k));
  }

  lemma Assoc(x: bytes, y: bytes, z: bytes)
    ensures (x + y) + z == x + (y + z)
  {
  }

  // The initiator's encrypted part, as the responder reads it ---------------------

  /** The encrypted negotiation cut at the responder's reads, with what follows. */
  function OfferWire(ks: Keystream, a: Initiator, la: bytes): bytes
    requires a.provide <= U32_MAX && |a.padC| <= MAX_PAD && |a.ia| <= MAX_IA
  {
    var n := |a.padC|;
    Crypt(ks, 0, VC) + (Crypt(ks, 8, Be32(a.provide) + Be16(n)) + (Crypt(ks, 14, a.padC)
      + (Crypt(ks, 14 + n, Be16(|a.ia|)) + (Crypt(ks, 16 + n, a.ia) + la))))
  }

  lemma OfferWireIsSent(ks: Keystream, a: Initiator, la: bytes)
    requires a.provide <= U32_MAX && |a.padC| <= MAX_PAD && |a.ia| <= MAX_IA
    ensures var enc := Negotiation(a);
            |enc| == 16 + |a.padC| && Crypt(ks, 0, enc) + Crypt(ks, |enc|, a.ia) + la == OfferWire(ks, a, la)
  {
    hide Crypt, Be16, Be32;
    var h, n := Be32(a.provide) + Be16(|a.padC|), |a.padC|;
    var l := Be16(|a.ia|);
    assert Negotiation(a) == VC + (h + (a.padC + l));
    CryptConcat(ks, 0, VC, h + (a.padC + l));
    CryptConcat(ks, 8, h, a.padC + l);
    CryptConcat(ks, 14, a.padC, l);
    Nest(Crypt(ks, 0, VC), Crypt(ks, 8, h), Crypt(ks, 14, a.padC), Crypt(ks, 14 + n, l), Crypt(ks, 16 + n, a.ia), la);
  }

  lemma Nest(v: bytes, w: bytes, x: bytes, y: bytes, z: bytes, t: bytes)
    ensures (v + (w + (x + y))) + z + t == v + (w + (x + (y + (z + t))))
  {
  }

  lemma OfferReads(ks: Keystream, a: Initiator, la: bytes)
    requires a.provide <= U32_MAX && |a.padC| <= MAX_PAD && |a.ia| <= MAX_IA
    ensures ReadOffer(ks, OfferWire(ks, a, la)) == Offer(a.provide, a.ia, 16 + |a.padC| + |a.ia|, la)
  {
    hide Crypt, Be16, Be32, FromBe16, FromBe32;
    var n := |a.padC|;
    var h, l := Be32(a.provide) + Be16(n), Be16(|a.ia|);
    var z4 := Crypt(ks, 16 + n, a.ia) + la;
    var z3 := Crypt(ks, 14 + n, l) + z4;
    var z2 := Crypt(ks, 14, a.padC) + z3;
    var z1 := Crypt(ks, 8, h) + z2;
    Prefix(Crypt(ks, 0, VC), z1);
    Prefix(Crypt(ks, 8, h), z2);
    Prefix(Crypt(ks, 14, a.padC), z3);
    CryptInverse(ks, 0, VC);
    CryptInverse(ks, 8, h);
    HeaderFields(a.provide, n);
    IaReads(ks, a.provide, 14 + n, a.ia, la);
  }

  lemma IaReads(ks: Keystream, provide: nat, pos: nat, ia: bytes, la: bytes)
    requires |ia| <= MAX_IA
    ensures ReadIa(ks, provide, pos, Crypt(ks, pos, Be16(|ia|)) + (Crypt(ks, pos + 2, ia) + la))
         == Offer(provide, ia, pos + 2 + |ia|, la)
  {
    hide Crypt, Be16, FromBe16;
    var l := Be16(|ia|);
    Prefix(Crypt(ks, pos, l), Crypt(ks, pos + 2, ia) + la);
    Prefix(Crypt(ks, pos + 2, ia), la);
    CryptInverse(ks, pos, l);
    CryptInverse(ks, pos + 2, ia);
  }

  // The responder's reply, as the initiator reads it ------------------------------

  /** The reply after its VC, cut at the initiator's reads, with what follows. */
  function ReplyWire(ks: Keystream, b: Responder, select: nat, lb: bytes): bytes
    requires select <= U32_MAX && |b.padD| <= MAX_PAD
  {
    var n := |b.padD|;
    Crypt(ks, 8, Be32(select) + Be16(n)) + (Crypt(ks, 14, b.padD)
      + ((if select == CRYPTO_RC4 then Crypt(ks, 14 + n, b.handshake) else b.handshake) + lb))
  }

  lemma ReplyWireIsSent(cr: Crypto, b: Responder, s: bytes, select: nat, lb: bytes)
    requires select <= U32_MAX && |b.padD| <= MAX_PAD
    ensures var ks := cr.keystream(KeyB, s, b.skey);
            ResponderSecond(cr, b, s, select) + lb == Crypt(ks, 0, VC) + ReplyWire(ks, b, select, lb)
  {
    hide Crypt, Be16, Be32;
    var ks := cr.keystream(KeyB, s, b.skey);
    var h := Be32(select) + Be16(|b.padD|);
    assert Reply(b, select) == VC + (h + b.padD);
    CryptConcat(ks, 0, VC, h + b.padD);
    CryptConcat(ks, 8, h, b.padD);
    var hs := if select == CRYPTO_RC4 then Crypt(ks, 14 + |b.padD|, b.handshake) else b.handshake;
    Nest4(Crypt(ks, 0, VC), Crypt(ks, 8, h), Crypt(ks, 14, b.padD), hs, lb);
  }

  lemma Nest4(v: bytes, w: bytes, x: bytes, y: bytes, t: bytes)
    ensures (v + (w + x)) + y + t == v + (w + (x + (y + t)))
  {
  }

  lemma SelectReads(ks: Keystream, b: Responder, provide: nat, select: nat, sendPos: nat, lb: bytes)
    requires |b.padD| <= MAX_PAD && |b.handshake| == HANDSHAKE_LEN
    requires select == CRYPTO_RC4 || (select == CRYPTO_PLAINTEXT && HasPlain(provide))
    ensures ReadSelect(ks, provide, sendPos, ReplyWire(ks, b, select, lb))
         == if select == CRYPTO_RC4 then Encrypted(sendPos, 14 + |b.padD| + HANDSHAKE_LEN, b.handshake, lb)
            else Plain(b.handshake, lb)
  {
    hide Crypt, Be16, Be32, FromBe16, FromBe32;
    var n := |b.padD|;
    var h := Be32(select) + Be16(n);
    var hs := if select == CRYPTO_RC4 then Crypt(ks, 14 + n, b.handshake) else b.handshake;
    var w2 := hs + lb;
    var w1 := Crypt(ks, 14, b.padD) + w2;
    Prefix(Crypt(ks, 8, h), w1);
    Prefix(Crypt(ks, 14, b.padD), w2);
    Prefix(hs, lb);
    CryptInverse(ks, 8, h);
    CryptInverse(ks, 14 + n, b.handshake);
    HeaderFields(select, n);
  }

  // The whole exchange -------------------------------------------------------------

  /** The secret both ends derive. */
  function Secret(cr: Crypto, a: Initiator, b: Responder): bytes { cr.shared(a.x, cr.publicKey(b.x)) }

  /** The encrypted VC that starts the responder's reply. */
  function ReplyMark(cr: Crypto, a: Initiator, b: Responder): bytes {
    Crypt(cr.keystream(KeyB, Secret(cr, a, b), a.skey), 0, VC)
  }

  /**
   What the handshake takes for granted: a working key exchange, pads and payloads of the
   sizes the programs choose, and markers that do not occur earlier by accident.
   */
  ghost predicate Compatible(cr: Crypto, a: Initiator, b: Responder) {
    var s := Secret(cr, a, b);
    && a.skey == b.skey
    && |cr.publicKey(a.x)| == |cr.publicKey(b.x)| == KEY_LEN
    && cr.shared(b.x, cr.publicKey(a.x)) == s
    && !DegenerateKey(cr.publicKey(a.x)) && !DegenerateKey(cr.publicKey(b.x)) && !DegenerateKey(s)
    && cr.publicKey(a.x)[..20] != PLAIN_HEAD
    && |cr.req1(s)| == |cr.skeyHash(s, a.skey)| == 20
    && a.provide <= U32_MAX && |a.ia| <= MAX_IA && |b.handshake| == HANDSHAKE_LEN
    && |a.padA| < MAX_PAD && |a.padC| < MAX_PAD && |b.padB| < MAX_PAD && |b.padD| < MAX_PAD
    && First(a.padA + cr.req1(s), cr.req1(s)) == Some(|a.padA|)
    && First(b.padB + ReplyMark(cr, a, b), ReplyMark(cr, a, b)) == Some(|b.padB|)
  }

  lemma MarkFound(pad: bytes, m: bytes, tail: bytes)
    requires First(pad + m, m) == Some(|pad|) && |pad| < MAX_PAD
    ensures AfterMark(pad + (m + tail), m) == Some(tail)
  {
    FirstExtends(pad + m, m, tail);
    Assoc(pad, m, tail);
    Prefix(pad + m, tail);
  }

  lemma PadThenMark(pad: bytes, m: bytes, tail: bytes)
    requires First(pad + m, m) == Some(|pad|) && |pad| < MAX_PAD && m != []
    ensures !LateMark(pad + (m + tail), m) && First(pad, m).None?
  {
    FirstExtends(pad + m, m, tail);
    Assoc(pad, m, tail);
    if First(pad, m).Some? {
      FirstExtends(pad, m, m);
      FirstIsInside(pad, m);
    }
  }

  lemma FirstIsInside(s: bytes, m: bytes)
    requires First(s, m).Some?
    ensures First(s, m).value + |m| <= |s|
  {
  }

  lemma NoMarkNotLate(u: bytes, m: bytes)
    requires First(u, m).None?
    ensures !LateMark(u, m)
  {
  }

  /** The responder's first flight holds no reply: without more the initiator finds nothing. */
  lemma NoReplyInPad(cr: Crypto, a: Initiator, b: Responder)
    requires Compatible(cr, a, b)
    ensures InitiatorReads(cr, a, ResponderFirst(cr, b)) == Failed(NoSync)
  {
    hide Crypt, First, DegenerateKey, ReadSelect;
    Prefix(cr.publicKey(b.x), b.padB);
    PadThenMark(b.padB, ReplyMark(cr, a, b), []);
  }

  /** Whatever follows it, the initiator's output makes the responder read the initiator's offer. */
  lemma ResponderFinds(cr: Crypto, a: Initiator, b: Responder, la: bytes)
    requires Compatible(cr, a, b)
    ensures var s, t := Secret(cr, a, b), InitiatorFirst(cr, a) + InitiatorSecond(cr, a, Secret(cr, a, b)) + la;
            && |t| >= KEY_LEN && t[..KEY_LEN] == cr.publicKey(a.x) && t[..20] == cr.publicKey(a.x)[..20]
            && FindOffer(cr, b, s, t[KEY_LEN..]) == Offer(a.provide, a.ia, 16 + |a.padC| + |a.ia|, la)
  {
    hide Crypt, First, OfferWire, Negotiation, AfterMark, ReadOffer;
    var s := Secret(cr, a, b);
    var ks := cr.keystream(KeyA, s, a.skey);
    var enc := Negotiation(a);
    OfferWireIsSent(ks, a, la);
    var e := OfferWire(ks, a, la);
    var m, k := cr.req1(s), cr.skeyHash(s, a.skey);
    var t := InitiatorFirst(cr, a) + InitiatorSecond(cr, a, s) + la;
    Flatten(cr.publicKey(a.x), a.padA, m, k, Crypt(ks, 0, enc), Crypt(ks, |enc|, a.ia), la);
    assert t == cr.publicKey(a.x) + (a.padA + (m + (k + e)));
    Prefix(cr.publicKey(a.x), a.padA + (m + (k + e)));
    assert t[..20] == t[..KEY_LEN][..20];
    MarkFound(a.padA, m, k + e);
    Prefix(k, e);
    OfferReads(ks, a, la);
  }

  lemma Flatten(y: bytes, p: bytes, m: bytes, k: bytes, c: bytes, d: bytes, t: bytes)
    ensures (y + p) + (m + k + c + d) + t == y + (p + (m + (k + (c + d + t))))
  {
  }

  /** Whatever follows it, the responder's output makes the initiator read the reply. */
  lemma InitiatorFinds(cr: Crypto, a: Initiator, b: Responder, select: nat, lb: bytes)
    requires Compatible(cr, a, b) && Choose(b, a.provide) == Some(select)
    ensures var s, t := Secret(cr, a, b), ResponderFirst(cr, b) + ResponderSecond(cr, b, Secret(cr, a, b), select) + lb;
            && |t| >= KEY_LEN && t[..KEY_LEN] == cr.publicKey(b.x)
            && InitiatorReads(cr, a, t) ==
               (if select == CRYPTO_RC4
                then Encrypted(16 + |a.padC| + |a.ia|, 14 + |b.padD| + HANDSHAKE_LEN, b.handshake, lb)
                else Plain(b.handshake, lb))
  {
    hide Crypt, First, ReplyWire, AfterMark, ReadSelect, DegenerateKey;
    var s := Secret(cr, a, b);
    var ks := cr.keystream(KeyB, s, b.skey);
    ReplyWireIsSent(cr, b, s, select, lb);
    var m, w := ReplyMark(cr, a, b), ReplyWire(ks, b, select, lb);
    var second := ResponderSecond(cr, b, s, select);
    var t := ResponderFirst(cr, b) + second + lb;
    Assoc(ResponderFirst(cr, b), second, lb);
    Assoc(cr.publicKey(b.x), b.padB, m + w);
    assert t == cr.publicKey(b.x) + (b.padB + (m + w));
    Prefix(cr.publicKey(b.x), b.padB + (m + w));
    MarkFound(b.padB, m, w);
    SelectReads(ks, b, a.provide, select, 16 + |a.padC| + |a.ia|, lb);
  }

  /**
   Run against each other with equal torrent keys, and whatever each end sends afterwards
   (`la`, `lb`), the two ends agree on the method, each holds the other's handshake, the send
   position of each end equals the receive position of the other, and every later byte is
   still there in order. They fail together exactly when no method is common.
   */
  lemma HandshakeAgrees(cr: Crypto, a: Initiator, b: Responder, la: bytes, lb: bytes)
    requires Compatible(cr, a, b)
    ensures var s := Secret(cr, a, b);
            var sentA := InitiatorFirst(cr, a) + InitiatorSecond(cr, a, s);
            match Choose(b, a.provide)
            case None =>
              && ResponderReads(cr, b, sentA + la) == Failed(NoMethod)
              && InitiatorReads(cr, a, ResponderFirst(cr, b)) == Failed(NoSync)
            case Some(select) =>
              var sentB := ResponderFirst(cr, b) + ResponderSecond(cr, b, s, select);
              var atA, atB := InitiatorReads(cr, a, sentB + lb), ResponderReads(cr, b, sentA + la);
              && InitiatorSends(cr, a, sentB + lb) == sentA && ResponderSends(cr, b, sentA + la) == sentB
              && (HasRc4(a.provide) ==>
                    && atA.Encrypted? && atB.Encrypted?
                    && atA.sendPos == atB.recvPos && atB.sendPos == atA.recvPos
                    && atA.peerIa == b.handshake && atB.peerIa == a.ia && atA.rest == lb && atB.rest == la)
              && (!HasRc4(a.provide) ==> atA == Plain(b.handshake, lb) && atB == Plain(a.ia, la))
  {
    hide Crypt, First, AfterMark, FindOffer, InitiatorReads, InitiatorSecond, ResponderSecond, DegenerateKey;
    ResponderFinds(cr, a, b, la);
    NoReplyInPad(cr, a, b);
    if Choose(b, a.provide).Some? {
      InitiatorFinds(cr, a, b, Choose(b, a.provide).value, lb);
    }
  }

  /**
   The exchange never deadlocks: each flight is sent on the strength of flights already
   delivered, so four turns complete it, even if nothing is ever sent afterwards.
   */
  lemma HandshakeProgress(cr: Crypto, a: Initiator, b: Responder)
    requires Compatible(cr, a, b) && Choose(b, a.provide).Some?
    ensures var flight1 := InitiatorSends(cr, a, []);
            var flight2 := ResponderSends(cr, b, flight1);
            var flight3 := InitiatorSends(cr, a, flight2);
            var flight4 := ResponderSends(cr, b, flight3);
            && flight1 <= flight3 && flight2 <= flight4
            && !ResponderReads(cr, b, flight3).Failed? && !InitiatorReads(cr, a, flight4).Failed?
  {
    hide Crypt, First, AfterMark, FindOffer, InitiatorReads, ResponderReads, InitiatorSecond, ResponderSecond, DegenerateKey;
    var s := Secret(cr, a, b);
    var first, second := InitiatorFirst(cr, a), InitiatorSecond(cr, a, s);
    Prefix(cr.publicKey(a.x), a.padA);
    assert first[..20] == first[..KEY_LEN][..20];
    NoOfferInPad(cr, a, b);
    Prefix(cr.publicKey(b.x), b.padB);
    HandshakeAgrees(cr, a, b, [], []);
    var select := Choose(b, a.provide).value;
    var sentB := ResponderFirst(cr, b) + ResponderSecond(cr, b, s, select);
    assert first + second + [] == first + second && sentB + [] == sentB;
  }

  /** The pad alone holds no offer, so the responder waits after its first flight. */
  lemma NoOfferInPad(cr: Crypto, a: Initiator, b: Responder)
    requires Compatible(cr, a, b)
    ensures FindOffer(cr, b, Secret(cr, a, b), a.padA).BadOffer?
  {
    var m := cr.req1(Secret(cr, a, b));
    if First(a.padA, m).Some? {
      FirstExtends(a.padA, m, m);
    }
  }

  lemma ResponderSession(cr: Crypto, a: Initiator, b: Responder, la: bytes)
    requires Compatible(cr, a, b) && HasRc4(a.provide)
    ensures ResponderReads(cr, b, InitiatorFirst(cr, a) + InitiatorSecond(cr, a, Secret(cr, a, b)) + la)
         == Encrypted(14 + |b.padD| + HANDSHAKE_LEN, 16 + |a.padC| + |a.ia|, a.ia, la)
  {
    hide Crypt, First, AfterMark, FindOffer, InitiatorSecond, DegenerateKey;
    ResponderFinds(cr, a, b, la);
  }

  lemma InitiatorSession(cr: Crypto, a: Initiator, b: Responder, lb: bytes)
    requires Compatible(cr, a, b) && HasRc4(a.provide)
    ensures InitiatorReads(cr, a, ResponderFirst(cr, b) + ResponderSecond(cr, b, Secret(cr, a, b), CRYPTO_RC4) + lb)
         == Encrypted(16 + |a.padC| + |a.ia|, 14 + |b.padD| + HANDSHAKE_LEN, b.handshake, lb)
  {
    hide Crypt, First, InitiatorReads, ResponderSecond, DegenerateKey;
    InitiatorFinds(cr, a, b, CRYPTO_RC4, lb);
  }

  /** What an end with an encrypted session reads from its receiving stream. */
  function Decrypted(ks: Keystream, at: Session): Option<bytes> {
    if at.Encrypted? then Some(Crypt(ks, at.recvPos, at.rest)) else None
  }

  lemma DecryptedIs(ks: Keystream, at: Session, x: bytes)
    requires at.Encrypted? && at.rest == Crypt(ks, at.recvPos, x)
    ensures Decrypted(ks, at) == Some(x)
  {
    CryptInverse(ks, at.recvPos, x);
  }

  /** Bytes the initiator encrypts after the handshake are what the responder decrypts. */
  lemma DeliveredToResponder(cr: Crypto, a: Initiator, b: Responder, x: bytes)
    requires Compatible(cr, a, b) && HasRc4(a.provide)
    ensures var s := Secret(cr, a, b);
            var ks, pos := cr.keystream(KeyA, s, a.skey), 16 + |a.padC| + |a.ia|;
            var at := ResponderReads(cr, b, InitiatorFirst(cr, a) + InitiatorSecond(cr, a, s) + Crypt(ks, pos, x));
            Decrypted(ks, at) == Some(x)
  {
    hide Crypt, Decrypted, First, ResponderReads, InitiatorSecond, InitiatorFirst, Compatible, HasRc4, Secret;
    var ks, pos := cr.keystream(KeyA, Secret(cr, a, b), a.skey), 16 + |a.padC| + |a.ia|;
    ResponderSession(cr, a, b, Crypt(ks, pos, x));
    DecryptedIs(ks, Encrypted(14 + |b.padD| + HANDSHAKE_LEN, pos, a.ia, Crypt(ks, pos, x)), x);
  }

  /** And the other way round. */
  lemma DeliveredToInitiator(cr: Crypto, a: Initiator, b: Responder, y: bytes)
    requires Compatible(cr, a, b) && HasRc4(a.provide)
    ensures var s := Secret(cr, a, b);
            var ks, pos := cr.keystream(KeyB, s, a.skey), 14 + |b.padD| + HANDSHAKE_LEN;
            var at := InitiatorReads(cr, a, ResponderFirst(cr, b) + ResponderSecond(cr, b, s, CRYPTO_RC4) + Crypt(ks, pos, y));
            Decrypted(ks, at) == Some(y)
  {
    hide Crypt, Decrypted, First, InitiatorReads, ResponderSecond, ResponderFirst, Compatible, HasRc4, Secret;
    var ks, pos := cr.keystream(KeyB, Secret(cr, a, b), a.skey), 14 + |b.padD| + HANDSHAKE_LEN;
    InitiatorSession(cr, a, b, Crypt(ks, pos, y));
    DecryptedIs(ks, Encrypted(16 + |a.padC| + |a.ia|, pos, b.handshake, Crypt(ks, pos, y)), y);
  }
}
