/** What the two ends of the handshake refuse, and which method is chosen. */
module MseRefusals {
  import opened Bytes
  import opened Cipher
  import opened Sync
  import opened Mse
  import Base32

  /** RC4 (bit 2) whenever it is offered, plaintext (bit 1) only if RC4 is not and encryption is not forced. */
  lemma Chosen(b: Responder, provide: nat)
    ensures Choose(b, provide) == Some(2) <==> BitAt(provide, 1)
    ensures Choose(b, provide) == Some(1) <==> !BitAt(provide, 1) && BitAt(provide, 0) && !b.forced
    ensures Choose(b, provide).None? <==> !BitAt(provide, 1) && (b.forced || !BitAt(provide, 0))
  {
    assert BitAt(provide, 1) == BitAt(provide / 2, 0);
  }

  /** The keys refused are exactly those that write 0 or 1. */
  lemma {:induction false} DegenerateIff(key: bytes)
    ensures DegenerateKey(key) <==> Base32.FromBase(256, key) <= 1
  {
    if key != [] {
      var front := key[..|key| - 1];
      ZerosIff(front);
      assert forall i :: 0 <= i < |front| ==> front[i] == key[i];
    }
  }

  lemma {:induction false} ZerosIff(key: bytes)
    ensures Base32.FromBase(256, key) == 0 <==> forall i :: 0 <= i < |key| ==> key[i] == 0
  {
    if key != [] {
      ZerosIff(key[..|key| - 1]);
      assert key == key[..|key| - 1] + [key[|key| - 1]];
    }
  }

  /** The marker first starts at `p`, within reach of the scan. */
  ghost predicate Marked(u: bytes, m: bytes, p: nat) {
    MarkAt(u, p, m) && p < 640 && forall k :: 0 <= k < p ==> !MarkAt(u, k, m)
  }

  /**
   An initiator that comes through saw a real key, found the encrypted verification constant where it
   first occurs, and goes on in the clear only if it had offered that.
   */
  lemma InitiatorAccepts(cr: Crypto, a: Initiator, t: bytes)
    requires !InitiatorReads(cr, a, t).Failed?
    ensures |t| >= 96 && Base32.FromBase(256, t[..96]) > 1 && Base32.FromBase(256, cr.shared(a.x, t[..96])) > 1
    ensures var ks := cr.keystream(KeyB, cr.shared(a.x, t[..96]), a.skey);
            exists p: nat :: Marked(t[96..], Crypt(ks, 0, VC), p)
    ensures InitiatorReads(cr, a, t).Plain? ==> BitAt(a.provide, 0)
  {
    hide Crypt, Base32.FromBase, DegenerateKey;
    var s := cr.shared(a.x, t[..96]);
    DegenerateIff(t[..96]);
    DegenerateIff(s);
    var m := Crypt(cr.keystream(KeyB, s, a.skey), 0, VC);
    assert Marked(t[96..], m, First(t[96..], m).value);
  }

  /**
   A responder that comes through either let an ordinary handshake pass, or saw a real key, found
   the marker of the shared secret, recognised the torrent behind it, decrypted eight zeros behind
   that, and goes on in the clear only if encryption is not forced.
   */
  lemma ResponderAccepts(cr: Crypto, b: Responder, t: bytes)
    requires !ResponderReads(cr, b, t).Failed? && !StartsPlain(t)
    ensures |t| >= 96 && Base32.FromBase(256, t[..96]) > 1 && Base32.FromBase(256, cr.shared(b.x, t[..96])) > 1
    ensures var s, u := cr.shared(b.x, t[..96]), t[96..];
            exists p: nat :: Marked(u, cr.req1(s), p) && Recognised(cr, b, s, u[p + |cr.req1(s)|..])
    ensures ResponderReads(cr, b, t).Plain? ==> !b.forced
  {
    hide Crypt, Base32.FromBase, DegenerateKey, FindOffer, Marked, Recognised, PLAIN_HEAD, HasRc4, HasPlain;
    var s, u := cr.shared(b.x, t[..96]), t[96..];
    DegenerateIff(t[..96]);
    DegenerateIff(s);
    OfferRecognised(cr, b, s, u);
  }

  /** The torrent's hash under the secret, and eight zeros under the keystream. */
  predicate Recognised(cr: Crypto, b: Responder, s: bytes, w: bytes) {
    && |w| >= 28 && w[..20] == cr.skeyHash(s, b.skey)
    && Crypt(cr.keystream(KeyA, s, b.skey), 0, w[20..28]) == [0, 0, 0, 0, 0, 0, 0, 0]
  }

  lemma OfferRecognised(cr: Crypto, b: Responder, s: bytes, u: bytes)
    requires FindOffer(cr, b, s, u).Offer?
    ensures exists p: nat :: Marked(u, cr.req1(s), p) && Recognised(cr, b, s, u[p + |cr.req1(s)|..])
  {
    hide Crypt, ReadIa, FromBe32, FromBe16;
    var p := First(u, cr.req1(s)).value;
    var w := u[p + |cr.req1(s)|..];
    assert w[20..][..8] == w[20..28];
    assert Marked(u, cr.req1(s), p) && Recognised(cr, b, s, w);
  }

  // The flights -----------------------------------------------------------------------------------

  /** The offer under the secret: both hashes in the clear, then under key A one text from position 0 on. */
  lemma OfferFlight(cr: Crypto, a: Initiator, s: bytes)
    requires a.provide <= U32_MAX && |a.padC| <= MAX_PAD && |a.ia| <= U16_MAX
    ensures InitiatorSecond(cr, a, s)
            == cr.req1(s) + cr.skeyHash(s, a.skey)
               + Crypt(cr.keystream(KeyA, s, a.skey), 0,
                       [0, 0, 0, 0, 0, 0, 0, 0] + Be32(a.provide) + Be16(|a.padC|) + a.padC + Be16(|a.ia|) + a.ia)
  {
    hide Crypt, Be32, Be16;
    var ks, enc := cr.keystream(KeyA, s, a.skey), Negotiation(a);
    CryptConcat(ks, 0, enc, a.ia);
    assert cr.req1(s) + cr.skeyHash(s, a.skey) + Crypt(ks, 0, enc) + Crypt(ks, |enc|, a.ia)
        == cr.req1(s) + cr.skeyHash(s, a.skey) + (Crypt(ks, 0, enc) + Crypt(ks, |enc|, a.ia));
  }

  /** The reply under key B: with RC4 the handshake goes on in the same keystream, otherwise it is sent as it is. */
  lemma ReplyFlight(cr: Crypto, b: Responder, s: bytes)
    requires |b.padD| <= MAX_PAD
    ensures var ks, pad := cr.keystream(KeyB, s, b.skey), Be16(|b.padD|) + b.padD;
            && ResponderSecond(cr, b, s, 2) == Crypt(ks, 0, [0, 0, 0, 0, 0, 0, 0, 0, 0, 0, 0, 2] + pad + b.handshake)
            && ResponderSecond(cr, b, s, 1) == Crypt(ks, 0, [0, 0, 0, 0, 0, 0, 0, 0, 0, 0, 0, 1] + pad) + b.handshake
  {
    hide Crypt, Be16;
    var ks, pad := cr.keystream(KeyB, s, b.skey), Be16(|b.padD|) + b.padD;
    assert Be32(2) == [0, 0, 0, 2] && Be32(1) == [0, 0, 0, 1];
    assert Reply(b, 2) == [0, 0, 0, 0, 0, 0, 0, 0, 0, 0, 0, 2] + pad;
    assert Reply(b, 1) == [0, 0, 0, 0, 0, 0, 0, 0, 0, 0, 0, 1] + pad;
    CryptConcat(ks, 0, Reply(b, 2), b.handshake);
  }

  /** Paddings of up to 512 bytes and payloads of up to 636 are let through, longer ones end the handshake. */
  lemma Limits(ks: Keystream, mask: nat, pos: nat, n: nat, rest: bytes)
    requires mask <= U32_MAX && n <= U16_MAX
    ensures ReadSelect(ks, mask, pos, Crypt(ks, 8, Be32(mask) + Be16(n)) + rest) == Failed(BadPad) <==> n > 512
    ensures ReadOffer(ks, Crypt(ks, 0, VC) + Crypt(ks, 8, Be32(mask) + Be16(n)) + rest) == BadOffer(BadPad) <==> n > 512
    ensures ReadIa(ks, mask, pos, Crypt(ks, pos, Be16(n)) + rest) == BadOffer(BadIa) <==> n > 636
  {
    hide Crypt, Be32, Be16, FromBe32, FromBe16, HasRc4, HasPlain;
    var hdr := Be32(mask) + Be16(n);
    CryptInverse(ks, 8, hdr);
    CryptInverse(ks, 0, VC);
    CryptInverse(ks, pos, Be16(n));
    assert hdr[..4] == Be32(mask) && hdr[4..] == Be16(n);
    assert (Crypt(ks, 8, hdr) + rest)[..6] == Crypt(ks, 8, hdr);
    var z := Crypt(ks, 0, VC) + Crypt(ks, 8, hdr) + rest;
    assert z[..8] == Crypt(ks, 0, VC) && z[8..][..6] == Crypt(ks, 8, hdr);
    assert (Crypt(ks, pos, Be16(n)) + rest)[..2] == Crypt(ks, pos, Be16(n));
  }

  /** The initiator always opens with its public key, and answers only a real key with a real secret. */
  lemma InitiatorAnswers(cr: Crypto, a: Initiator, t: bytes)
    requires a.provide <= U32_MAX && |a.padC| <= MAX_PAD
    ensures var first := cr.publicKey(a.x) + a.padA;
            InitiatorSends(cr, a, t)
            == if |t| >= 96 && Base32.FromBase(256, t[..96]) > 1 && Base32.FromBase(256, cr.shared(a.x, t[..96])) > 1
               then first + InitiatorSecond(cr, a, cr.shared(a.x, t[..96])) else first
  {
    hide InitiatorSecond, DegenerateKey, Base32.FromBase;
    if |t| >= 96 {
      DegenerateIff(t[..96]);
      DegenerateIff(cr.shared(a.x, t[..96]));
    }
  }

  /** The responder is silent until a real key came, and sends its reply exactly when it comes through. */
  lemma ResponderAnswers(cr: Crypto, b: Responder, t: bytes)
    requires |b.padD| <= MAX_PAD
    ensures |t| < 96 || StartsPlain(t) || Base32.FromBase(256, t[..96]) <= 1 ==> ResponderSends(cr, b, t) == []
    ensures |t| >= 96 && !StartsPlain(t) && Base32.FromBase(256, t[..96]) > 1 ==>
              var s, first := cr.shared(b.x, t[..96]), cr.publicKey(b.x) + b.padB;
              ResponderSends(cr, b, t)
              == match ResponderReads(cr, b, t)
                 case Encrypted(_, _, _, _) => first + ResponderSecond(cr, b, s, 2)
                 case Plain(_, _) => first + ResponderSecond(cr, b, s, 1)
                 case Failed(_) => first
  {
    hide ResponderSecond, DegenerateKey, Base32.FromBase, FindOffer, HasRc4, HasPlain, PLAIN_HEAD;
    if |t| >= 96 {
      DegenerateIff(t[..96]);
    }
  }
}
