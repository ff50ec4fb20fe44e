/**
 The MSE/PE handshake: two programs that exchange public keys behind random padding, find
 each other's encrypted part by scanning, agree on a method, and hand over to a stream whose
 keystream positions must match. Diffie-Hellman, SHA-1 and RC4 are parameters.
 */
module Mse {
  import opened Bytes
  import opened Cipher
  import opened Connection
  import opened Sync

  const KEY_LEN := 96
  const MAX_PAD := 512
  const MAX_IA := 636
  const HANDSHAKE_LEN := 68
  const VC: bytes := [0, 0, 0, 0, 0, 0, 0, 0]
  const CRYPTO_PLAINTEXT := 1
  const CRYPTO_RC4 := 2
  const PLAIN_HEAD: bytes := [0x13] + Ascii("BitTorrent protocol")

  datatype KeyLabel = KeyA | KeyB

  /** The cryptographic primitives, uninterpreted. `shared` raises a public key to a private one. */
  datatype Crypto = Crypto(
    publicKey: nat -> bytes,
    shared: (nat, bytes) -> bytes,
    req1: bytes -> bytes,
    skeyHash: (bytes, bytes) -> bytes,
    keystream: (KeyLabel, bytes, bytes) -> Keystream)

  /** One end of the handshake; pads and the private key are its random choices. */
  datatype Initiator = Initiator(skey: bytes, ia: bytes, provide: nat, x: nat, padA: bytes, padC: bytes)

  datatype Responder = Responder(skey: bytes, handshake: bytes, forced: bool, x: nat, padB: bytes, padD: bytes)

  datatype PeError =
    | Eof | Degenerate | NoSync | BadSkey | BadVc | BadPad | BadIa | BadSelect | NoMethod | PlainRefused

  /** The session reached, and all bytes of the other end that belong to it. */
  datatype Session =
    | Encrypted(sendPos: nat, recvPos: nat, peerIa: bytes, rest: bytes)
    | Plain(peerIa: bytes, rest: bytes)
    | Failed(error: PeError)

  /** `PeOutcome`: the pending bytes are those read beyond the handshake. */
  datatype Outcome =
    | EncryptedOutcome(sendPos: nat, recvPos: nat, peerIa: bytes, pending: bytes)
    | PlainOutcome(peerIa: bytes, pending: bytes)
    | FailedOutcome(error: PeError)

  predicate HasRc4(mask: nat) { mask / 2 % 2 == 1 }
  predicate HasPlain(mask: nat) { mask % 2 == 1 }

  predicate DegenerateKey(key: bytes) {
    key == [] || ((forall i :: 0 <= i < |key| - 1 ==> key[i] == 0) && key[|key| - 1] <= 1)
  }

  // What each end makes of the bytes it receives -----------------------------------

  /** The first marker a scan can accept, and the bytes after it. */
  function AfterMark(u: bytes, m: bytes): Option<bytes> {
    match First(u, m)
    case Some(p) => if p < SCAN_LIMIT + CHUNK then Some(u[p + |m|..]) else None
    case None => None
  }

  /** crypto_select, PadD and the responder's handshake. */
  function ReadSelect(ks: Keystream, provide: nat, sendPos: nat, w: bytes): Session {
    if |w| < 6 then Failed(Eof)
    else
      var hdr, w1 := Crypt(ks, 8, w[..6]), w[6..];
      var select, n := FromBe32(hdr[..4]), FromBe16(hdr[4..]);
      if n > MAX_PAD then Failed(BadPad)
      else if |w1| < n then Failed(Eof)
      else
        var w2 := w1[n..];
        if |w2| < HANDSHAKE_LEN then Failed(Eof)
        else
          var hs, rest := w2[..HANDSHAKE_LEN], w2[HANDSHAKE_LEN..];
          if HasRc4(select) then Encrypted(sendPos, 14 + n + HANDSHAKE_LEN, Crypt(ks, 14 + n, hs), rest)
          else if HasPlain(select) && HasPlain(provide) then Plain(hs, rest)
          else Failed(BadSelect)
  }

  function InitiatorReads(cr: Crypto, a: Initiator, t: bytes): Session {
    if |t| < KEY_LEN then Failed(Eof)
    else
      var yb := t[..KEY_LEN];
      var s := cr.shared(a.x, yb);
      if DegenerateKey(yb) || DegenerateKey(s) then Failed(Degenerate)
      else
        var ks := cr.keystream(KeyB, s, a.skey);
        match AfterMark(t[KEY_LEN..], Crypt(ks, 0, VC))
        case None => Failed(NoSync)
        case Some(w) => ReadSelect(ks, a.provide, 16 + |a.padC| + |a.ia|, w)
  }

  /** VC, crypto_provide, PadC and the initial payload, after the torrent was recognised. */
  datatype Offer = Offer(provide: nat, ia: bytes, used: nat, rest: bytes) | BadOffer(error: PeError)

  function ReadIa(ks: Keystream, provide: nat, pos: nat, z: bytes): Offer {
    if |z| < 2 then BadOffer(Eof)
    else
      var len, z1 := FromBe16(Crypt(ks, pos, z[..2])), z[2..];
      if len > MAX_IA then BadOffer(BadIa)
      else if |z1| < len then BadOffer(Eof)
      else Offer(provide, Crypt(ks, pos + 2, z1[..len]), pos + 2 + len, z1[len..])
  }

  function ReadOffer(ks: Keystream, z: bytes): Offer {
    if |z| < 8 then BadOffer(Eof)
    else if Crypt(ks, 0, z[..8]) != VC then BadOffer(BadVc)
    else
      var z1 := z[8..];
      if |z1| < 6 then BadOffer(Eof)
      else
        var hdr, z2 := Crypt(ks, 8, z1[..6]), z1[6..];
        var provide, n := FromBe32(hdr[..4]), FromBe16(hdr[4..]);
        if n > MAX_PAD then BadOffer(BadPad)
        else if |z2| < n then BadOffer(Eof)
        else ReadIa(ks, provide, 14 + n, z2[n..])
  }

  function FindOffer(cr: Crypto, b: Responder, s: bytes, u: bytes): Offer {
    match AfterMark(u, cr.req1(s))
    case None => BadOffer(NoSync)
    case Some(w) =>
      if |w| < 20 then BadOffer(Eof)
      else if w[..20] != cr.skeyHash(s, b.skey) then BadOffer(BadSkey)
      else ReadOffer(cr.keystream(KeyA, s, b.skey), w[20..])
  }

  /** The method the responder picks: RC4 first, plaintext only when it is not forced. */
  function Choose(b: Responder, provide: nat): Option<nat> {
    if HasRc4(provide) then Some(CRYPTO_RC4)
    else if !b.forced && HasPlain(provide) then Some(CRYPTO_PLAINTEXT)
    else None
  }

  function ResponderReads(cr: Crypto, b: Responder, t: bytes): Session {
    if |t| < 20 then Failed(Eof)
    else if t[..20] == PLAIN_HEAD then (if b.forced then Failed(PlainRefused) else Plain([], t))
    else if |t| < KEY_LEN then Failed(Eof)
    else
      var ya := t[..KEY_LEN];
      var s := cr.shared(b.x, ya);
      if DegenerateKey(ya) || DegenerateKey(s) then Failed(Degenerate)
      else
        match FindOffer(cr, b, s, t[KEY_LEN..])
        case BadOffer(e) => Failed(e)
        case Offer(provide, ia, used, rest) =>
          match Choose(b, provide)
          case None => Failed(NoMethod)
          case Some(select) =>
            if select == CRYPTO_RC4 then Encrypted(14 + |b.padD| + |b.handshake|, used, ia, rest)
            else Plain(ia, rest)
  }

  // What each end sends -------------------------------------------------------------

  function Negotiation(a: Initiator): bytes
    requires a.provide <= U32_MAX && |a.padC| <= MAX_PAD
  {
    VC + Be32(a.provide) + Be16(|a.padC|) + a.padC + Be16(|a.ia| % 0x1_0000)
  }

  /** Everything the initiator sends up to and including its payload, given the shared secret. */
  function InitiatorSecond(cr: Crypto, a: Initiator, s: bytes): bytes
    requires a.provide <= U32_MAX && |a.padC| <= MAX_PAD
  {
    var ks := cr.keystream(KeyA, s, a.skey);
    var enc := Negotiation(a);
    cr.req1(s) + cr.skeyHash(s, a.skey) + Crypt(ks, 0, enc) + Crypt(ks, |enc|, a.ia)
  }

  function InitiatorFirst(cr: Crypto, a: Initiator): bytes { cr.publicKey(a.x) + a.padA }

  /** What the initiator has sent once `t` is all it has received. */
  function InitiatorSends(cr: Crypto, a: Initiator, t: bytes): bytes
    requires a.provide <= U32_MAX && |a.padC| <= MAX_PAD
  {
    if |t| < KEY_LEN then InitiatorFirst(cr, a)
    else
      var s := cr.shared(a.x, t[..KEY_LEN]);
      if DegenerateKey(t[..KEY_LEN]) || DegenerateKey(s) then InitiatorFirst(cr, a)
      else InitiatorFirst(cr, a) + InitiatorSecond(cr, a, s)
  }

  function ResponderFirst(cr: Crypto, b: Responder): bytes { cr.publicKey(b.x) + b.padB }

  function Reply(b: Responder, select: nat): bytes
    requires select <= U32_MAX && |b.padD| <= MAX_PAD
  {
    VC + Be32(select) + Be16(|b.padD|) + b.padD
  }

  function ResponderSecond(cr: Crypto, b: Responder, s: bytes, select: nat): bytes
    requires select <= U32_MAX && |b.padD| <= MAX_PAD
  {
    var ks := cr.keystream(KeyB, s, b.skey);
    var resp := Reply(b, select);
    Crypt(ks, 0, resp) + (if select == CRYPTO_RC4 then Crypt(ks, |resp|, b.handshake) else b.handshake)
  }

  /** What the responder has sent once `t` is all it has received. */
  function ResponderSends(cr: Crypto, b: Responder, t: bytes): bytes
    requires |b.padD| <= MAX_PAD
  {
    if |t| < KEY_LEN || t[..20] == PLAIN_HEAD || DegenerateKey(t[..KEY_LEN]) then []
    else
      var s := cr.shared(b.x, t[..KEY_LEN]);
      if DegenerateKey(s) then ResponderFirst(cr, b)
      else
        match FindOffer(cr, b, s, t[KEY_LEN..])
        case BadOffer(_) => ResponderFirst(cr, b)
        case Offer(provide, _, _, _) =>
          match Choose(b, provide)
          case None => ResponderFirst(cr, b)
          case Some(select) => ResponderFirst(cr, b) + ResponderSecond(cr, b, s, select)
  }

  // The two programs ----------------------------------------------------------------

  /** The outcome stands for the session when its pending and unread bytes are the session's rest. */
  ghost predicate Stands(o: Outcome, s: Session, unread: bytes) {
    match s
    case Encrypted(sp, rp, ia, rest) =>
      o.EncryptedOutcome? && o.sendPos == sp && o.recvPos == rp && o.peerIa == ia && o.pending + unread == rest
    case Plain(ia, rest) => o.PlainOutcome? && o.peerIa == ia && o.pending + unread == rest
    case Failed(e) => o == FailedOutcome(e)
  }

  /** Beyond offset 512 a marker is accepted or refused depending on how the reads fall. */
  ghost predicate LateMark(u: bytes, m: bytes) {
    First(u, m).Some? && First(u, m).value > SCAN_LIMIT
  }

  lemma TakeIs(w: bytes, v: bytes, u: bytes)
    requires w == v + u
    ensures v == w[..|v|] && u == w[|v|..]
  {
  }

  method ReceiveSelect(r: RawBuf, recv: Rc4, provide: nat, sendPos: nat) returns (o: Outcome)
    requires recv.pos == 8
    modifies r`pending, r.conn`incoming, recv`pos
    ensures Stands(o, ReadSelect(recv.ks, provide, sendPos, old(r.Unread())), r.conn.incoming)
  {
    hide FromBe32, FromBe16, Crypt, HasRc4, HasPlain;
    ghost var w := r.Unread();
    var h := r.ReadExact(6);
    if h.None? {
      return FailedOutcome(Eof);
    }
    ghost var w1 := r.Unread();
    TakeIs(w, h.value, w1);
    var hdr := recv.Process(h.value);
    var select, n := FromBe32(hdr[..4]), FromBe16(hdr[4..]);
    if n > MAX_PAD {
      return FailedOutcome(BadPad);
    }
    var padD := r.ReadExact(n);
    if padD.None? {
      return FailedOutcome(Eof);
    }
    ghost var w2 := r.Unread();
    TakeIs(w1, padD.value, w2);
    var _ := recv.Process(padD.value);
    var hs := r.ReadExact(HANDSHAKE_LEN);
    if hs.None? {
      return FailedOutcome(Eof);
    }
    TakeIs(w2, hs.value, r.Unread());
    if HasRc4(select) {
      var peerIa := recv.Process(hs.value);
      return EncryptedOutcome(sendPos, recv.pos, peerIa, r.pending);
    }
    if HasPlain(select) && HasPlain(provide) {
      return PlainOutcome(hs.value, r.pending);
    }
    return FailedOutcome(BadSelect);
  }

  /** Scans for the marker; on success the buffer holds what was read beyond it. */
  method Synchronise(conn: Conn, m: bytes) returns (r: Option<RawBuf>)
    requires m != []
    modifies conn`incoming
    ensures r.Some? ==> r.value.conn == conn && fresh(r.value)
                        && AfterMark(old(conn.incoming), m) == Some(r.value.Unread())
    ensures r.None? ==> AfterMark(old(conn.incoming), m).None? || LateMark(old(conn.incoming), m)
  {
    hide First;
    var scan, _ := ScanSync(conn, m);
    match scan {
      case Found(leftover) =>
        var buf := new RawBuf(conn, leftover);
        r := Some(buf);
      case LimitExceeded => r := None;
      case Closed => r := None;
    }
  }

  /** The plain hashes, then the encrypted negotiation, then the encrypted payload. */
  method SendOffer(conn: Conn, cr: Crypto, a: Initiator, s: bytes, send: Rc4)
    requires a.provide <= U32_MAX && |a.padC| <= MAX_PAD
    requires send.pos == 0 && send.ks == cr.keystream(KeyA, s, a.skey)
    modifies conn`written, send`pos
    ensures conn.written == old(conn.written) + InitiatorSecond(cr, a, s)
    ensures send.pos == 16 + |a.padC| + |a.ia|
  {
    hide Crypt;
    conn.WriteAll(cr.req1(s) + cr.skeyHash(s, a.skey));
    var enc := send.Process(Negotiation(a));
    conn.WriteAll(enc);
    var ia := send.Process(a.ia);
    conn.WriteAll(ia);
  }

  method PeInitiator(conn: Conn, cr: Crypto, a: Initiator) returns (o: Outcome)
    requires a.provide <= U32_MAX && |a.padC| <= MAX_PAD
    modifies conn
    ensures conn.written == old(conn.written) + InitiatorSends(cr, a, old(conn.incoming))
    ensures Stands(o, InitiatorReads(cr, a, old(conn.incoming)), conn.incoming)
         || (o == FailedOutcome(NoSync) && |old(conn.incoming)| >= KEY_LEN
             && LateMark(old(conn.incoming)[KEY_LEN..], InitiatorMark(cr, a, old(conn.incoming)[..KEY_LEN])))
  {
    hide First, ReadSelect, AfterMark, LateMark, Crypt, DegenerateKey, InitiatorSecond;
    ghost var t := conn.incoming;
    conn.WriteAll(InitiatorFirst(cr, a));
    var raw := new RawBuf(conn, []);
    var key := raw.ReadExact(KEY_LEN);
    if key.None? {
      return FailedOutcome(Eof);
    }
    var yb := key.value;
    TakeIs(t, yb, raw.Unread());
    ExactLeavesNothing(raw);
    if DegenerateKey(yb) {
      return FailedOutcome(Degenerate);
    }
    var s := cr.shared(a.x, yb);
    if DegenerateKey(s) {
      return FailedOutcome(Degenerate);
    }
    var send := new Rc4(cr.keystream(KeyA, s, a.skey));
    var recv := new Rc4(cr.keystream(KeyB, s, a.skey));
    SendOffer(conn, cr, a, s, send);
    Join(old(conn.written), InitiatorFirst(cr, a), InitiatorSecond(cr, a, s));
    var vcWire := recv.Process(VC);
    var r := Synchronise(conn, vcWire);
    if r.None? {
      return FailedOutcome(NoSync);
    }
    o := ReceiveSelect(r.value, recv, a.provide, send.pos);
  }

  lemma Join(w: bytes, f: bytes, x: bytes)
    ensures w + f + x == w + (f + x)
  {
  }

  /** The encrypted VC the initiator scans for. */
  function InitiatorMark(cr: Crypto, a: Initiator, yb: bytes): bytes {
    Crypt(cr.keystream(KeyB, cr.shared(a.x, yb), a.skey), 0, VC)
  }

  lemma ExactLeavesNothing(raw: RawBuf)
    requires raw.pending == []
    ensures raw.Unread() == raw.conn.incoming
  {
  }

  method ReceiveIa(r: RawBuf, recv: Rc4, provide: nat) returns (o: Offer)
    modifies r`pending, r.conn`incoming, recv`pos
    ensures match ReadIa(recv.ks, provide, old(recv.pos), old(r.Unread()))
            case BadOffer(e) => o == BadOffer(e)
            case Offer(pr, ia, used, rest) => o == Offer(pr, ia, used, r.pending) && r.Unread() == rest
  {
    var start := recv.pos;
    ghost var z := r.Unread();
    var l := r.ReadExact(2);
    if l.None? {
      return BadOffer(Eof);
    }
    ghost var z1 := r.Unread();
    TakeIs(z, l.value, z1);
    var lenBytes := recv.Process(l.value);
    var len := FromBe16(lenBytes);
    if len > MAX_IA {
      return BadOffer(BadIa);
    }
    var ia := r.ReadExact(len);
    if ia.None? {
      return BadOffer(Eof);
    }
    TakeIs(z1, ia.value, r.Unread());
    var peerIa := recv.Process(ia.value);
    return Offer(provide, peerIa, recv.pos, r.pending);
  }

  method ReceiveOffer(r: RawBuf, recv: Rc4) returns (o: Offer)
    requires recv.pos == 0
    modifies r`pending, r.conn`incoming, recv`pos
    ensures match ReadOffer(recv.ks, old(r.Unread()))
            case BadOffer(e) => o == BadOffer(e)
            case Offer(provide, ia, used, rest) => o == Offer(provide, ia, used, r.pending) && r.Unread() == rest
  {
    hide ReadIa, FromBe32, FromBe16, Crypt;
    ghost var z := r.Unread();
    var v := r.ReadExact(8);
    if v.None? {
      return BadOffer(Eof);
    }
    ghost var z1 := r.Unread();
    TakeIs(z, v.value, z1);
    var vc := recv.Process(v.value);
    if vc != VC {
      return BadOffer(BadVc);
    }
    var h := r.ReadExact(6);
    if h.None? {
      return BadOffer(Eof);
    }
    ghost var z2 := r.Unread();
    TakeIs(z1, h.value, z2);
    var hdr := recv.Process(h.value);
    var provide, n := FromBe32(hdr[..4]), FromBe16(hdr[4..]);
    if n > MAX_PAD {
      return BadOffer(BadPad);
    }
    var padC := r.ReadExact(n);
    if padC.None? {
      return BadOffer(Eof);
    }
    TakeIs(z2, padC.value, r.Unread());
    var _ := recv.Process(padC.value);
    o := ReceiveIa(r, recv, provide);
  }

  /** The responder's second flight and the handshake behind it, encrypted if that was chosen. */
  method SendReply(conn: Conn, cr: Crypto, b: Responder, s: bytes, select: nat) returns (sendPos: nat)
    requires |b.padD| <= MAX_PAD && select <= U32_MAX
    modifies conn`written
    ensures conn.written == old(conn.written) + ResponderSecond(cr, b, s, select)
    ensures sendPos == 14 + |b.padD| + if select == CRYPTO_RC4 then |b.handshake| else 0
  {
    hide Crypt;
    var send := new Rc4(cr.keystream(KeyB, s, b.skey));
    var resp := send.Process(Reply(b, select));
    conn.WriteAll(resp);
    var hs := b.handshake;
    if select == CRYPTO_RC4 {
      hs := send.Process(b.handshake);
    }
    conn.WriteAll(hs);
    Join2(old(conn.written), resp, hs);
    return send.pos;
  }

  /** The marker the responder scans for. */
  function ResponderMark(cr: Crypto, b: Responder, ya: bytes): bytes { cr.req1(cr.shared(b.x, ya)) }

  method ReceiveFindOffer(conn: Conn, cr: Crypto, b: Responder, s: bytes) returns (o: Offer)
    requires cr.req1(s) != []
    modifies conn`incoming
    ensures var spec := FindOffer(cr, b, s, old(conn.incoming));
            || (match spec
                case BadOffer(e) => o == BadOffer(e)
                case Offer(provide, ia, used, rest) =>
                  o.Offer? && o.(rest := rest) == spec && o.rest + conn.incoming == rest)
            || (o == BadOffer(NoSync) && LateMark(old(conn.incoming), cr.req1(s)))
  {
    hide First, ReadOffer, AfterMark, LateMark;
    var r := Synchronise(conn, cr.req1(s));
    if r.None? {
      return BadOffer(NoSync);
    }
    ghost var w := r.value.Unread();
    var h := r.value.ReadExact(20);
    if h.None? {
      return BadOffer(Eof);
    }
    TakeIs(w, h.value, r.value.Unread());
    if h.value != cr.skeyHash(s, b.skey) {
      return BadOffer(BadSkey);
    }
    var recv := new Rc4(cr.keystream(KeyA, s, b.skey));
    o := ReceiveOffer(r.value, recv);
  }

  /** An ordinary handshake: the length byte and the protocol string. */
  predicate StartsPlain(t: bytes) { |t| >= 20 && t[..20] == PLAIN_HEAD }

  /**
   The responder. A peer that starts with the ordinary handshake is let through untouched, its first
   bytes handed back with the rest, unless encryption is forced; nothing is written to it.
   */
  method PeResponder(conn: Conn, cr: Crypto, b: Responder) returns (o: Outcome)
    requires |b.padD| <= MAX_PAD
    requires forall s :: cr.req1(s) != []
    modifies conn
    ensures || (Stands(o, ResponderReads(cr, b, old(conn.incoming)), conn.incoming)
                && conn.written == old(conn.written) + ResponderSends(cr, b, old(conn.incoming)))
            || (o == FailedOutcome(NoSync) && |old(conn.incoming)| >= KEY_LEN
                && LateMark(old(conn.incoming)[KEY_LEN..], ResponderMark(cr, b, old(conn.incoming)[..KEY_LEN])))
    ensures StartsPlain(old(conn.incoming)) ==>
              && conn.written == old(conn.written)
              && (if b.forced then o == FailedOutcome(PlainRefused)
                  else o.PlainOutcome? && o.peerIa == [] && o.pending + conn.incoming == old(conn.incoming))
  {
    hide First, FindOffer, LateMark, Crypt, DegenerateKey, PLAIN_HEAD, StartsPlain;
    ghost var t := conn.incoming;
    var raw := new RawBuf(conn, []);
    var h := raw.ReadExact(20);
    HeadIs(t);
    if h.None? {
      return FailedOutcome(Eof);
    }
    var head := h.value;
    ghost var t1 := raw.Unread();
    TakeIs(t, head, t1);
    ExactLeavesNothing(raw);
    if head == PLAIN_HEAD {
      if b.forced {
        return FailedOutcome(PlainRefused);
      }
      return PlainOutcome([], head);
    }
    var more := raw.ReadExact(KEY_LEN - 20);
    if more.None? {
      return FailedOutcome(Eof);
    }
    var ya := head + more.value;
    ExactLeavesNothing(raw);
    assert t == ya + conn.incoming;
    TakeIs(t, ya, conn.incoming);
    if DegenerateKey(ya) {
      return FailedOutcome(Degenerate);
    }
    conn.WriteAll(ResponderFirst(cr, b));
    var s := cr.shared(b.x, ya);
    if DegenerateKey(s) {
      return FailedOutcome(Degenerate);
    }
    var offer := ReceiveFindOffer(conn, cr, b, s);
    if offer.BadOffer? {
      return FailedOutcome(offer.error);
    }
    var choice := Choose(b, offer.provide);
    if choice.None? {
      return FailedOutcome(NoMethod);
    }
    var sendPos := SendReply(conn, cr, b, s, choice.value);
    if choice.value == CRYPTO_RC4 {
      return EncryptedOutcome(sendPos, offer.used, offer.ia, offer.rest);
    }
    return PlainOutcome(offer.ia, offer.rest);
  }

  lemma HeadIs(t: bytes)
    ensures StartsPlain(t) <==> |t| >= 20 && t[..20] == PLAIN_HEAD
  {
  }

  lemma Join2(w: bytes, f: bytes, x: bytes)
    ensures w + f + x == w + (f + x)
  {
  }
}
