/** The two handshake programs run against each other on their connections. */
module MseRun {
  import opened Bytes
  import opened Cipher
  import opened Connection
  import opened Sync
  import opened Mse
  import opened MseAgreement

  /** What the initiator is sent, up to the handshake, when the responder picks `choice`. */
  function ToInitiator(cr: Crypto, a: Initiator, b: Responder, choice: Option<nat>): bytes
    requires |b.padD| <= MAX_PAD && (choice.Some? ==> choice.value <= U32_MAX)
  {
    ResponderFirst(cr, b) + (if choice.Some? then ResponderSecond(cr, b, Secret(cr, a, b), choice.value) else [])
  }

  function ToResponder(cr: Crypto, a: Initiator, b: Responder): bytes
    requires a.provide <= U32_MAX && |a.padC| <= MAX_PAD
  {
    InitiatorFirst(cr, a) + InitiatorSecond(cr, a, Secret(cr, a, b))
  }

  /** The markers the two programs scan for never fall where reads decide. */
  lemma ResponderNotLate(cr: Crypto, a: Initiator, b: Responder, la: bytes)
    requires Compatible(cr, a, b)
    ensures var t := ToResponder(cr, a, b) + la;
            && |t| >= KEY_LEN && t[..KEY_LEN] == cr.publicKey(a.x)
            && !LateMark(t[KEY_LEN..], ResponderMark(cr, b, t[..KEY_LEN]))
  {
    hide Crypt, First, Negotiation, DegenerateKey, LateMark;
    var s := Secret(cr, a, b);
    var ks := cr.keystream(KeyA, s, a.skey);
    var enc := Negotiation(a);
    var m, k := cr.req1(s), cr.skeyHash(s, a.skey);
    var t := ToResponder(cr, a, b) + la;
    var tail := k + (Crypt(ks, 0, enc) + Crypt(ks, |enc|, a.ia) + la);
    Flatten(cr.publicKey(a.x), a.padA, m, k, Crypt(ks, 0, enc), Crypt(ks, |enc|, a.ia), la);
    assert t == cr.publicKey(a.x) + (a.padA + (m + tail));
    Prefix(cr.publicKey(a.x), a.padA + (m + tail));
    PadThenMark(a.padA, m, tail);
  }

  lemma InitiatorNotLate(cr: Crypto, a: Initiator, b: Responder, lb: bytes)
    requires Compatible(cr, a, b)
    ensures var choice := Choose(b, a.provide);
            var t := ToInitiator(cr, a, b, choice) + (if choice.Some? then lb else []);
            && |t| >= KEY_LEN && t[..KEY_LEN] == cr.publicKey(b.x)
            && !LateMark(t[KEY_LEN..], InitiatorMark(cr, a, t[..KEY_LEN]))
            && (choice.None? ==> InitiatorReads(cr, a, t) == Failed(NoSync))
  {
    hide Crypt, First, DegenerateKey, LateMark, ReplyWire;
    var s := Secret(cr, a, b);
    var m := ReplyMark(cr, a, b);
    var choice := Choose(b, a.provide);
    if choice.Some? {
      var select := choice.value;
      var w := ReplyWire(cr.keystream(KeyB, s, b.skey), b, select, lb);
      ReplyWireIsSent(cr, b, s, select, lb);
      var second := ResponderSecond(cr, b, s, select);
      Assoc(ResponderFirst(cr, b), second, lb);
      Assoc(cr.publicKey(b.x), b.padB, m + w);
      Prefix(cr.publicKey(b.x), b.padB + (m + w));
      PadThenMark(b.padB, m, w);
    } else {
      assert ToInitiator(cr, a, b, choice) + [] == cr.publicKey(b.x) + b.padB;
      Prefix(cr.publicKey(b.x), b.padB);
      PadThenMark(b.padB, m, []);
      NoMarkNotLate(b.padB, m);
      NoReplyInPad(cr, a, b);
    }
  }

  /** What both ends hold when they are through; `la` and `lb` are their later bytes. */
  ghost predicate Agreed(cr: Crypto, a: Initiator, b: Responder, la: bytes, lb: bytes,
                         oa: Outcome, unreadA: bytes, ob: Outcome, unreadB: bytes) {
    match Choose(b, a.provide)
    case None => oa == FailedOutcome(NoSync) && ob == FailedOutcome(NoMethod)
    case Some(_) =>
      if HasRc4(a.provide) then
        && oa.EncryptedOutcome? && ob.EncryptedOutcome?
        && oa.sendPos == ob.recvPos && ob.sendPos == oa.recvPos
        && oa.peerIa == b.handshake && ob.peerIa == a.ia
        && oa.pending + unreadA == lb && ob.pending + unreadB == la
      else
        && oa.PlainOutcome? && ob.PlainOutcome?
        && oa.peerIa == b.handshake && ob.peerIa == a.ia
        && oa.pending + unreadA == lb && ob.pending + unreadB == la
  }

  lemma SpecsAgree(cr: Crypto, a: Initiator, b: Responder, la: bytes, lb: bytes,
                   oa: Outcome, unreadA: bytes, ob: Outcome, unreadB: bytes)
    requires Compatible(cr, a, b)
    requires var choice := Choose(b, a.provide);
             && Stands(oa, InitiatorReads(cr, a, ToInitiator(cr, a, b, choice) + (if choice.Some? then lb else [])), unreadA)
             && Stands(ob, ResponderReads(cr, b, ToResponder(cr, a, b) + la), unreadB)
    ensures Agreed(cr, a, b, la, lb, oa, unreadA, ob, unreadB)
    ensures var choice := Choose(b, a.provide);
            && InitiatorSends(cr, a, ToInitiator(cr, a, b, choice) + (if choice.Some? then lb else [])) == ToResponder(cr, a, b)
            && ResponderSends(cr, b, ToResponder(cr, a, b) + la) == ToInitiator(cr, a, b, choice)
  {
    hide Crypt, First, AfterMark, FindOffer, InitiatorReads, ResponderReads, InitiatorSecond, ResponderSecond, DegenerateKey, LateMark;
    HandshakeAgrees(cr, a, b, la, lb);
    InitiatorNotLate(cr, a, b, lb);
    if Choose(b, a.provide).None? {
      SendsWithoutMethod(cr, a, b, la);
    }
  }

  lemma SendsWithoutMethod(cr: Crypto, a: Initiator, b: Responder, la: bytes)
    requires Compatible(cr, a, b) && Choose(b, a.provide).None?
    ensures InitiatorSends(cr, a, ToInitiator(cr, a, b, None) + []) == ToResponder(cr, a, b)
    ensures ResponderSends(cr, b, ToResponder(cr, a, b) + la) == ToInitiator(cr, a, b, None)
  {
    hide Crypt, First, AfterMark, FindOffer, InitiatorSecond, ResponderSecond, DegenerateKey;
    ResponderFinds(cr, a, b, la);
    assert ToInitiator(cr, a, b, None) + [] == cr.publicKey(b.x) + b.padB == ToInitiator(cr, a, b, None);
    Prefix(cr.publicKey(b.x), b.padB);
  }

  /**
   Runs both programs. The stream of each connection is what the other program wrote, followed by
   its later bytes; a responder that finds no common method hangs up instead. Each program wrote
   its flights, came out as its reading of that stream says, and left the rest of it unread.
   */
  method Exchange(cr: Crypto, a: Initiator, b: Responder, la: bytes, lb: bytes)
    returns (oa: Outcome, connA: Conn, ob: Outcome, connB: Conn)
    requires Compatible(cr, a, b) && forall s :: cr.req1(s) != []
    ensures connA != connB && connB.stream == connA.written + la
    ensures connA.stream == connB.written + (if Choose(b, a.provide).Some? then lb else [])
    ensures connA.written == InitiatorSends(cr, a, connA.stream) == ToResponder(cr, a, b)
    ensures connB.written == ResponderSends(cr, b, connB.stream) == ToInitiator(cr, a, b, Choose(b, a.provide))
    ensures Stands(oa, InitiatorReads(cr, a, connA.stream), connA.incoming)
    ensures Stands(ob, ResponderReads(cr, b, connB.stream), connB.incoming)
    ensures Agreed(cr, a, b, la, lb, oa, connA.incoming, ob, connB.incoming)
  {
    hide Agreed, Compatible, Stands, LateMark, InitiatorReads, ResponderReads, InitiatorSends, ResponderSends;
    hide Choose, ToInitiator, ToResponder, InitiatorMark, ResponderMark;
    Sizes(cr, a, b);
    var choice := Choose(b, a.provide);
    var toA := ToInitiator(cr, a, b, choice) + (if choice.Some? then lb else []);
    var toB := ToResponder(cr, a, b) + la;
    connA := new Conn(toA);
    connB := new Conn(toB);
    InitiatorNotLate(cr, a, b, lb);
    ResponderNotLate(cr, a, b, la);
    oa := PeInitiator(connA, cr, a);
    ob := PeResponder(connB, cr, b);
    SpecsAgree(cr, a, b, la, lb, oa, connA.incoming, ob, connB.incoming);
  }

  lemma Sizes(cr: Crypto, a: Initiator, b: Responder)
    requires Compatible(cr, a, b)
    ensures a.provide <= U32_MAX && |a.padC| <= MAX_PAD && |b.padD| <= MAX_PAD
    ensures Choose(b, a.provide).Some? ==> Choose(b, a.provide).value <= U32_MAX
  {
  }

  /** Later bytes that one end encrypts at its position come out of the other end's stream as they went in. */
  lemma LaterBytesArrive(ks: Keystream, sendPos: nat, recvPos: nat, x: bytes, pending: bytes, unread: bytes)
    requires sendPos == recvPos && pending + unread == Crypt(ks, sendPos, x)
    ensures Crypt(ks, recvPos, pending + unread) == x
  {
    CryptInverse(ks, sendPos, x);
  }
}
