/**
 The encrypted stream over a connection: reads that may come from bytes read ahead during the
 handshake, and polled writes that the connection may take only in part.
 */
module EncStream {
  import opened Bytes
  import opened Cipher
  import opened Connection

  datatype Poll = Pending | Ready(n: nat)

  class EncryptedStream {
    const conn: Conn
    const send: Rc4
    const recv: Rc4
    /** Encrypted bytes the connection has not taken yet. */
    var writeBuf: bytes
    /** Encrypted bytes read beyond the handshake. */
    var readPending: bytes
    /** What the stream has encrypted since it was created, and where that began. */
    ghost var plain: bytes
    ghost const sendBase: nat
    ghost const wireBase: bytes

    constructor (conn: Conn, send: Rc4, recv: Rc4, pending: bytes)
      requires send != recv
      ensures this.conn == conn && this.send == send && this.recv == recv
      ensures readPending == pending && writeBuf == [] && plain == []
      ensures sendBase == send.pos && wireBase == conn.written
      ensures Valid()
    {
      this.conn, this.send, this.recv := conn, send, recv;
      writeBuf, readPending, plain := [], pending, [];
      sendBase, wireBase := send.pos, conn.written;
    }

    /** Wire bytes and buffer together are the encryption of `plain`, at the right position. */
    ghost predicate Valid()
      reads this, conn, send
    {
      && send != recv
      && send.pos == sendBase + |plain|
      && wireBase <= conn.written
      && conn.written + writeBuf == wireBase + Crypt(send.ks, sendBase, plain)
    }

    /** The writing side as plaintext encrypted so far and bytes already on the wire. */
    ghost function View(): (w: Writer)
      requires Valid()
      reads this, conn, send
      ensures w.wire <= |w.plain| && |writeBuf| == |w.plain| - w.wire
    {
      Writer(plain, |conn.written| - |wireBase|)
    }

    /** All plaintext still to be read, in order. */
    ghost function ToRead(): bytes
      reads this, conn, recv
    {
      Crypt(recv.ks, recv.pos, readPending + conn.incoming)
    }

    // Reading --------------------------------------------------------------------

    /** `read_decrypted`, and `poll_read` when data is ready: at most `max` bytes, in order. */
    method ReadDecrypted(max: nat) returns (out: bytes)
      requires max > 0
      modifies this`readPending, conn`incoming, recv`pos
      ensures old(ToRead()) == out + ToRead() && |out| <= max
      ensures out == [] <==> old(ToRead()) == []
    {
      ghost var total := readPending + conn.incoming;
      var chunk: bytes;
      if readPending != [] {
        var n := Min(max, |readPending|);
        chunk := readPending[..n];
        readPending := readPending[n..];
      } else {
        chunk := conn.Read(max);
      }
      ghost var rest := readPending + conn.incoming;
      assert total == chunk + rest;
      CryptConcat(recv.ks, recv.pos, chunk, rest);
      out := recv.Process(chunk);
    }

    /** `read_exact_decrypted`: fails only when the stream ends too early. */
    method ReadExactDecrypted(n: nat) returns (r: Option<bytes>)
      modifies this`readPending, conn`incoming, recv`pos
      ensures r.Some? <==> n <= |old(ToRead())|
      ensures r.Some? ==> |r.value| == n && old(ToRead()) == r.value + ToRead()
    {
      hide Crypt;
      ghost var total := readPending + conn.incoming;
      ghost var pos := recv.pos;
      var k := Min(n, |readPending|);
      var first := readPending[..k];
      ghost var after := readPending[k..] + conn.incoming;
      assert total == first + after;
      readPending := readPending[k..];
      var out := recv.Process(first);
      CryptConcat(recv.ks, pos, first, after);
      if k < n {
        var raw := new RawBuf(conn, []);
        var more := raw.ReadExact(n - k);
        if more.None? {
          return None;
        }
        var second := recv.Process(more.value);
        ghost var rest := conn.incoming;
        assert raw.Unread() == rest && after == more.value + rest && readPending + rest == rest;
        CryptConcat(recv.ks, pos + k, more.value, rest);
        Regroup(out, second, ToRead());
        out := out + second;
      }
      return Some(out);
    }

    // Writing --------------------------------------------------------------------

    /**
     `poll_write`: new data is encrypted only when nothing is left over; leftover ciphertext is
     offered again as it is. The connection decides how much it takes, or takes nothing yet.
     */
    method PollWrite(buf: bytes) returns (r: Poll)
      requires Valid()
      modifies this`writeBuf, this`plain, conn`written, send`pos
      ensures Valid()
      ensures View() == AfterPoll(old(View()), buf, if r.Ready? then r.n else 0)
    {
      hide Crypt;
      if writeBuf == [] {
        Extend(conn.written, wireBase, send.ks, sendBase, plain, buf);
        writeBuf := send.Process(buf);
        plain := plain + buf;
      }
      var ready: bool, n: nat :| n <= |writeBuf|;
      if !ready {
        return Pending;
      }
      Regroup(conn.written, writeBuf[..n], writeBuf[n..]);
      assert writeBuf == writeBuf[..n] + writeBuf[n..];
      conn.WriteAll(writeBuf[..n]);
      writeBuf := writeBuf[n..];
      return Ready(n);
    }

    /**
     `write_encrypted`: one whole write at the current position. It goes straight to the wire, so
     that leftovers of polled writes, if there are any, are overtaken by it.
     */
    method WriteEncrypted(data: bytes)
      requires Valid()
      modifies this`plain, conn`written, send`pos
      ensures conn.written == old(conn.written) + Crypt(send.ks, old(send.pos), data) && send.pos == old(send.pos) + |data|
      ensures writeBuf == [] || data == [] ==> Valid() && plain == old(plain) + data
    {
      if writeBuf == [] {
        Extend(conn.written, wireBase, send.ks, sendBase, plain, data);
      }
      var buf := send.Process(data);
      conn.WriteAll(buf);
      plain := plain + data;
      assert conn.written + [] == conn.written;
      assert data == [] ==> buf == [] && conn.written == old(conn.written) && plain == old(plain);
    }
  }

  lemma Regroup(x: bytes, y: bytes, z: bytes)
    ensures (x + y) + z == x + (y + z)
  {
  }

  lemma Extend(written: bytes, base: bytes, ks: Keystream, pos: nat, plain: bytes, more: bytes)
    requires written + [] == base + Crypt(ks, pos, plain)
    ensures written + Crypt(ks, pos + |plain|, more) == base + Crypt(ks, pos, plain + more)
  {
    CryptConcat(ks, pos, plain, more);
    var a, b := Crypt(ks, pos, plain), Crypt(ks, pos + |plain|, more);
    assert written + [] == written;
    assert (base + a) + b == base + (a + b);
  }

  // A caller that re-presents what was not accepted -----------------------------------

  /** The writer's state: what is encrypted so far and how much of it is on the wire. */
  datatype Writer = Writer(plain: bytes, wire: nat)

  /** One poll: the buffer presented and how many bytes the connection takes. */
  datatype Attempt = Attempt(len: nat, taken: nat)

  function AfterPoll(w: Writer, buf: bytes, taken: nat): Writer {
    Writer(if w.wire == |w.plain| then w.plain + buf else w.plain, w.wire + taken)
  }

  /**
   A run of polls by a caller with the bytes `x` to send: it has seen `accepted` of them
   accepted, presents the next `len`, never fewer than it presented before and saw refused.
   */
  ghost predicate Disciplined(x: bytes, w: Writer, accepted: nat, run: seq<Attempt>)
    decreases |run|
  {
    run == [] ||
    (var at := run[0];
     && accepted + at.len <= |x| && |w.plain| - w.wire <= at.len
     && var w' := AfterPoll(w, x[accepted..accepted + at.len], at.taken);
     && w'.wire <= |w'.plain|
     && Disciplined(x, w', accepted + at.taken, run[1..]))
  }

  function RunPolls(x: bytes, w: Writer, accepted: nat, run: seq<Attempt>): (Writer, nat)
    requires Disciplined(x, w, accepted, run)
    decreases |run|
  {
    if run == [] then (w, accepted)
    else
      var at := run[0];
      RunPolls(x, AfterPoll(w, x[accepted..accepted + at.len], at.taken), accepted + at.taken, run[1..])
  }

  /** What holds between polls: exactly the accepted bytes are on the wire. */
  predicate InStep(x: bytes, w: Writer, accepted: nat) {
    w.wire == accepted <= |w.plain| <= |x| && w.plain == x[..|w.plain|]
  }

  /**
   Under any sequence of partial and pending writes the stream has encrypted a prefix of the
   caller's bytes, and precisely the bytes reported accepted are on the wire, never more per
   poll than were presented.
   */
  lemma {:induction false} WritesKeepStep(x: bytes, w: Writer, accepted: nat, run: seq<Attempt>)
    requires Disciplined(x, w, accepted, run) && InStep(x, w, accepted)
    ensures InStep(x, RunPolls(x, w, accepted, run).0, RunPolls(x, w, accepted, run).1)
    ensures forall i :: 0 <= i < |run| ==> run[i].taken <= run[i].len
    decreases |run|
  {
    if run != [] {
      var at := run[0];
      var w' := AfterPoll(w, x[accepted..accepted + at.len], at.taken);
      assert w.wire == |w.plain| ==> x[..accepted] + x[accepted..accepted + at.len] == x[..accepted + at.len];
      assert InStep(x, w', accepted + at.taken);
      WritesKeepStep(x, w', accepted + at.taken, run[1..]);
      forall i | 0 <= i < |run| ensures run[i].taken <= run[i].len {
        assert i > 0 ==> run[i] == run[1..][i - 1];
      }
    }
  }

  /** The wire then carries the encryption of exactly the accepted prefix. */
  lemma WireIsAcceptedPrefix(ks: Keystream, base: nat, x: bytes, w: Writer, accepted: nat)
    requires InStep(x, w, accepted)
    ensures Crypt(ks, base, w.plain)[..w.wire] == Crypt(ks, base, x[..accepted])
  {
    CryptSlice(ks, base, w.plain, 0, accepted);
    assert w.plain[0..accepted] == x[..accepted];
  }
}
