/**
 A connection as one end sees it: the bytes the other end sends, of which every read hands
 out an arbitrary non-empty piece, and the bytes written so far.
 */
module Connection {
  import opened Bytes

  class Conn {
    /** All the other end ever sends. */
    ghost const stream: bytes
    /** What is still to be read before the end of the stream. */
    var incoming: bytes
    var written: bytes

    constructor (incoming: bytes)
      ensures stream == this.incoming == incoming && written == []
    {
      stream := incoming;
      this.incoming := incoming;
      written := [];
    }

    /** Reads at most `max` bytes; nothing only at the end of the stream. */
    method Read(max: nat) returns (chunk: bytes)
      requires max > 0
      modifies this`incoming
      ensures old(incoming) == chunk + incoming && |chunk| <= max
      ensures chunk == [] <==> old(incoming) == []
    {
      var n: nat :| n <= max && n <= |incoming| && (n == 0 <==> incoming == []);
      chunk := incoming[..n];
      incoming := incoming[n..];
    }

    method WriteAll(data: bytes)
      modifies this`written
      ensures written == old(written) + data
    {
      written := written + data;
    }
  }

  /** Consumes bytes read past a marker first, then the connection itself. */
  class RawBuf {
    const conn: Conn
    var pending: bytes

    constructor (conn: Conn, pending: bytes)
      ensures this.conn == conn && this.pending == pending
    {
      this.conn := conn;
      this.pending := pending;
    }

    /** Everything not consumed yet, in order. */
    ghost function Unread(): bytes
      reads this, conn
    {
      pending + conn.incoming
    }

    /** Fails only when the stream ends too early; otherwise takes exactly the next `n` bytes. */
    method ReadExact(n: nat) returns (r: Option<bytes>)
      modifies this`pending, conn`incoming
      ensures r.Some? <==> n <= |old(Unread())|
      ensures r.Some? ==> |r.value| == n && old(Unread()) == r.value + Unread()
      ensures old(pending) == [] ==> pending == []
    {
      var k := Min(n, |pending|);
      var out := pending[..k];
      pending := pending[k..];
      while |out| < n
        invariant |out| <= n && out + Unread() == old(Unread())
        invariant |out| < n || old(pending) == [] ==> pending == []
        decreases n - |out|
      {
        var chunk := conn.Read(n - |out|);
        if chunk == [] {
          return None;
        }
        out := out + chunk;
      }
      return Some(out);
    }
  }
}
