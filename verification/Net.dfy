/** net.Conn, prependConn and io.ReadFull: unread bytes against network fragmentation. */
module Net {
  import opened Bytes

  /** A TCP connection.  A Read may return any non-empty part of what is still to come. */
  class Conn {
    var incoming: bytes  // what the peer's bytes will amount to before the connection ends
    var outgoing: bytes  // what has been sent to the peer
    var capacity: nat    // how many more bytes can be sent before the connection fails

    constructor (incoming: bytes, capacity: nat)
      ensures this.incoming == incoming && outgoing == [] && this.capacity == capacity
    {
      this.incoming, outgoing, this.capacity := incoming, [], capacity;
    }

    /** Read(b[off..]). */
    method Read(b: array<byte>, off: nat) returns (n: nat, err: bool)
      requires off <= b.Length
      modifies this`incoming, b
      ensures n <= b.Length - off && n <= |old(incoming)|
      ensures incoming == old(incoming[n..])
      ensures b[..] == old(b[..off]) + old(incoming[..n]) + old(b[off + n..])
      ensures err <==> off < b.Length && old(incoming) == []
      ensures !err && off < b.Length ==> 0 < n
    {
      if off == b.Length || incoming == [] {
        return 0, off < b.Length;
      }
      var most := Min(b.Length - off, |incoming|);
      n :| 1 <= n <= most;
      Copy(b, off, incoming[..n]);
      incoming, err := incoming[n..], false;
    }

    /** A failing Write has sent some prefix of its data. */
    method Write(data: bytes) returns (err: bool)
      modifies this`outgoing, this`capacity
      ensures var k := Min(|data|, old(capacity));
              outgoing == old(outgoing) + data[..k] && capacity == old(capacity) - k && err == (k < |data|)
    {
      var k := Min(|data|, capacity);
      outgoing, capacity, err := outgoing + data[..k], capacity - k, k < |data|;
    }
  }

  /** copy(b[off..], s) for an s that fits. */
  method Copy(b: array<byte>, off: nat, s: bytes)
    requires off + |s| <= b.Length
    modifies b
    ensures b[..] == old(b[..off]) + s + old(b[off + |s|..])
  {
    for i := 0 to |s|
      invariant forall k :: 0 <= k < off || off + i <= k < b.Length ==> b[k] == old(b[k])
      invariant forall k :: 0 <= k < i ==> b[off + k] == s[k]
    {
      b[off + i] := s[i];
    }
  }

  /**
    * A connection with already-read bytes put back in front.  With an empty buf it behaves as the
    * bare connection, which is how a bare net.Conn is passed where either is accepted.
    */
  class PrependConn {
    const conn: Conn
    var buf: bytes

    constructor (conn: Conn, buf: bytes)
      ensures this.conn == conn && this.buf == buf
    {
      this.conn, this.buf := conn, buf;
    }

    /** The unread suffix of the peer's byte stream. */
    ghost function Unread(): bytes
      reads this, conn
    {
      buf + conn.incoming
    }

    method Read(b: array<byte>, off: nat) returns (n: nat, err: bool)
      requires off <= b.Length
      modifies this`buf, conn`incoming, b
      ensures n <= b.Length - off && n <= |old(Unread())|
      ensures Unread() == old(Unread()[n..])
      ensures b[..] == old(b[..off]) + old(Unread()[..n]) + old(b[off + n..])
      ensures err ==> off < b.Length && old(Unread()) == []
      ensures !err && off < b.Length ==> 0 < n
      ensures |buf| <= |old(buf)|
    {
      if 0 < |buf| {
        n, err := Min(b.Length - off, |buf|), false;
        assert Unread()[..n] == buf[..n];
        Copy(b, off, buf[..n]);
        buf := buf[n..];
      } else {
        n, err := conn.Read(b, off);
        assert old(Unread()) == old(conn.incoming);
      }
    }

    /** io.ReadFull: all of b, however the network cuts the stream, or an error with nothing left. */
    method ReadFull(b: array<byte>) returns (ok: bool)
      modifies this`buf, conn`incoming, b
      ensures ok <==> b.Length <= |old(Unread())|
      ensures ok ==> b[..] == old(Unread()[..b.Length]) && Unread() == old(Unread()[b.Length..])
      ensures !ok ==> Unread() == []
      ensures |buf| <= |old(buf)|
    {
      ghost var stream := Unread();
      var n := 0;
      while n < b.Length
        invariant n <= b.Length && n <= |stream|
        invariant b[..n] == stream[..n]
        invariant Unread() == stream[n..] && |buf| <= |old(buf)|
      {
        var k, err := Read(b, n);
        if err {
          return false;
        }
        DropDrop(stream, n, k);
        n := n + k;
      }
      return true;
    }
  }
}
