/** fakeTLSConn: ApplicationData records around the obfuscated stream, in both directions. */
module FakeTls {
  import opened Bytes
  import opened Ctr
  import opened Net

  const APPLICATION_DATA: byte := 0x17
  const MAX_RECORD: nat := 16384

  /** tlsRecord: content type, version, 16-bit length, payload (section 5.1 of RFC 8446). */
  function Record(contentType: byte, v1: byte, v2: byte, payload: bytes): (r: bytes)
    ensures |r| == 5 + |payload|
  {
    seq(5 + |payload|, i requires 0 <= i < 5 + |payload| =>
      match i
      case 0 => contentType
      case 1 => v1
      case 2 => v2
      case 3 => Be16(|payload|)[0]
      case 4 => Be16(|payload|)[1]
      case _ => payload[i - 5])
  }

  lemma RecordParts(contentType: byte, v1: byte, v2: byte, payload: bytes)
    ensures Record(contentType, v1, v2, payload) == [contentType, v1, v2] + Be16(|payload|) + payload
  {
  }

  /** The ApplicationData record for one chunk of plaintext encrypted at position pos. */
  function DataRecord(ks: Keystream, pos: nat, chunk: bytes): (r: bytes)
    ensures |r| == 5 + |chunk|
  {
    Record(APPLICATION_DATA, 3, 3, Mask(ks, pos, chunk))
  }

  // ---- Read ----

  /** What one Read did: bytes handed out, error, and the connection's new state. */
  datatype ReadOutcome = ReadOutcome(out: bytes, err: bool, readBuf: bytes, pos: nat, unread: bytes)

  /** One record taken off the unread bytes: its payload (possibly empty), or an error. */
  datatype Taken = Broken(unread: bytes) | Payload(data: bytes, unread: bytes)

  function TakeRecord(unread: bytes): Taken {
    if |unread| < 5 then
      Broken([])
    else if unread[0] != APPLICATION_DATA then
      Broken(unread[5..])
    else
      var end := 5 + U16(unread[3], unread[4]);
      if |unread| < end then Broken([]) else Payload(unread[5..end], unread[end..])
  }

  /**
    * Exactly which bytes are taken as a record: content type 23 (section 5.1 of RFC 8446), any version, the length of
    * the payload in network order, the payload; whatever follows is left.
    */
  lemma RecordTakenIff(unread: bytes, data: bytes, rest: bytes)
    ensures TakeRecord(unread) == Payload(data, rest) <==>
            && 5 <= |unread| && unread[0] == 23 && 256 * unread[3] as nat + unread[4] as nat == |data|
            && unread[5..] == data + rest
  {
    if 5 <= |unread| {
      var n := 256 * unread[3] as nat + unread[4] as nat;
      BigEndian16(unread[3], unread[4], n);
      if n <= |unread| - 5 {
        SplitAt(unread, 5, 5 + n);
        if unread[5..] == data + rest && n == |data| {
          assert unread[5..][..n] == data && unread[5..][n..] == rest;
        }
      }
    }
  }

  lemma SplitAt(s: bytes, a: nat, b: nat)
    requires a <= b <= |s|
    ensures s[a..] == s[a..b] + s[b..] && s[a..][..b - a] == s[a..b] && s[a..][b - a..] == s[b..]
  {
  }

  /** The bytes of the record for one chunk. */
  lemma DataRecordBytes(ks: Keystream, pos: nat, chunk: bytes)
    requires |chunk| <= MAX_RECORD
    ensures var r := DataRecord(ks, pos, chunk);
            && r[..3] == [23, 3, 3] && 256 * r[3] as nat + r[4] as nat == |chunk| && |chunk| <= 16384
            && r[5..] == Mask(ks, pos, chunk)
  {
    var r := DataRecord(ks, pos, chunk);
    Be16RoundTrip(|chunk|);
    BigEndian16(r[3], r[4], 256 * r[3] as nat + r[4] as nat);
  }

  /** A Read hands out as much as it has and the buffer holds. */
  lemma ReadFills(ks: Keystream, pos: nat, readBuf: bytes, unread: bytes, cap: nat)
    ensures var r := ReadStep(ks, pos, readBuf, unread, cap);
            |r.out| <= cap && (|r.out| == cap || r.readBuf == [])
  {
  }

  /** One Read into a buffer of cap bytes when the peer's unread bytes are unread. */
  function ReadStep(ks: Keystream, pos: nat, readBuf: bytes, unread: bytes, cap: nat): ReadOutcome {
    if readBuf != [] then
      var n := Min(cap, |readBuf|);
      ReadOutcome(readBuf[..n], false, readBuf[n..], pos, unread)
    else
      match TakeRecord(unread)
      case Broken(rest) => ReadOutcome([], true, [], pos, rest)
      case Payload(data, rest) =>
        var plain := Mask(ks, pos, data);
        var n := Min(cap, |data|);
        ReadOutcome(plain[..n], false, plain[n..], pos + |data|, rest)
  }

  /** Reading what the other end sent for one chunk: the chunk, as much of it as fits and the rest kept. */
  lemma RecordRead(ks: Keystream, pos: nat, chunk: bytes, more: bytes, cap: nat)
    requires |chunk| < 0x1_0000
    ensures var n := Min(cap, |chunk|);
            ReadStep(ks, pos, [], DataRecord(ks, pos, chunk) + more, cap)
            == ReadOutcome(chunk[..n], false, chunk[n..], pos + |chunk|, more)
  {
    RecordTaken(Mask(ks, pos, chunk), more);
    MaskTwice(ks, pos, chunk);
  }

  lemma RecordTaken(data: bytes, more: bytes)
    requires |data| < 0x1_0000
    ensures TakeRecord(Record(APPLICATION_DATA, 3, 3, data) + more) == Payload(data, more)
  {
    var unread, end := Record(APPLICATION_DATA, 3, 3, data) + more, 5 + |data|;
    Be16RoundTrip(|data|);
    assert unread[0] == APPLICATION_DATA && unread[3] == Be16(|data|)[0] && unread[4] == Be16(|data|)[1];
    assert U16(unread[3], unread[4]) == |data|;
    assert unread[5..end] == data && unread[end..] == more;
  }

  // ---- Write ----

  /** What one Write did: bytes put on the wire, plaintext bytes reported written, new position, error. */
  datatype WriteOutcome = WriteOutcome(wire: bytes, total: nat, pos: nat, err: bool)

  function FirstChunk(b: bytes): bytes {
    b[..Min(MAX_RECORD, |b|)]
  }

  function WriteStep(ks: Keystream, pos: nat, b: bytes, capacity: nat): WriteOutcome
    decreases |b|
  {
    if b == [] then
      WriteOutcome([], 0, pos, false)
    else
      var chunk := FirstChunk(b);
      var record := DataRecord(ks, pos, chunk);
      if capacity < |record| then
        WriteOutcome(record[..capacity], 0, pos + |chunk|, true)
      else
        var rest := WriteStep(ks, pos + |chunk|, b[|chunk|..], capacity - |record|);
        WriteOutcome(record + rest.wire, |chunk| + rest.total, rest.pos, rest.err)
  }

  /** The chunks a Write cuts its argument into. */
  function Chunks(b: bytes): seq<bytes>
    decreases |b|
  {
    if b == [] then [] else [FirstChunk(b)] + Chunks(b[|FirstChunk(b)|..])
  }

  predicate ChunkOk(chunk: bytes) {
    1 <= |chunk| <= MAX_RECORD
  }

  predicate ChunksOk(q: seq<bytes>) {
    forall i :: 0 <= i < |q| ==> ChunkOk(q[i])
  }

  function Flatten(q: seq<bytes>): bytes {
    if q == [] then [] else q[0] + Flatten(q[1..])
  }

  /** The wire form of a list of chunks sent from position pos on. */
  function Encode(ks: Keystream, pos: nat, q: seq<bytes>): bytes
    decreases |q|
  {
    if q == [] then [] else DataRecord(ks, pos, q[0]) + Encode(ks, pos + |q[0]|, q[1..])
  }

  /** Cutting into chunks loses nothing and every chunk fits a record. */
  lemma {:induction false} ChunksFlatten(b: bytes)
    ensures Flatten(Chunks(b)) == b && ChunksOk(Chunks(b))
    decreases |b|
  {
    if b != [] {
      var chunk := FirstChunk(b);
      ChunksFlatten(b[|chunk|..]);
      assert b == chunk + b[|chunk|..];
      assert Chunks(b) == [chunk] + Chunks(b[|chunk|..]);
    }
  }

  /** Every chunk but the last is as long as a record can be. */
  lemma {:induction false} ChunksFull(b: bytes, i: nat)
    requires i < |Chunks(b)|
    ensures i + 1 < |Chunks(b)| ==> |Chunks(b)[i]| == 16384
    decreases |b|
  {
    if b != [] {
      var rest := b[|FirstChunk(b)|..];
      assert Chunks(b) == [FirstChunk(b)] + Chunks(rest);
      if i > 0 {
        ChunksFull(rest, i - 1);
      }
    }
  }

  lemma EncodeCons(ks: Keystream, pos: nat, chunk: bytes, next: nat, q: seq<bytes>)
    requires next == pos + |chunk|
    ensures Encode(ks, pos, [chunk] + q) == DataRecord(ks, pos, chunk) + Encode(ks, next, q)
  {
    assert ([chunk] + q)[1..] == q;
  }

  /** A Write that succeeds sends exactly its argument, cut into records, and reports all of it. */
  lemma {:induction false} WriteSendsChunks(ks: Keystream, pos: nat, b: bytes, capacity: nat)
    ensures var w := WriteStep(ks, pos, b, capacity);
            && (w.err <==> capacity < |Encode(ks, pos, Chunks(b))|)
            && (!w.err ==> w.wire == Encode(ks, pos, Chunks(b)) && w.total == |b| && w.pos == pos + |b|)
            && (w.err ==> w.wire == Encode(ks, pos, Chunks(b))[..capacity] && w.total < |b|)
    decreases |b|
  {
    if b != [] {
      var chunk, next := FirstChunk(b), pos + |FirstChunk(b)|;
      var record, rest := DataRecord(ks, pos, chunk), b[|chunk|..];
      EncodeCons(ks, pos, chunk, next, Chunks(rest));
      var later := Encode(ks, next, Chunks(rest));
      if capacity < |record| {
        assert (record + later)[..capacity] == record[..capacity];
      } else {
        WriteSendsChunks(ks, next, rest, capacity - |record|);
        if capacity - |record| < |later| {
          assert (record + later)[..capacity] == record + later[..capacity - |record|];
        }
      }
    }
  }

  /** One round of Write's loop whose record is written. */
  lemma WriteOneMore(ks: Keystream, pos: nat, b: bytes, capacity: nat, next: nat, left: nat, sent: bytes)
    requires b != [] && next == pos + |FirstChunk(b)| && capacity == 5 + |FirstChunk(b)| + left
    ensures var w, rest := WriteStep(ks, pos, b, capacity), WriteStep(ks, next, b[|FirstChunk(b)|..], left);
            && w.total == |FirstChunk(b)| + rest.total && w.err == rest.err && w.pos == rest.pos
            && sent + w.wire == (sent + DataRecord(ks, pos, FirstChunk(b))) + rest.wire
  {
    var record := DataRecord(ks, pos, FirstChunk(b));
    assert left == capacity - |record|;
    ConcatAssoc(sent, record, WriteStep(ks, next, b[|FirstChunk(b)|..], left).wire);
  }

  class FakeTlsConn {
    const conn: PrependConn
    const enc: CtrStream  // decrypts what the client sends
    const dec: CtrStream  // encrypts what goes to the client
    var readBuf: bytes    // decrypted bytes of the last record not handed out yet

    constructor (conn: PrependConn, enc: CtrStream, dec: CtrStream)
      ensures this.conn == conn && this.enc == enc && this.dec == dec && readBuf == []
    {
      this.conn, this.enc, this.dec, readBuf := conn, enc, dec, [];
    }

    /** The two directions have separate keystreams, so neither disturbs the other. */
    ghost predicate Valid() {
      enc != dec
    }

    method Read(b: array<byte>) returns (n: nat, err: bool)
      requires Valid()
      modifies this, conn`buf, conn.conn`incoming, enc, b
      ensures var r := ReadStep(enc.ks, old(enc.pos), old(readBuf), old(conn.Unread()), b.Length);
              && n == |r.out| <= b.Length && err == r.err
              && b[..n] == r.out && b[n..] == old(b[..])[n..]
              && readBuf == r.readBuf && enc.pos == r.pos && conn.Unread() == r.unread
    {
      if 0 < |readBuf| {
        n := Min(b.Length, |readBuf|);
        Copy(b, 0, readBuf[..n]);
        readBuf := readBuf[n..];
        return n, false;
      }
      var payload, ok := ReadRecord();
      if !ok {
        return 0, true;
      }
      enc.XorAll(payload);
      n := Min(b.Length, payload.Length);
      Copy(b, 0, payload[..n]);
      if n < payload.Length {
        readBuf := payload[n..];
      }
      return n, false;
    }

    /** The record header and then the whole payload, each by io.ReadFull. */
    method ReadRecord() returns (payload: array<byte>, ok: bool)
      modifies conn`buf, conn.conn`incoming
      ensures fresh(payload)
      ensures match TakeRecord(old(conn.Unread()))
              case Broken(rest) => !ok && conn.Unread() == rest
              case Payload(data, rest) => ok && payload[..] == data && conn.Unread() == rest
    {
      ghost var unread := conn.Unread();
      payload := new byte[0];
      var hdr := new byte[5];
      ok := conn.ReadFull(hdr);
      if !ok {
        return;
      }
      assert forall i :: 0 <= i < 5 ==> hdr[i] == hdr[..][i] == unread[i];
      if hdr[0] != APPLICATION_DATA {
        return payload, false;
      }
      var recLen := U16(hdr[3], hdr[4]);
      if recLen == 0 {
        return;
      }
      DropDrop(unread, 5, Min(recLen, |unread| - 5));
      payload := new byte[recLen];
      ok := conn.ReadFull(payload);
    }

    method Write(data: bytes) returns (total: nat, err: bool)
      requires Valid()
      modifies conn.conn`outgoing, conn.conn`capacity, dec
      ensures var w := WriteStep(dec.ks, old(dec.pos), data, old(conn.conn.capacity));
              && total == w.total && err == w.err && dec.pos == w.pos
              && conn.conn.outgoing == old(conn.conn.outgoing) + w.wire
    {
      var b := data;
      total := 0;
      ghost var w := WriteStep(dec.ks, dec.pos, data, conn.conn.capacity);
      while 0 < |b|
        invariant var rest := WriteStep(dec.ks, dec.pos, b, conn.conn.capacity);
                  && total + rest.total == w.total && rest.err == w.err && rest.pos == w.pos
                  && conn.conn.outgoing + rest.wire == old(conn.conn.outgoing) + w.wire
        decreases |b|
      {
        ghost var sent, pos, capacity := conn.conn.outgoing, dec.pos, conn.conn.capacity;
        var chunk := if |b| > MAX_RECORD then b[..MAX_RECORD] else b;
        assert chunk == FirstChunk(b);
        err := SendChunk(chunk);
        if err {
          return total, true;
        }
        WriteOneMore(dec.ks, pos, b, capacity, dec.pos, conn.conn.capacity, sent);
        total := total + |chunk|;
        b := b[|chunk|..];
      }
      return total, false;
    }

    /** Encrypts one chunk and writes its record; on an error the keystream has moved on all the same. */
    method SendChunk(chunk: bytes) returns (err: bool)
      modifies conn.conn`outgoing, conn.conn`capacity, dec
      ensures dec.pos == old(dec.pos) + |chunk|
      ensures var record := DataRecord(dec.ks, old(dec.pos), chunk);
              && err == (old(conn.conn.capacity) < |record|)
              && (err ==> conn.conn.outgoing == old(conn.conn.outgoing) + record[..old(conn.conn.capacity)])
              && (!err ==> (
                    && conn.conn.outgoing == old(conn.conn.outgoing) + record
                    && conn.conn.capacity == old(conn.conn.capacity) - |record|))
    {
      var cipher := new byte[|chunk|];
      Copy(cipher, 0, chunk);
      assert cipher[..] == chunk;
      dec.XorAll(cipher);
      var record := Record(APPLICATION_DATA, 3, 3, cipher[..]);
      assert record[..|record|] == record;
      err := conn.conn.Write(record);
    }
  }
}
