/** obfuscatedConn: the dd transport, a keystream in each direction and no framing. */
module Obfuscated {
  import opened Bytes
  import opened Ctr
  import opened Net

  class ObfuscatedConn {
    const conn: PrependConn
    const enc: CtrStream  // decrypts what the client sends
    const dec: CtrStream  // encrypts what goes to the client

    constructor (conn: PrependConn, enc: CtrStream, dec: CtrStream)
      ensures this.conn == conn && this.enc == enc && this.dec == dec
    {
      this.conn, this.enc, this.dec := conn, enc, dec;
    }

    method Read(b: array<byte>) returns (n: nat, err: bool)
      modifies conn`buf, conn.conn`incoming, enc, b
      ensures n <= b.Length && n <= |old(conn.Unread())| && enc.pos == old(enc.pos) + n
      ensures conn.Unread() == old(conn.Unread()[n..])
      ensures b[..] == Mask(enc.ks, old(enc.pos), old(conn.Unread()[..n])) + old(b[n..])
      ensures err ==> old(conn.Unread()) == []
      ensures !err && 0 < b.Length ==> 0 < n
    {
      n, err := conn.Read(b, 0);
      assert b[..n] == old(conn.Unread()[..n]) && b[n..] == old(b[n..]);
      if n > 0 {
        assert b[0..n] == b[..n];
        enc.XorKeyStream(b, 0, n);
      }
    }

    method Write(data: bytes) returns (err: bool)
      modifies conn.conn`outgoing, conn.conn`capacity, dec
      ensures dec.pos == old(dec.pos) + |data|
      ensures var k := Min(|data|, old(conn.conn.capacity));
              && conn.conn.outgoing == old(conn.conn.outgoing) + Mask(dec.ks, old(dec.pos), data[..k])
              && err == (k < |data|)
    {
      var buf := new byte[|data|];
      Copy(buf, 0, data);
      assert buf[..] == data;
      dec.XorAll(buf);
      ghost var k := Min(|data|, conn.conn.capacity);
      assert Mask(dec.ks, old(dec.pos), data)[..k] == Mask(dec.ks, old(dec.pos), data[..k]);
      err := conn.conn.Write(buf[..]);
    }
  }

  // ---- Runs ----

  /** One direction of a dd session. */
  datatype Dir = Dir(
    written: bytes,    // plaintext whose ciphertext has been sent
    sendPos: nat,      // the sender's keystream position
    alive: bool,       // no write has failed yet
    wire: bytes,       // sent and not yet read
    consumed: bytes,   // ciphertext read so far
    recvPos: nat,      // the receiver's keystream position
    delivered: bytes)  // what Reads have returned

  datatype Step =
    | Send(data: bytes)             // a Write of any size
    | SendFails(data: bytes, k: nat) // a Write cut short after k bytes
    | Recv(k: nat)                  // a Read that the network fills with k bytes

  function Start(pos: nat): Dir {
    Dir([], pos, true, [], [], pos, [])
  }

  predicate Enabled(d: Dir, s: Step) {
    match s
    case Send(_) => d.alive
    case SendFails(data, k) => d.alive && k < |data|
    case Recv(k) => k <= |d.wire|
  }

  function Apply(ks: Keystream, d: Dir, s: Step): Dir
    requires Enabled(d, s)
  {
    match s
    case Send(data) =>
      d.(written := d.written + data, sendPos := d.sendPos + |data|, wire := d.wire + Mask(ks, d.sendPos, data))
    case SendFails(data, k) =>
      d.(written := d.written + data[..k], sendPos := d.sendPos + |data|, alive := false,
         wire := d.wire + Mask(ks, d.sendPos, data[..k]))
    case Recv(k) =>
      d.(wire := d.wire[k..], consumed := d.consumed + d.wire[..k], recvPos := d.recvPos + k,
         delivered := d.delivered + Mask(ks, d.recvPos, d.wire[..k]))
  }

  ghost predicate Inv(ks: Keystream, start: nat, d: Dir) {
    && d.consumed + d.wire == Mask(ks, start, d.written)
    && d.delivered == Mask(ks, start, d.consumed)
    && d.recvPos == start + |d.consumed|
    && (d.alive ==> d.sendPos == start + |d.written|)
  }

  lemma SendKeeps(ks: Keystream, start: nat, d: Dir, data: bytes, at: nat)
    requires Inv(ks, start, d) && at == start + |d.written|
    ensures d.consumed + (d.wire + Mask(ks, at, data)) == Mask(ks, start, d.written + data)
  {
    MaskConcat(ks, start, d.written, data);
    ConcatAssoc(d.consumed, d.wire, Mask(ks, at, data));
  }

  lemma StepKeeps(ks: Keystream, start: nat, d: Dir, s: Step)
    requires Inv(ks, start, d) && Enabled(d, s)
    ensures Inv(ks, start, Apply(ks, d, s))
  {
    match s
    case Send(data) => SendKeeps(ks, start, d, data, d.sendPos);
    case SendFails(data, k) => SendKeeps(ks, start, d, data[..k], d.sendPos);
    case Recv(k) =>
      MaskConcat(ks, start, d.consumed, d.wire[..k]);
      assert d.wire[..k] + d.wire[k..] == d.wire;
      ConcatAssoc(d.consumed, d.wire[..k], d.wire[k..]);
  }

  datatype Session = Session(up: Dir, down: Dir)
  datatype Event = Up(step: Step) | Down(step: Step)

  predicate Possible(s: Session, e: Event) {
    Enabled(if e.Up? then s.up else s.down, e.step)
  }

  function After(upKs: Keystream, downKs: Keystream, s: Session, e: Event): Session
    requires Possible(s, e)
  {
    if e.Up? then s.(up := Apply(upKs, s.up, e.step)) else s.(down := Apply(downKs, s.down, e.step))
  }

  predicate IsRun(upKs: Keystream, downKs: Keystream, s: Session, es: seq<Event>)
    decreases |es|
  {
    es == [] || (Possible(s, es[0]) && IsRun(upKs, downKs, After(upKs, downKs, s, es[0]), es[1..]))
  }

  function Final(upKs: Keystream, downKs: Keystream, s: Session, es: seq<Event>): Session
    requires IsRun(upKs, downKs, s, es)
    decreases |es|
  {
    if es == [] then s else Final(upKs, downKs, After(upKs, downKs, s, es[0]), es[1..])
  }

  lemma {:induction false} RunKeeps(upKs: Keystream, downKs: Keystream, s: Session, es: seq<Event>)
    requires Inv(upKs, 64, s.up) && Inv(downKs, 0, s.down) && IsRun(upKs, downKs, s, es)
    ensures var t := Final(upKs, downKs, s, es); Inv(upKs, 64, t.up) && Inv(downKs, 0, t.down)
    decreases |es|
  {
    if es != [] {
      if es[0].Up? {
        StepKeeps(upKs, 64, s.up, es[0].step);
      } else {
        StepKeeps(downKs, 0, s.down, es[0].step);
      }
      RunKeeps(upKs, downKs, After(upKs, downKs, s, es[0]), es[1..]);
    }
  }

  /** Chunk by chunk is the whole stream at once, and what arrives is a prefix of what was sent. */
  ghost predicate Safe(ks: Keystream, start: nat, d: Dir) {
    && d.delivered == Mask(ks, start, d.consumed)
    && d.delivered <= d.written
    && d.recvPos == start + |d.delivered|
    && (d.alive ==> d.sendPos == start + |d.written|)
    && (d.wire == [] ==> d.delivered == d.written)
  }

  lemma InvIsSafe(ks: Keystream, start: nat, d: Dir)
    requires Inv(ks, start, d)
    ensures Safe(ks, start, d)
  {
    var n := |d.consumed|;
    var head, tail := d.written[..n], d.written[n..];
    assert head + tail == d.written;
    MaskConcat(ks, start, head, tail);
    assert d.consumed == Mask(ks, start, d.written)[..n] == Mask(ks, start, head);
    MaskTwice(ks, start, head);
  }

  /** Over every run of both directions, whatever the sizes of the writes and of the partial reads. */
  lemma SessionSafety(upKs: Keystream, downKs: Keystream, es: seq<Event>)
    requires IsRun(upKs, downKs, Session(Start(64), Start(0)), es)
    ensures var t := Final(upKs, downKs, Session(Start(64), Start(0)), es);
            Safe(upKs, 64, t.up) && Safe(downKs, 0, t.down)
  {
    RunKeeps(upKs, downKs, Session(Start(64), Start(0)), es);
    var t := Final(upKs, downKs, Session(Start(64), Start(0)), es);
    InvIsSafe(upKs, 64, t.up);
    InvIsSafe(downKs, 0, t.down);
  }
}
