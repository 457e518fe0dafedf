/**
  * A fake-TLS session as a state machine: every interleaving of record writes, network fragments
  * and reads, in both directions.  The two ends run the code of FakeTls.
  */
module FakeTlsSession {
  import opened Bytes
  import opened Ctr
  import opened FakeTls

  /** One direction: sender, network and receiver. */
  datatype Dir = Dir(
    written: bytes,    // plaintext of the chunks whose record was written without error
    sendPos: nat,      // the sender's keystream position
    alive: bool,       // no write has failed yet
    wire: bytes,       // sent and not yet taken by the receiver
    got: bytes,        // taken by the receiver's Read in progress
    readBuf: bytes,    // fakeTLSConn.readBuf
    recvPos: nat,      // the receiver's keystream position
    consumed: bytes,   // payloads of the complete records consumed so far
    delivered: bytes,  // what the receiver's Reads have returned
    failed: bool,      // a Read has returned an error
    broken: bool)      // the connection ended in the middle of a Read

  datatype Step =
    | Send(chunk: bytes)                // one round of Write's loop
    | SendFails(chunk: bytes, cut: nat) // the same, with the connection failing after cut bytes
    | Fetch(k: nat)                     // io.ReadFull receives k more bytes
    | Return(cap: nat)                  // a Read into a buffer of cap bytes returns
    | Break                             // the connection ends while a Read waits for more

  function Start(pos: nat): Dir {
    Dir([], pos, true, [], [], [], pos, [], [], false, false)
  }

  /** How many bytes Read asks of the network before it can return: the header, then the payload too. */
  function Need(got: bytes): nat {
    if |got| < 5 then 5
    else if got[0] != APPLICATION_DATA then 5
    else 5 + U16(got[3], got[4])
  }

  predicate Enabled(ks: Keystream, d: Dir, s: Step) {
    match s
    case Send(chunk) => d.alive && ChunkOk(chunk)
    case SendFails(chunk, cut) => d.alive && ChunkOk(chunk) && cut < 5 + |chunk|
    case Fetch(k) => !d.failed && d.readBuf == [] && 1 <= k <= |d.wire| && |d.got| + k <= Need(d.got)
    case Return(cap) => !d.failed && (d.readBuf != [] || 5 <= |d.got| == Need(d.got))
    case Break => !d.failed && d.readBuf == [] && |d.got| < Need(d.got)
  }

  function Apply(ks: Keystream, d: Dir, s: Step): Dir
    requires Enabled(ks, d, s)
  {
    match s
    case Send(chunk) =>
      d.(written := d.written + chunk, sendPos := d.sendPos + |chunk|,
         wire := d.wire + DataRecord(ks, d.sendPos, chunk))
    case SendFails(chunk, cut) =>
      d.(sendPos := d.sendPos + |chunk|, alive := false, wire := d.wire + DataRecord(ks, d.sendPos, chunk)[..cut])
    case Fetch(k) =>
      d.(got := d.got + d.wire[..k], wire := d.wire[k..])
    case Return(cap) =>
      var r := ReadStep(ks, d.recvPos, d.readBuf, d.got, cap);
      d.(readBuf := r.readBuf, recvPos := r.pos, got := r.unread, failed := r.err, delivered := d.delivered + r.out,
         consumed := d.consumed + if d.readBuf == [] && TakeRecord(d.got).Payload? then TakeRecord(d.got).data else [])
    case Break =>
      d.(failed := true, broken := true)
  }

  // ---- The invariant ----

  /** What is between the two ends: whole records for the chunks q, then a failed record's first bytes. */
  datatype InFlight = InFlight(q: seq<bytes>, last: bytes, cut: nat)

  /** stream is the wire form of f, the oldest chunk having been encrypted at position pos. */
  ghost predicate Carries(ks: Keystream, pos: nat, f: InFlight, stream: bytes)
    decreases |f.q|
  {
    if f.q == [] then
      ChunkOk(f.last) && f.cut < 5 + |f.last| && stream == DataRecord(ks, pos, f.last)[..f.cut]
    else
      var n := 5 + |f.q[0]|;
      && ChunkOk(f.q[0]) && n <= |stream| && stream[..n] == DataRecord(ks, pos, f.q[0])
      && Carries(ks, pos + |f.q[0]|, Later(f), stream[n..])
  }

  function Later(f: InFlight): InFlight
    requires f.q != []
  {
    f.(q := f.q[1..])
  }

  /** Histories, positions and the receiver's buffers, given the chunks in flight. */
  ghost predicate Books(ks: Keystream, start: nat, d: Dir, f: InFlight) {
    && d.written == d.delivered + d.readBuf + Flatten(f.q)
    && d.delivered + d.readBuf == Mask(ks, start, d.consumed)
    && d.recvPos == start + |d.consumed|
    && (d.alive ==> f.cut == 0 && d.sendPos == d.recvPos + |Flatten(f.q)|)
    && (d.readBuf != [] ==> d.got == [])
    && |d.got| <= Need(d.got)
    && (d.failed ==> d.broken)
  }

  ghost predicate Inv(ks: Keystream, start: nat, d: Dir, f: InFlight) {
    Carries(ks, d.recvPos, f, d.got + d.wire) && Books(ks, start, d, f)
  }

  lemma {:induction false} FlattenSnoc(q: seq<bytes>, chunk: bytes)
    ensures Flatten(q + [chunk]) == Flatten(q) + chunk
  {
    if q == [] {
      assert q + [chunk] == [chunk];
    } else {
      assert (q + [chunk])[1..] == q[1..] + [chunk];
      FlattenSnoc(q[1..], chunk);
      ConcatAssoc(q[0], Flatten(q[1..]), chunk);
    }
  }

  lemma {:induction false} CarriesAppend(ks: Keystream, pos: nat, f: InFlight, stream: bytes,
                                         end: nat, g: InFlight, more: bytes)
    requires Carries(ks, pos, f, stream) && f.cut == 0
    requires end == pos + |Flatten(f.q)| && Carries(ks, end, g, more)
    ensures Carries(ks, pos, g.(q := f.q + g.q), stream + more)
    decreases |f.q|
  {
    if f.q == [] {
      assert f.q + g.q == g.q && stream + more == more;
    } else {
      var chunk, rest, next := f.q[0], Later(f), pos + |f.q[0]|;
      var tail := stream[5 + |chunk|..];
      CarriesHead(ks, pos, f, stream, next, tail);
      CarriesAppend(ks, next, rest, tail, end, g, more);
      CarriesOneMore(ks, pos, chunk, next, g.(q := rest.q + g.q), stream, more);
      assert [chunk] + (rest.q + g.q) == f.q + g.q;
    }
  }

  /** The oldest chunk in flight and what follows it. */
  lemma CarriesHead(ks: Keystream, pos: nat, f: InFlight, stream: bytes, next: nat, tail: bytes)
    requires Carries(ks, pos, f, stream) && f.q != [] && next == pos + |f.q[0]|
    requires 5 + |f.q[0]| <= |stream| && tail == stream[5 + |f.q[0]|..]
    ensures ChunkOk(f.q[0]) && stream[..5 + |f.q[0]|] == DataRecord(ks, pos, f.q[0])
    ensures Carries(ks, next, Later(f), tail) && |Flatten(f.q)| == |f.q[0]| + |Flatten(Later(f).q)|
  {
  }

  lemma CarriesOneMore(ks: Keystream, pos: nat, chunk: bytes, next: nat, g: InFlight, stream: bytes, more: bytes)
    requires ChunkOk(chunk) && 5 + |chunk| <= |stream| && stream[..5 + |chunk|] == DataRecord(ks, pos, chunk)
    requires next == pos + |chunk| && Carries(ks, next, g, stream[5 + |chunk|..] + more)
    ensures Carries(ks, pos, g.(q := [chunk] + g.q), stream + more)
  {
    SplitConcat(stream, more, 5 + |chunk|);
    CarriesCons(ks, pos, chunk, next, g, stream + more);
  }

  lemma CarriesCons(ks: Keystream, pos: nat, chunk: bytes, next: nat, g: InFlight, stream: bytes)
    requires ChunkOk(chunk) && 5 + |chunk| <= |stream| && stream[..5 + |chunk|] == DataRecord(ks, pos, chunk)
    requires next == pos + |chunk| && Carries(ks, next, g, stream[5 + |chunk|..])
    ensures Carries(ks, pos, g.(q := [chunk] + g.q), stream)
  {
    var f := g.(q := [chunk] + g.q);
    assert f.q[0] == chunk && f.q[1..] == g.q;
    assert Later(f) == g;
    assert next == pos + |f.q[0]|;
  }

  lemma CarriesOne(ks: Keystream, pos: nat, chunk: bytes)
    requires ChunkOk(chunk)
    ensures Carries(ks, pos, InFlight([chunk], chunk, 0), DataRecord(ks, pos, chunk))
  {
    var record := DataRecord(ks, pos, chunk);
    assert record[..|record|] == record && record[|record|..] == [];
    CarriesCons(ks, pos, chunk, pos + |chunk|, InFlight([], chunk, 0), record);
  }

  /** A receiver that holds five bytes of a record sees its length. */
  lemma HeaderSeen(ks: Keystream, pos: nat, chunk: bytes, got: bytes)
    requires ChunkOk(chunk)
    requires 5 <= |got| && got[..5] == DataRecord(ks, pos, chunk)[..5]
    ensures Need(got) == 5 + |chunk|
  {
    Be16RoundTrip(|chunk|);
    assert forall i :: 0 <= i < 5 ==> got[i] == got[..5][i] == DataRecord(ks, pos, chunk)[i];
  }

  /** A complete record in hand is the oldest record in flight, never the failed one. */
  lemma CompleteRecord(ks: Keystream, pos: nat, f: InFlight, got: bytes, wire: bytes)
    requires Carries(ks, pos, f, got + wire)
    requires 5 <= |got| == Need(got)
    ensures f.q != [] && got == DataRecord(ks, pos, f.q[0]) && |got| == 5 + |f.q[0]|
  {
    var stream := got + wire;
    assert stream[..5] == got[..5];
    if f.q == [] {
      HeaderSeen(ks, pos, f.last, got);
      assert false;
    } else {
      assert stream[..5] == stream[..5 + |f.q[0]|][..5];
      HeaderSeen(ks, pos, f.q[0], got);
      assert got == stream[..|got|];
    }
  }

  lemma SendKeepsBooks(ks: Keystream, start: nat, d: Dir, f: InFlight, chunk: bytes)
    requires Books(ks, start, d, f) && Enabled(ks, d, Send(chunk))
    ensures Books(ks, start, Apply(ks, d, Send(chunk)), InFlight(f.q + [chunk], chunk, 0))
  {
    FlattenSnoc(f.q, chunk);
    ConcatAssoc(d.delivered + d.readBuf, Flatten(f.q), chunk);
  }

  lemma SendKeepsInv(ks: Keystream, start: nat, d: Dir, f: InFlight, chunk: bytes)
    requires Inv(ks, start, d, f) && Enabled(ks, d, Send(chunk))
    ensures Inv(ks, start, Apply(ks, d, Send(chunk)), InFlight(f.q + [chunk], chunk, 0))
  {
    CarriesOne(ks, d.sendPos, chunk);
    CarriesAppend(ks, d.recvPos, f, d.got + d.wire, d.sendPos, InFlight([chunk], chunk, 0),
                  DataRecord(ks, d.sendPos, chunk));
    ConcatAssoc(d.got, d.wire, DataRecord(ks, d.sendPos, chunk));
    SendKeepsBooks(ks, start, d, f, chunk);
  }

  lemma SendFailsKeepsInv(ks: Keystream, start: nat, d: Dir, f: InFlight, chunk: bytes, cut: nat)
    requires Inv(ks, start, d, f) && Enabled(ks, d, SendFails(chunk, cut))
    ensures Inv(ks, start, Apply(ks, d, SendFails(chunk, cut)), InFlight(f.q, chunk, cut))
  {
    var part := DataRecord(ks, d.sendPos, chunk)[..cut];
    CarriesAppend(ks, d.recvPos, f, d.got + d.wire, d.sendPos, InFlight([], chunk, cut), part);
    assert f.q + [] == f.q;
    ConcatAssoc(d.got, d.wire, part);
  }

  lemma FetchKeepsInv(ks: Keystream, start: nat, d: Dir, f: InFlight, k: nat)
    requires Inv(ks, start, d, f) && Enabled(ks, d, Fetch(k))
    ensures Inv(ks, start, Apply(ks, d, Fetch(k)), f)
  {
    var d' := Apply(ks, d, Fetch(k));
    assert d'.got + d'.wire == d.got + d.wire;
    if 5 <= |d.got| {
      assert Need(d'.got) == Need(d.got);
    }
  }

  /** Returning from a complete record: the oldest chunk, decrypted, moves to the receiver. */
  lemma ReturnRecord(ks: Keystream, start: nat, d: Dir, f: InFlight, cap: nat)
    requires Inv(ks, start, d, f) && Enabled(ks, d, Return(cap)) && d.readBuf == []
    ensures f.q != []
    ensures var chunk, d' := f.q[0], Apply(ks, d, Return(cap));
            && d'.got == [] && d'.wire == d.wire && !d'.failed
            && d'.recvPos == d.recvPos + |chunk| && d'.consumed == d.consumed + Mask(ks, d.recvPos, chunk)
            && d'.delivered + d'.readBuf == d.delivered + chunk
  {
    CompleteRecord(ks, d.recvPos, f, d.got, d.wire);
    var chunk := f.q[0];
    var n := Min(cap, |chunk|);
    RecordInHand(ks, d.recvPos, chunk, d.got, cap);
    assert chunk[..n] + chunk[n..] == chunk;
    ConcatAssoc(d.delivered, chunk[..n], chunk[n..]);
  }

  lemma RecordInHand(ks: Keystream, pos: nat, chunk: bytes, got: bytes, cap: nat)
    requires ChunkOk(chunk) && got == DataRecord(ks, pos, chunk)
    ensures TakeRecord(got) == Payload(Mask(ks, pos, chunk), [])
    ensures var n := Min(cap, |chunk|);
            ReadStep(ks, pos, [], got, cap) == ReadOutcome(chunk[..n], false, chunk[n..], pos + |chunk|, [])
  {
    assert got + [] == got;
    RecordTaken(Mask(ks, pos, chunk), []);
    RecordRead(ks, pos, chunk, [], cap);
  }

  lemma ReturnRecordKeepsBooks(ks: Keystream, start: nat, d: Dir, f: InFlight, d': Dir)
    requires Books(ks, start, d, f) && d.readBuf == [] && f.q != []
    requires d'.got == [] && !d'.failed && d'.written == d.written && d'.alive == d.alive && d'.sendPos == d.sendPos
    requires d'.recvPos == d.recvPos + |f.q[0]| && d'.consumed == d.consumed + Mask(ks, d.recvPos, f.q[0])
    requires d'.delivered + d'.readBuf == d.delivered + f.q[0]
    ensures Books(ks, start, d', Later(f))
  {
    assert d.delivered + d.readBuf == d.delivered;
    MaskTwice(ks, d.recvPos, f.q[0]);
    MaskConcat(ks, start, d.consumed, Mask(ks, d.recvPos, f.q[0]));
    ConcatAssoc(d.delivered, f.q[0], Flatten(f.q[1..]));
  }

  lemma ReturnKeepsInv(ks: Keystream, start: nat, d: Dir, f: InFlight, cap: nat)
    requires Inv(ks, start, d, f) && Enabled(ks, d, Return(cap))
    ensures d.readBuf != [] ==> Inv(ks, start, Apply(ks, d, Return(cap)), f)
    ensures d.readBuf == [] ==> f.q != [] && Inv(ks, start, Apply(ks, d, Return(cap)), Later(f))
  {
    var d' := Apply(ks, d, Return(cap));
    if d.readBuf != [] {
      var n := Min(cap, |d.readBuf|);
      assert d.readBuf[..n] + d.readBuf[n..] == d.readBuf;
      ConcatAssoc(d.delivered, d.readBuf[..n], d.readBuf[n..]);
    } else {
      ReturnRecord(ks, start, d, f, cap);
      ReturnRecordKeepsBooks(ks, start, d, f, d');
      CompleteRecord(ks, d.recvPos, f, d.got, d.wire);
      assert (d.got + d.wire)[|d.got|..] == d'.wire == d'.got + d'.wire;
    }
  }

  lemma StepKeepsInv(ks: Keystream, start: nat, d: Dir, f: InFlight, s: Step) returns (f': InFlight)
    requires Inv(ks, start, d, f) && Enabled(ks, d, s)
    ensures Inv(ks, start, Apply(ks, d, s), f')
  {
    match s
    case Send(chunk) => SendKeepsInv(ks, start, d, f, chunk); f' := InFlight(f.q + [chunk], chunk, 0);
    case SendFails(chunk, cut) => SendFailsKeepsInv(ks, start, d, f, chunk, cut); f' := InFlight(f.q, chunk, cut);
    case Fetch(k) => FetchKeepsInv(ks, start, d, f, k); f' := f;
    case Return(cap) => ReturnKeepsInv(ks, start, d, f, cap); f' := if d.readBuf != [] then f else Later(f);
    case Break => f' := f;
  }

  // ---- Sessions ----

  /** Client to proxy and proxy to client; each direction has its own keystream. */
  datatype Session = Session(up: Dir, down: Dir)
  datatype Event = Up(step: Step) | Down(step: Step)

  predicate Possible(upKs: Keystream, downKs: Keystream, s: Session, e: Event) {
    if e.Up? then Enabled(upKs, s.up, e.step) else Enabled(downKs, s.down, e.step)
  }

  function After(upKs: Keystream, downKs: Keystream, s: Session, e: Event): Session
    requires Possible(upKs, downKs, s, e)
  {
    if e.Up? then s.(up := Apply(upKs, s.up, e.step)) else s.(down := Apply(downKs, s.down, e.step))
  }

  /** es is a run from s; the handshake leaves the two positions at 64 and 0. */
  predicate IsRun(upKs: Keystream, downKs: Keystream, s: Session, es: seq<Event>)
    decreases |es|
  {
    es == [] || (Possible(upKs, downKs, s, es[0]) && IsRun(upKs, downKs, After(upKs, downKs, s, es[0]), es[1..]))
  }

  function Final(upKs: Keystream, downKs: Keystream, s: Session, es: seq<Event>): Session
    requires IsRun(upKs, downKs, s, es)
    decreases |es|
  {
    if es == [] then s else Final(upKs, downKs, After(upKs, downKs, s, es[0]), es[1..])
  }

  const INITIAL := Session(Start(64), Start(0))

  lemma {:induction false} RunKeepsInv(upKs: Keystream, downKs: Keystream, s: Session, es: seq<Event>,
                                       fu: InFlight, fd: InFlight) returns (fu': InFlight, fd': InFlight)
    requires Inv(upKs, 64, s.up, fu) && Inv(downKs, 0, s.down, fd)
    requires IsRun(upKs, downKs, s, es)
    ensures var t := Final(upKs, downKs, s, es);
            Inv(upKs, 64, t.up, fu') && Inv(downKs, 0, t.down, fd')
    decreases |es|
  {
    fu', fd' := fu, fd;
    if es != [] {
      if es[0].Up? {
        fu' := StepKeepsInv(upKs, 64, s.up, fu, es[0].step);
      } else {
        fd' := StepKeepsInv(downKs, 0, s.down, fd, es[0].step);
      }
      fu', fd' := RunKeepsInv(upKs, downKs, After(upKs, downKs, s, es[0]), es[1..], fu', fd');
    }
  }

  /** What holds of one direction in every reachable state. */
  ghost predicate Safe(ks: Keystream, start: nat, d: Dir) {
    // the receiver holds exactly the decryption of the records it consumed, a prefix of what was written
    && d.delivered + d.readBuf == Mask(ks, start, d.consumed)
    && d.delivered + d.readBuf <= d.written
    // positions: the receiver trails the sender by the payload bytes in flight
    && d.recvPos == start + |d.delivered| + |d.readBuf|
    && (d.alive ==> d.sendPos == start + |d.written|)
    // only the end of the connection makes a Read fail, and once the wire is drained nothing is missing
    && (d.failed ==> d.broken)
    && (d.alive && d.got == [] && d.wire == [] ==> d.delivered + d.readBuf == d.written)
  }

  lemma InvIsSafe(ks: Keystream, start: nat, d: Dir, f: InFlight)
    requires Inv(ks, start, d, f)
    ensures Safe(ks, start, d)
  {
    assert d.written[..|d.delivered + d.readBuf|] == d.delivered + d.readBuf;
  }

  /** Session safety: over every run of both directions, whatever the sizes and fragments. */
  lemma SessionSafety(upKs: Keystream, downKs: Keystream, es: seq<Event>)
    requires IsRun(upKs, downKs, INITIAL, es)
    ensures var t := Final(upKs, downKs, INITIAL, es);
            Safe(upKs, 64, t.up) && Safe(downKs, 0, t.down)
  {
    var none := InFlight([], [0], 0);
    assert Inv(upKs, 64, INITIAL.up, none) && Inv(downKs, 0, INITIAL.down, none);
    var fu, fd := RunKeepsInv(upKs, downKs, INITIAL, es, none, none);
    var t := Final(upKs, downKs, INITIAL, es);
    InvIsSafe(upKs, 64, t.up, fu);
    InvIsSafe(downKs, 0, t.down, fd);
  }

  // ---- The machine's steps are the class's methods ----

  function Sends(q: seq<bytes>): seq<Step> {
    seq(|q|, i requires 0 <= i < |q| => Send(q[i]))
  }

  predicate IsDirRun(ks: Keystream, d: Dir, ss: seq<Step>)
    decreases |ss|
  {
    ss == [] || (Enabled(ks, d, ss[0]) && IsDirRun(ks, Apply(ks, d, ss[0]), ss[1..]))
  }

  function DirFinal(ks: Keystream, d: Dir, ss: seq<Step>): Dir
    requires IsDirRun(ks, d, ss)
    decreases |ss|
  {
    if ss == [] then d else DirFinal(ks, Apply(ks, d, ss[0]), ss[1..])
  }

  lemma {:induction false} SendsAre(ks: Keystream, d: Dir, q: seq<bytes>)
    requires d.alive && ChunksOk(q)
    ensures IsDirRun(ks, d, Sends(q))
    ensures DirFinal(ks, d, Sends(q)) == SentAll(ks, d, q)
    decreases |q|
  {
    if q != [] {
      assert Sends(q)[0] == Send(q[0]) && Sends(q)[1..] == Sends(q[1..]);
      SendsAre(ks, Apply(ks, d, Send(q[0])), q[1..]);
      SentAllStep(ks, d, q);
    } else {
      assert SentAll(ks, d, q) == d;
    }
  }

  function SentAll(ks: Keystream, d: Dir, q: seq<bytes>): Dir {
    d.(written := d.written + Flatten(q), sendPos := d.sendPos + |Flatten(q)|,
       wire := d.wire + Encode(ks, d.sendPos, q))
  }

  lemma SentAllStep(ks: Keystream, d: Dir, q: seq<bytes>)
    requires d.alive && ChunksOk(q) && q != []
    ensures SentAll(ks, Apply(ks, d, Send(q[0])), q[1..]) == SentAll(ks, d, q)
  {
    var d', record := Apply(ks, d, Send(q[0])), DataRecord(ks, d.sendPos, q[0]);
    ConcatAssoc(d.written, q[0], Flatten(q[1..]));
    ConcatAssoc(d.wire, record, Encode(ks, d'.sendPos, q[1..]));
  }

  /** A successful Write of any size is a run of Send steps with the same effect. */
  lemma WriteIsARun(ks: Keystream, d: Dir, b: bytes, capacity: nat)
    requires d.alive && !WriteStep(ks, d.sendPos, b, capacity).err
    ensures IsDirRun(ks, d, Sends(Chunks(b)))
    ensures var w := WriteStep(ks, d.sendPos, b, capacity);
            DirFinal(ks, d, Sends(Chunks(b))) == d.(written := d.written + b, sendPos := w.pos, wire := d.wire + w.wire)
  {
    ChunksFlatten(b);
    WriteSendsChunks(ks, d.sendPos, b, capacity);
    SendsAre(ks, d, Chunks(b));
  }

  /** The chunks of b whose records fit. */
  function FullChunks(b: bytes, capacity: nat): seq<bytes>
    decreases |b|
  {
    var chunk := FirstChunk(b);
    if b == [] || capacity < 5 + |chunk| then [] else [chunk] + FullChunks(b[|chunk|..], capacity - (5 + |chunk|))
  }

  /** What is left of b, and of the capacity, at the chunk that fails. */
  function FailedRest(b: bytes, capacity: nat): (bytes, nat)
    decreases |b|
  {
    var chunk := FirstChunk(b);
    if b == [] || capacity < 5 + |chunk| then (b, capacity) else FailedRest(b[|chunk|..], capacity - (5 + |chunk|))
  }

  /** A Write that fails is a run of Send steps for the records that fit, then one SendFails. */
  function FailingSteps(b: bytes, capacity: nat): seq<Step> {
    var (rest, cut) := FailedRest(b, capacity);
    Sends(FullChunks(b, capacity)) + [SendFails(FirstChunk(rest), cut)]
  }

  lemma FailingCons(b: bytes, capacity: nat, rest: bytes, left: nat)
    requires b != [] && capacity == 5 + |FirstChunk(b)| + left && rest == b[|FirstChunk(b)|..]
    ensures FailingSteps(b, capacity) == [Send(FirstChunk(b))] + FailingSteps(rest, left)
  {
    var q := FullChunks(rest, left);
    assert FullChunks(b, capacity) == [FirstChunk(b)] + q;
    assert Sends([FirstChunk(b)] + q) == [Send(FirstChunk(b))] + Sends(q);
  }

  /** Written, position and wire after a failed Write. */
  function FailedWrite(ks: Keystream, d: Dir, b: bytes, capacity: nat): Dir {
    var w := WriteStep(ks, d.sendPos, b, capacity);
    d.(written := d.written + b[..Min(w.total, |b|)], sendPos := w.pos, alive := false, wire := d.wire + w.wire)
  }

  lemma FailedWriteNext(ks: Keystream, d: Dir, b: bytes, capacity: nat, rest: bytes, left: nat)
    requires d.alive && b != [] && capacity == 5 + |FirstChunk(b)| + left && rest == b[|FirstChunk(b)|..]
    requires WriteStep(ks, d.sendPos, b, capacity).err
    ensures WriteStep(ks, d.sendPos + |FirstChunk(b)|, rest, left).err
    ensures FailedWrite(ks, Apply(ks, d, Send(FirstChunk(b))), rest, left) == FailedWrite(ks, d, b, capacity)
  {
    var chunk, d' := FirstChunk(b), Apply(ks, d, Send(FirstChunk(b)));
    WriteOneMore(ks, d.sendPos, b, capacity, d'.sendPos, left, d.wire);
    WriteSendsChunks(ks, d'.sendPos, rest, left);
    var n := WriteStep(ks, d'.sendPos, rest, left).total;
    assert b[..|chunk| + n] == chunk + rest[..n];
    ConcatAssoc(d.written, chunk, rest[..n]);
  }

  /** A failed Write, wherever it fails, is a run of the machine with the same effect; the sender is dead then. */
  lemma {:induction false} FailedWriteIsARun(ks: Keystream, d: Dir, b: bytes, capacity: nat)
    requires d.alive && WriteStep(ks, d.sendPos, b, capacity).err
    ensures IsDirRun(ks, d, FailingSteps(b, capacity))
    ensures DirFinal(ks, d, FailingSteps(b, capacity)) == FailedWrite(ks, d, b, capacity)
    decreases |b|
  {
    var chunk, steps := FirstChunk(b), FailingSteps(b, capacity);
    if capacity < 5 + |chunk| {
      assert steps == [SendFails(chunk, capacity)] && steps[1..] == [];
      assert d.written + b[..0] == d.written;
    } else {
      var rest, left := b[|chunk|..], capacity - (5 + |chunk|);
      FailingCons(b, capacity, rest, left);
      FailedWriteNext(ks, d, b, capacity, rest, left);
      FailedWriteIsARun(ks, Apply(ks, d, Send(chunk)), rest, left);
      assert steps[1..] == FailingSteps(rest, left);
    }
  }

  /** A Read that returned had, whatever the fragments, the outcome of one Read over the whole unread stream. */
  lemma ReadIgnoresFragments(ks: Keystream, start: nat, d: Dir, f: InFlight, cap: nat)
    requires Inv(ks, start, d, f) && Enabled(ks, d, Return(cap))
    ensures var r, d' := ReadStep(ks, d.recvPos, d.readBuf, d.got + d.wire, cap), Apply(ks, d, Return(cap));
            && d'.delivered == d.delivered + r.out && d'.readBuf == r.readBuf && d'.recvPos == r.pos
            && d'.failed == r.err && d'.got + d'.wire == r.unread
  {
    var unread := d.got + d.wire;
    if d.readBuf == [] {
      CompleteRecord(ks, d.recvPos, f, d.got, d.wire);
      assert TakeRecord(d.got) == Payload(d.got[5..], []);
      assert unread[5..|d.got|] == d.got[5..];
      assert unread[|d.got|..] == d.wire;
      assert TakeRecord(unread) == Payload(d.got[5..], d.wire);
    }
  }
}
