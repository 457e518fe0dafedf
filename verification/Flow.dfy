/**
  * One flow object of TunWorker as a state machine: the relay coroutine, and any number of other
  * coroutines that read its sequence number and later write an ACK or FIN.
  */
module Flow {
  import opened Bytes

  const MODULUS: nat := 0x1_0000_0000
  const MAX_PAYLOAD: nat := 1460

  function Wrap(n: nat): nat {
    n % MODULUS
  }

  /**
    * A sequence number another coroutine has read, for a FIN (closing) or an ACK.  History only: how
    * many packets had been written then, and the bytes of the last one if serverSeq did not count them.
    */
  datatype Snapshot = Snapshot(seqNum: nat, closing: bool, at: nat, lag: nat)

  /** A packet handed to the TUN device, in order; ok is false when the write failed (and was swallowed). */
  datatype Sent =
    | SynAckAt(seqNum: nat, ok: bool)
    | Data(seqNum: nat, payload: bytes, ok: bool)
    | Ack(from: Snapshot, ok: bool)     // of client data
    | Close(from: Snapshot, ok: bool)   // the FIN that answers the host's
    | Fin(seqNum: nat, ok: bool)        // the relay's own

  /** Where the relay is between reading the socket and advancing serverSeq. */
  datatype Relay =
    | Starting                          // the SYN-ACK has not been sent
    | Idle
    | Got(payload: bytes)               // read from the socket
    | Ready(payload: bytes, seqNum: nat) // serverSeq read for the packet
    | Advance(n: nat)                   // packet written, serverSeq not advanced yet
    | Ending(seqNum: nat)               // serverSeq read for the final FIN
    | Done

  datatype State = State(
    serverSeq: nat,
    relay: Relay,
    read: bytes,              // everything read from the socket
    sent: seq<Sent>,
    pending: seq<Snapshot>)

  datatype Step =
    | SynAck(ok: bool)
    | ReadSocket(payload: bytes)
    | ReadSeq
    | WriteData(ok: bool)
    | AdvanceSeq
    | EndOfStream                     // or an exception: the finally block reads serverSeq
    | WriteFin(ok: bool)
    | Peek(closing: bool)             // some coroutine reads serverSeq for a FIN or ACK
    | WriteControl(i: nat, ok: bool)  // and writes its packet

  function Payload(s: Sent): bytes {
    if s.Data? then s.payload else []
  }

  /** The bytes of all data segments. */
  function Payloads(sent: seq<Sent>): bytes {
    if sent == [] then [] else Payloads(sent[..|sent| - 1]) + Payload(sent[|sent| - 1])
  }

  function Start(isn: nat): State {
    State(Wrap(isn + 1), Starting, [], [], [])
  }

  predicate Enabled(s: State, a: Step) {
    match a
    case SynAck(_) => s.relay.Starting?
    case ReadSocket(payload) => s.relay.Idle? && 1 <= |payload| <= MAX_PAYLOAD
    case ReadSeq => s.relay.Got?
    case WriteData(_) => s.relay.Ready?
    case AdvanceSeq => s.relay.Advance?
    case EndOfStream => s.relay.Idle?
    case WriteFin(_) => s.relay.Ending?
    case Peek(_) => true
    case WriteControl(i, _) => i < |s.pending|
  }

  /** The segment written and not yet added to serverSeq. */
  function Lag(r: Relay): nat {
    if r.Advance? then r.n else 0
  }

  function ControlPacket(p: Snapshot, ok: bool): Sent {
    if p.closing then Close(p, ok) else Ack(p, ok)
  }

  function Apply(isn: nat, s: State, a: Step): State
    requires Enabled(s, a)
  {
    match a
    case SynAck(ok) => s.(relay := Idle, sent := s.sent + [SynAckAt(isn, ok)])
    case ReadSocket(payload) => s.(relay := Got(payload), read := s.read + payload)
    case ReadSeq => s.(relay := Ready(s.relay.payload, s.serverSeq))
    case WriteData(ok) =>
      s.(relay := Advance(|s.relay.payload|), sent := s.sent + [Data(s.relay.seqNum, s.relay.payload, ok)])
    case AdvanceSeq => s.(relay := Idle, serverSeq := Wrap(s.serverSeq + s.relay.n))
    case EndOfStream => s.(relay := Ending(s.serverSeq))
    case WriteFin(ok) => s.(relay := Done, sent := s.sent + [Fin(s.relay.seqNum, ok)])
    case Peek(closing) => s.(pending := s.pending + [Snapshot(s.serverSeq, closing, |s.sent|, Lag(s.relay))])
    case WriteControl(i, ok) =>
      s.(pending := s.pending[..i] + s.pending[i + 1..], sent := s.sent + [ControlPacket(s.pending[i], ok)])
  }

  // ---- The invariant ----

  /** The bytes of data a snapshot's number counts. */
  function Counted(p: Snapshot, sent: seq<Sent>): int
    requires p.at <= |sent|
  {
    |Payloads(sent[..p.at])| - p.lag
  }

  /** When it was taken, a snapshot counted all data sent before but the last segment, of lag bytes. */
  predicate SnapshotOk(isn: nat, p: Snapshot, sent: seq<Sent>) {
    && p.at <= |sent| && p.lag <= MAX_PAYLOAD
    && 0 <= Counted(p, sent) && p.seqNum == Wrap(isn + 1 + Counted(p, sent))
  }

  predicate NoFin(sent: seq<Sent>) {
    forall k :: 0 <= k < |sent| ==> !sent[k].Fin?
  }

  /** What packet e's sequence number is, given the packets before it; no data follows the relay's FIN. */
  predicate PlacedAfter(isn: nat, before: seq<Sent>, e: Sent) {
    match e
    case SynAckAt(seqNum, _) => seqNum == isn
    case Data(seqNum, payload, _) =>
      seqNum == Wrap(isn + 1 + |Payloads(before)|) && 1 <= |payload| <= MAX_PAYLOAD && NoFin(before)
    case Fin(seqNum, _) => seqNum == Wrap(isn + 1 + |Payloads(before)|)
    case Ack(from, _) => !from.closing && SnapshotOk(isn, from, before)
    case Close(from, _) => from.closing && SnapshotOk(isn, from, before)
  }

  predicate Placed(isn: nat, sent: seq<Sent>, k: nat)
    requires k < |sent|
  {
    PlacedAfter(isn, sent[..k], sent[k])
  }

  predicate AllPlaced(isn: nat, sent: seq<Sent>) {
    forall k :: 0 <= k < |sent| ==> Placed(isn, sent, k)
  }

  predicate FinAfter(isn: nat, sent: seq<Sent>, total: nat) {
    exists k :: 0 <= k < |sent| && sent[k].Fin? && sent[k].seqNum == Wrap(isn + 1 + total)
  }

  ghost predicate RelayOk(isn: nat, s: State) {
    var total := |Payloads(s.sent)|;
    && (s.relay.Got? || s.relay.Ready? ==>
          s.read == Payloads(s.sent) + s.relay.payload && 1 <= |s.relay.payload| <= MAX_PAYLOAD)
    && (!s.relay.Got? && !s.relay.Ready? ==> s.read == Payloads(s.sent))
    && (s.relay.Ready? || s.relay.Ending? ==> s.relay.seqNum == s.serverSeq)
    && Lag(s.relay) <= total && Lag(s.relay) <= MAX_PAYLOAD
    && s.serverSeq == Wrap(isn + 1 + (total - Lag(s.relay)))
    && (if s.relay.Done? then FinAfter(isn, s.sent, |s.read|) else NoFin(s.sent))
  }

  ghost predicate Inv(isn: nat, s: State) {
    && RelayOk(isn, s)
    && AllPlaced(isn, s.sent)
    && (forall i :: 0 <= i < |s.pending| ==> SnapshotOk(isn, s.pending[i], s.sent))
  }

  lemma PayloadsSnoc(sent: seq<Sent>, e: Sent)
    ensures Payloads(sent + [e]) == Payloads(sent) + Payload(e)
  {
    assert (sent + [e])[..|sent|] == sent;
  }

  lemma SnapshotStays(isn: nat, p: Snapshot, sent: seq<Sent>, e: Sent)
    requires SnapshotOk(isn, p, sent)
    ensures SnapshotOk(isn, p, sent + [e])
  {
    assert (sent + [e])[..p.at] == sent[..p.at];
  }

  lemma PlacedSnoc(isn: nat, sent: seq<Sent>, e: Sent)
    ensures AllPlaced(isn, sent + [e]) <==> AllPlaced(isn, sent) && PlacedAfter(isn, sent, e)
  {
    var all := sent + [e];
    assert all[..|sent|] == sent;
    forall k | 0 <= k < |sent| ensures Placed(isn, all, k) <==> Placed(isn, sent, k) {
      assert all[..k] == sent[..k];
    }
    if AllPlaced(isn, all) {
      assert Placed(isn, all, |sent|);
    }
  }

  /** Sending e at its place keeps every packet placed and every snapshot good. */
  lemma SendKeeps(isn: nat, s: State, e: Sent, s': State)
    requires Inv(isn, s) && PlacedAfter(isn, s.sent, e)
    requires s'.sent == s.sent + [e] && forall p :: p in s'.pending ==> p in s.pending
    ensures AllPlaced(isn, s'.sent) && Payloads(s'.sent) == Payloads(s.sent) + Payload(e)
    ensures forall i :: 0 <= i < |s'.pending| ==> SnapshotOk(isn, s'.pending[i], s'.sent)
  {
    PlacedSnoc(isn, s.sent, e);
    PayloadsSnoc(s.sent, e);
    forall i | 0 <= i < |s'.pending| ensures SnapshotOk(isn, s'.pending[i], s'.sent) {
      assert s'.pending[i] in s'.pending;
      SnapshotStays(isn, s'.pending[i], s.sent, e);
    }
  }

  lemma WriteDataKeeps(isn: nat, s: State, ok: bool)
    requires Inv(isn, s) && s.relay.Ready?
    ensures Inv(isn, Apply(isn, s, WriteData(ok)))
  {
    SendKeeps(isn, s, Data(s.relay.seqNum, s.relay.payload, ok), Apply(isn, s, WriteData(ok)));
  }

  lemma AdvanceKeeps(isn: nat, s: State)
    requires Inv(isn, s) && s.relay.Advance?
    ensures Inv(isn, Apply(isn, s, AdvanceSeq))
  {
    WrapAdd(isn + 1 + (|Payloads(s.sent)| - s.relay.n), s.relay.n);
  }

  lemma WrapAdd(a: nat, n: nat)
    ensures Wrap(Wrap(a) + n) == Wrap(a + n)
  {
  }

  lemma FinKeeps(isn: nat, s: State, ok: bool)
    requires Inv(isn, s) && s.relay.Ending?
    ensures Inv(isn, Apply(isn, s, WriteFin(ok)))
  {
    var s' := Apply(isn, s, WriteFin(ok));
    SendKeeps(isn, s, Fin(s.relay.seqNum, ok), s');
    assert s'.sent[|s.sent|].Fin?;
  }

  lemma SynAckKeeps(isn: nat, s: State, ok: bool)
    requires Inv(isn, s) && s.relay.Starting?
    ensures Inv(isn, Apply(isn, s, SynAck(ok)))
  {
    SendKeeps(isn, s, SynAckAt(isn, ok), Apply(isn, s, SynAck(ok)));
  }

  lemma ControlKeeps(isn: nat, s: State, i: nat, ok: bool)
    requires Inv(isn, s) && i < |s.pending|
    ensures Inv(isn, Apply(isn, s, WriteControl(i, ok)))
  {
    var s', e := Apply(isn, s, WriteControl(i, ok)), ControlPacket(s.pending[i], ok);
    assert PlacedAfter(isn, s.sent, e) && Payload(e) == [];
    Without(s.pending, i);
    SendKeeps(isn, s, e, s');
    assert Payloads(s'.sent) == Payloads(s.sent);
    if s.relay.Done? {
      FinStays(isn, s.sent, ControlPacket(s.pending[i], ok), |s.read|);
    }
  }

  lemma Without(pending: seq<Snapshot>, i: nat)
    requires i < |pending|
    ensures forall p :: p in pending[..i] + pending[i + 1..] ==> p in pending
  {
  }

  lemma FinStays(isn: nat, sent: seq<Sent>, e: Sent, total: nat)
    requires FinAfter(isn, sent, total)
    ensures FinAfter(isn, sent + [e], total)
  {
    var k :| 0 <= k < |sent| && sent[k].Fin? && sent[k].seqNum == Wrap(isn + 1 + total);
    assert (sent + [e])[k] == sent[k];
  }

  /** Steps that send nothing and leave serverSeq alone. */
  lemma ReadingKeeps(isn: nat, s: State, a: Step)
    requires Inv(isn, s) && Enabled(s, a) && (a.ReadSocket? || a.ReadSeq? || a.EndOfStream? || a.Peek?)
    ensures Inv(isn, Apply(isn, s, a))
  {
    assert s.sent[..|s.sent|] == s.sent;
  }

  lemma StepKeepsInv(isn: nat, s: State, a: Step)
    requires Inv(isn, s) && Enabled(s, a)
    ensures Inv(isn, Apply(isn, s, a))
  {
    match a
    case SynAck(ok) => SynAckKeeps(isn, s, ok);
    case WriteControl(i, ok) => ControlKeeps(isn, s, i, ok);
    case WriteData(ok) => WriteDataKeeps(isn, s, ok);
    case AdvanceSeq => AdvanceKeeps(isn, s);
    case WriteFin(ok) => FinKeeps(isn, s, ok);
    case _ => ReadingKeeps(isn, s, a);
  }

  // ---- Runs ----

  predicate IsRun(isn: nat, s: State, steps: seq<Step>)
    decreases |steps|
  {
    steps == [] || (Enabled(s, steps[0]) && IsRun(isn, Apply(isn, s, steps[0]), steps[1..]))
  }

  function Final(isn: nat, s: State, steps: seq<Step>): State
    requires IsRun(isn, s, steps)
    decreases |steps|
  {
    if steps == [] then s else Final(isn, Apply(isn, s, steps[0]), steps[1..])
  }

  lemma {:induction false} RunKeepsInv(isn: nat, s: State, steps: seq<Step>)
    requires Inv(isn, s) && IsRun(isn, s, steps)
    ensures Inv(isn, Final(isn, s, steps))
    decreases |steps|
  {
    if steps != [] {
      StepKeepsInv(isn, s, steps[0]);
      RunKeepsInv(isn, Apply(isn, s, steps[0]), steps[1..]);
    }
  }

  lemma StepThen(isn: nat, s: State, a: Step, rest: seq<Step>)
    requires Enabled(s, a) && IsRun(isn, Apply(isn, s, a), rest)
    ensures IsRun(isn, s, [a] + rest) && Final(isn, s, [a] + rest) == Final(isn, Apply(isn, s, a), rest)
  {
    assert ([a] + rest)[1..] == rest;
  }

  /** The relay's turn for one chunk, undisturbed: read, take the sequence number, write, advance. */
  function Turn(payload: bytes, ok: bool, rest: seq<Step>): seq<Step> {
    [ReadSocket(payload)] + ([ReadSeq] + ([WriteData(ok)] + ([AdvanceSeq] + rest)))
  }

  lemma RelayTurn(isn: nat, s: State, payload: bytes, ok: bool, rest: seq<Step>) returns (t: State)
    requires s.relay.Idle? && 1 <= |payload| <= MAX_PAYLOAD
    ensures t == s.(serverSeq := Wrap(s.serverSeq + |payload|), read := s.read + payload,
                    sent := s.sent + [Data(s.serverSeq, payload, ok)])
    ensures IsRun(isn, t, rest) ==>
              && IsRun(isn, s, Turn(payload, ok, rest))
              && Final(isn, s, Turn(payload, ok, rest)) == Final(isn, t, rest)
  {
    var s1 := Apply(isn, s, ReadSocket(payload));
    var s2 := Apply(isn, s1, ReadSeq);
    var s3 := Apply(isn, s2, WriteData(ok));
    t := Apply(isn, s3, AdvanceSeq);
    if IsRun(isn, t, rest) {
      StepThen(isn, s3, AdvanceSeq, rest);
      StepThen(isn, s2, WriteData(ok), [AdvanceSeq] + rest);
      StepThen(isn, s1, ReadSeq, [WriteData(ok)] + ([AdvanceSeq] + rest));
      StepThen(isn, s, ReadSocket(payload), [ReadSeq] + ([WriteData(ok)] + ([AdvanceSeq] + rest)));
    }
  }

  // ---- How far behind a control packet is when it is written ----

  lemma {:induction false} PayloadsConcat(a: seq<Sent>, b: seq<Sent>)
    ensures Payloads(a + b) == Payloads(a) + Payloads(b)
  {
    if b == [] {
      assert a + b == a && Payloads(a) + [] == Payloads(a);
    } else {
      var front, e := b[..|b| - 1], b[|b| - 1];
      assert a + b == (a + front) + [e];
      PayloadsSnoc(a + front, e);
      PayloadsConcat(a, front);
      ConcatAssoc(Payloads(a), Payloads(front), Payload(e));
    }
  }

  /** Data sent since a snapshot was taken. */
  function Since(p: Snapshot, sent: seq<Sent>): bytes
    requires p.at <= |sent|
  {
    Payloads(sent[p.at..])
  }

  predicate IsControl(e: Sent) {
    e.Ack? || e.Close?
  }

  /**
    * Every ACK or FIN from another coroutine, in every run: its number is behind the data written before it
    * by what serverSeq did not count when it was read, at most one segment, and all that was written since.
    */
  lemma ControlLag(isn: nat, steps: seq<Step>, k: nat)
    requires isn < MODULUS && IsRun(isn, Start(isn), steps)
    requires k < |Final(isn, Start(isn), steps).sent| && IsControl(Final(isn, Start(isn), steps).sent[k])
    ensures LagsAsRead(isn, Final(isn, Start(isn), steps).sent, k)
  {
    RunKeepsInv(isn, Start(isn), steps);
    LagWritten(isn, Final(isn, Start(isn), steps).sent, k);
  }

  ghost predicate LagsAsRead(isn: nat, sent: seq<Sent>, k: nat)
    requires k < |sent| && IsControl(sent[k])
  {
    var p, before := sent[k].from, sent[..k];
    && p.at <= k && 0 <= Counted(p, before) && p.seqNum == Wrap(isn + 1 + Counted(p, before))
    && Counted(p, before) + p.lag + |Since(p, before)| == |Payloads(before)| && p.lag <= MAX_PAYLOAD
    && ((forall j :: p.at <= j < k ==> !sent[j].Data?) ==> Since(p, before) == [])
  }

  lemma LagWritten(isn: nat, sent: seq<Sent>, k: nat)
    requires AllPlaced(isn, sent) && k < |sent| && IsControl(sent[k])
    ensures LagsAsRead(isn, sent, k)
  {
    assert Placed(isn, sent, k);
    var p, before := sent[k].from, sent[..k];
    LagOf(isn, p, before);
    if forall j :: p.at <= j < k ==> !sent[j].Data? {
      forall j | p.at <= j < |before| ensures !before[j].Data? {
        assert before[j] == sent[j];
      }
      NoDataSince(p, before);
    }
  }

  lemma LagOf(isn: nat, p: Snapshot, before: seq<Sent>)
    requires SnapshotOk(isn, p, before)
    ensures Counted(p, before) + p.lag + |Since(p, before)| == |Payloads(before)|
  {
    var a, b := before[..p.at], before[p.at..];
    assert a + b == before;
    PayloadsConcat(a, b);
  }

  lemma NoDataSince(p: Snapshot, before: seq<Sent>)
    requires p.at <= |before| && forall j :: p.at <= j < |before| ==> !before[j].Data?
    ensures Since(p, before) == []
  {
    var b := before[p.at..];
    forall j | 0 <= j < |b| ensures !b[j].Data? {
      assert b[j] == before[p.at + j];
    }
    NoData(b);
  }

  lemma {:induction false} NoData(sent: seq<Sent>)
    requires forall j :: 0 <= j < |sent| ==> !sent[j].Data?
    ensures Payloads(sent) == []
  {
    if sent != [] {
      NoData(sent[..|sent| - 1]);
    }
  }

  /** k full segments, read and written by the relay, then rest. */
  function Segments(k: nat, rest: seq<Step>): seq<Step> {
    if k == 0 then rest else Turn(Zeros(MAX_PAYLOAD), true, Segments(k - 1, rest))
  }

  lemma SegmentRun(isn: nat, s: State, rest: seq<Step>) returns (t: State)
    requires s.relay.Idle?
    ensures t.relay.Idle? && t.pending == s.pending && |Payloads(t.sent)| == |Payloads(s.sent)| + MAX_PAYLOAD
    ensures var steps := Turn(Zeros(MAX_PAYLOAD), true, rest);
            IsRun(isn, t, rest) ==> IsRun(isn, s, steps) && Final(isn, s, steps) == Final(isn, t, rest)
  {
    PayloadsSnoc(s.sent, Data(s.serverSeq, Zeros(MAX_PAYLOAD), true));
    t := RelayTurn(isn, s, Zeros(MAX_PAYLOAD), true, rest);
  }

  lemma {:induction false} SegmentsRun(isn: nat, s: State, k: nat, more: nat, rest: seq<Step>) returns (t: State)
    requires s.relay.Idle? && more == k * MAX_PAYLOAD
    ensures t.relay.Idle? && t.pending == s.pending && |Payloads(t.sent)| == |Payloads(s.sent)| + more
    ensures IsRun(isn, t, rest) ==>
              && IsRun(isn, s, Segments(k, rest))
              && Final(isn, s, Segments(k, rest)) == Final(isn, t, rest)
    decreases k
  {
    if k == 0 {
      t := s;
    } else {
      var later := Segments(k - 1, rest);
      var u := SegmentRun(isn, s, later);
      assert Segments(k, rest) == Turn(Zeros(MAX_PAYLOAD), true, later);
      t := SegmentsRun(isn, u, k - 1, more - MAX_PAYLOAD, rest);
    }
  }

  /** Between the reading of serverSeq and the writing of the packet any number of segments may go out. */
  lemma ControlLagUnbounded(isn: nat, k: nat, closing: bool)
    requires isn < MODULUS
    ensures var steps := [SynAck(true)] + ([Peek(closing)] + Segments(k, [WriteControl(0, true)]));
            && IsRun(isn, Start(isn), steps)
            && var sent := Final(isn, Start(isn), steps).sent;
               && sent != [] && IsControl(sent[|sent| - 1]) && sent[|sent| - 1].from.seqNum == Wrap(isn + 1)
               && |Payloads(sent[..|sent| - 1])| == k * MAX_PAYLOAD
  {
    var last := WriteControl(0, true);
    Opening(isn, true, closing);
    var s1 := Apply(isn, Start(isn), SynAck(true));
    var s2 := Apply(isn, s1, Peek(closing));
    var t := SegmentsRun(isn, s2, k, k * MAX_PAYLOAD, [last]);
    assert Apply(isn, t, last).sent == t.sent + [ControlPacket(s2.pending[0], true)];
    assert (t.sent + [ControlPacket(s2.pending[0], true)])[..|t.sent|] == t.sent;
    assert [last] == [last] + [];
    StepThen(isn, t, last, []);
    StepThen(isn, s1, Peek(closing), Segments(k, [last]));
    StepThen(isn, Start(isn), SynAck(true), [Peek(closing)] + Segments(k, [last]));
  }

  lemma Opening(isn: nat, ok: bool, closing: bool)
    requires isn < MODULUS
    ensures var s1 := Apply(isn, Start(isn), SynAck(ok));
            var s2 := Apply(isn, s1, Peek(closing));
            && s2.relay.Idle? && s2.sent == [SynAckAt(isn, ok)] && Payloads(s2.sent) == []
            && s2.pending == [Snapshot(Wrap(isn + 1), closing, 1, 0)]
  {
    PayloadsSnoc([], SynAckAt(isn, ok));
    assert [] + [SynAckAt(isn, ok)] == [SynAckAt(isn, ok)];
  }
}
