/** The host at the other end of a flow: what it takes of the packets the worker writes, and when it loses data. */
module Reassembly {
  import opened Bytes
  import opened Flow

  // ---- A receiver in order of arrival (sections 3.4 and 3.10.7 of RFC 9293) ----

  /** Open(next, taken) takes what stands at RCV.NXT; a FIN there ends the stream. */
  datatype Host = SynSent | Open(next: nat, taken: bytes) | Closed(taken: bytes)

  function Taken(h: Host): bytes {
    if h.SynSent? then [] else h.taken
  }

  function Synchronize(h: Host, seqNum: nat): Host {
    if h.SynSent? then Open(Wrap(seqNum + 1), []) else h
  }

  function Take(h: Host, seqNum: nat, payload: bytes): Host {
    if h.Open? && payload != [] && seqNum == h.next then Open(Wrap(h.next + |payload|), h.taken + payload) else h
  }

  function End(h: Host, seqNum: nat): Host {
    if h.Open? && seqNum == h.next then Closed(h.taken) else h
  }

  function Receive(h: Host, e: Sent): Host {
    if !e.ok then h else
      match e
      case SynAckAt(seqNum, _) => Synchronize(h, seqNum)
      case Data(seqNum, payload, _) => Take(h, seqNum, payload)
      case Ack(_, _) => h
      case Close(from, _) => End(h, from.seqNum)
      case Fin(seqNum, _) => End(h, seqNum)
  }

  function ReceiveAll(sent: seq<Sent>): Host {
    if sent == [] then SynSent else Receive(ReceiveAll(sent[..|sent| - 1]), sent[|sent| - 1])
  }

  // ---- When nothing is lost ----

  /** The SYN-ACK has arrived. */
  predicate Opened(sent: seq<Sent>) {
    exists k :: 0 <= k < |sent| && sent[k].SynAckAt? && sent[k].ok
  }

  /** A FIN of another coroutine that arrives after before, where the data sent so far ends. */
  predicate Ends(isn: nat, before: seq<Sent>, e: Sent) {
    e.Close? && e.ok && Opened(before) && e.from.seqNum == Wrap(isn + 1 + |Payloads(before)|)
  }

  predicate Ended(isn: nat, sent: seq<Sent>) {
    exists k :: 0 <= k < |sent| && Ends(isn, sent[..k], sent[k])
  }

  /** A data segment sent after before is written, to a host that has the SYN-ACK and was not told the end. */
  predicate Reaches(isn: nat, before: seq<Sent>, e: Sent) {
    e.Data? ==> e.ok && Opened(before) && !Ended(isn, before)
  }

  predicate Intact(isn: nat, sent: seq<Sent>) {
    forall k :: 0 <= k < |sent| ==> Reaches(isn, sent[..k], sent[k])
  }

  lemma OpenedSnoc(sent: seq<Sent>, e: Sent)
    ensures Opened(sent + [e]) <==> Opened(sent) || (e.SynAckAt? && e.ok)
  {
    var all := sent + [e];
    if Opened(sent) {
      var k :| 0 <= k < |sent| && sent[k].SynAckAt? && sent[k].ok;
      assert all[k] == sent[k];
    } else if e.SynAckAt? && e.ok {
      assert all[|sent|] == e;
    }
  }

  lemma EndedSnoc(isn: nat, sent: seq<Sent>, e: Sent)
    ensures Ended(isn, sent + [e]) <==> Ended(isn, sent) || Ends(isn, sent, e)
  {
    var all := sent + [e];
    assert all[..|sent|] == sent && all[|sent|] == e;
    forall k | 0 <= k < |sent| ensures Ends(isn, all[..k], all[k]) <==> Ends(isn, sent[..k], sent[k]) {
      assert all[..k] == sent[..k];
    }
  }

  lemma IntactSnoc(isn: nat, sent: seq<Sent>, e: Sent)
    ensures Intact(isn, sent + [e]) <==> Intact(isn, sent) && Reaches(isn, sent, e)
  {
    var all := sent + [e];
    assert all[..|sent|] == sent && all[|sent|] == e;
    forall k | 0 <= k < |sent| ensures Reaches(isn, all[..k], all[k]) <==> Reaches(isn, sent[..k], sent[k]) {
      assert all[..k] == sent[..k];
    }
  }

  /** A FIN can only end a stream whose SYN-ACK arrived before it. */
  lemma {:induction false} EndedOpened(isn: nat, sent: seq<Sent>)
    requires Ended(isn, sent)
    ensures Opened(sent)
  {
    var k :| 0 <= k < |sent| && Ends(isn, sent[..k], sent[k]);
    var j :| 0 <= j < k && sent[..k][j].SynAckAt? && sent[..k][j].ok;
    assert sent[j] == sent[..k][j];
  }

  /** What a host holds that has lost nothing of data, by whether the SYN-ACK, a cutting FIN or the last FIN came. */
  predicate Holding(isn: nat, h: Host, data: bytes, begun: bool, ended: bool, final: bool) {
    && Taken(h) == data
    && (!begun <==> h.SynSent?)
    && (ended ==> h.Closed?)
    && (h.Open? ==> h.next == Wrap(isn + 1 + |data|))
    && (begun && !ended && !final ==> h.Open?)
  }

  ghost predicate InStep(isn: nat, sent: seq<Sent>, h: Host) {
    Holding(isn, h, Payloads(sent), Opened(sent), Ended(isn, sent), !NoFin(sent))
  }

  lemma HoldingData(isn: nat, h: Host, data: bytes, payload: bytes, more: nat)
    requires Holding(isn, h, data, true, false, false) && payload != [] && more == isn + 1 + |data + payload|
    ensures Take(h, Wrap(isn + 1 + |data|), payload) == Open(Wrap(more), data + payload)
  {
    WrapAdd(isn + 1 + |data|, |payload|);
  }

  lemma NoFinSnoc(sent: seq<Sent>, e: Sent)
    ensures NoFin(sent + [e]) <==> NoFin(sent) && !e.Fin?
  {
    var all := sent + [e];
    assert all[|sent|] == e && forall k :: 0 <= k < |sent| ==> all[k] == sent[k];
  }

  lemma InStepNext(isn: nat, sent: seq<Sent>, e: Sent, h: Host)
    requires InStep(isn, sent, h) && PlacedAfter(isn, sent, e) && Reaches(isn, sent, e)
    ensures InStep(isn, sent + [e], Receive(h, e))
  {
    PayloadsSnoc(sent, e);
    OpenedSnoc(sent, e);
    EndedSnoc(isn, sent, e);
    NoFinSnoc(sent, e);
    if e.Data? {
      HoldingData(isn, h, Payloads(sent), e.payload, isn + 1 + |Payloads(sent) + e.payload|);
    } else {
      assert Payloads(sent + [e]) == Payloads(sent);
      if Ended(isn, sent) {
        EndedOpened(isn, sent);
      }
      HoldingControl(isn, h, Payloads(sent), Opened(sent), Ended(isn, sent), !NoFin(sent), e);
    }
  }

  lemma HoldingControl(isn: nat, h: Host, data: bytes, begun: bool, ended: bool, final: bool, e: Sent)
    requires Holding(isn, h, data, begun, ended, final) && !e.Data? && (ended ==> begun)
    requires !begun ==> data == []
    requires e.SynAckAt? ==> e.seqNum == isn
    ensures Holding(isn, Receive(h, e), data, begun || (e.SynAckAt? && e.ok),
                    ended || (e.Close? && e.ok && begun && e.from.seqNum == Wrap(isn + 1 + |data|)), final || e.Fin?)
  {
  }

  /** As long as nothing is lost the host's bytes are exactly the bytes sent, across wrap-around. */
  lemma {:induction false} ArrivedInOrder(isn: nat, sent: seq<Sent>)
    requires AllPlaced(isn, sent) && Intact(isn, sent)
    ensures InStep(isn, sent, ReceiveAll(sent))
  {
    if sent != [] {
      var front, e := sent[..|sent| - 1], sent[|sent| - 1];
      assert sent == front + [e];
      PlacedSnoc(isn, front, e);
      IntactSnoc(isn, front, e);
      ArrivedInOrder(isn, front);
      InStepNext(isn, front, e, ReceiveAll(front));
    }
  }

  /** A data segment that does not reach an intact host is lost. */
  lemma NotTaken(isn: nat, sent: seq<Sent>, e: Sent, h: Host)
    requires InStep(isn, sent, h) && !Reaches(isn, sent, e)
    ensures Receive(h, e) == h
  {
  }

  /** Lost bytes never come back. */
  lemma {:induction false} ReceivedAtMost(isn: nat, sent: seq<Sent>)
    requires AllPlaced(isn, sent)
    ensures |Taken(ReceiveAll(sent))| <= |Payloads(sent)|
    ensures !Intact(isn, sent) ==> |Taken(ReceiveAll(sent))| < |Payloads(sent)|
  {
    if sent != [] {
      var front, e := sent[..|sent| - 1], sent[|sent| - 1];
      assert sent == front + [e];
      PlacedSnoc(isn, front, e);
      IntactSnoc(isn, front, e);
      ReceivedAtMost(isn, front);
      if Intact(isn, front) && !Reaches(isn, front, e) {
        ArrivedInOrder(isn, front);
        NotTaken(isn, front, e, ReceiveAll(front));
      }
    }
  }

  /** The host has exactly the bytes sent if and only if no data segment was cut off from it. */
  lemma ReassembledIff(isn: nat, sent: seq<Sent>)
    requires AllPlaced(isn, sent)
    ensures Taken(ReceiveAll(sent)) == Payloads(sent) <==> Intact(isn, sent)
  {
    if Intact(isn, sent) {
      ArrivedInOrder(isn, sent);
    } else {
      ReceivedAtMost(isn, sent);
    }
  }

  /**
    * The relay's sequence invariant, in every reachable state: the data segments tile the sequence space
    * from ISN+1 on modulo 2^32; the relay's FIN stands right after everything read and no data follows it;
    * no ACK or FIN of another coroutine is ahead of the data sent; and the host has exactly the bytes sent
    * if and only if, for every data segment, its write and the SYN-ACK's succeeded and no FIN of another
    * coroutine arrived before it at the number where it stands.
    */
  lemma RelaySafety(isn: nat, steps: seq<Step>)
    requires isn < MODULUS && IsRun(isn, Flow.Start(isn), steps)
    ensures var s := Final(isn, Flow.Start(isn), steps);
            && AllPlaced(isn, s.sent)
            && Payloads(s.sent) <= s.read
            && (s.relay.Done? || s.relay.Idle? ==> Payloads(s.sent) == s.read)
            && (s.relay.Done? ==> FinAfter(isn, s.sent, |s.read|))
            && (Taken(ReceiveAll(s.sent)) == Payloads(s.sent) <==> Intact(isn, s.sent))
  {
    RunKeepsInv(isn, Flow.Start(isn), steps);
    ReassembledIff(isn, Final(isn, Flow.Start(isn), steps).sent);
  }

  // ---- Runs that lose data although every data segment is written ----

  /** A FIN of another coroutine goes out between the relay's reading of the socket and its packet. */
  lemma FinCutsData(isn: nat, payload: bytes)
    requires isn < MODULUS && 1 <= |payload| <= MAX_PAYLOAD
    ensures var steps := [SynAck(true)] + ([Peek(true)] + ([WriteControl(0, true)] + Turn(payload, true, [])));
            && IsRun(isn, Flow.Start(isn), steps)
            && var sent := Final(isn, Flow.Start(isn), steps).sent;
               && (forall k :: 0 <= k < |sent| ==> sent[k].ok)
               && Payloads(sent) == payload && Taken(ReceiveAll(sent)) == []
  {
    Opening(isn, true, true);
    var s0 := Flow.Start(isn);
    var s1 := Apply(isn, s0, SynAck(true));
    var s2 := Apply(isn, s1, Peek(true));
    var s3 := Apply(isn, s2, WriteControl(0, true));
    var t := RelayTurn(isn, s3, payload, true, []);
    StepThen(isn, s2, WriteControl(0, true), Turn(payload, true, []));
    StepThen(isn, s1, Peek(true), [WriteControl(0, true)] + Turn(payload, true, []));
    StepThen(isn, s0, SynAck(true), [Peek(true)] + ([WriteControl(0, true)] + Turn(payload, true, [])));
    FinFirst(isn, Snapshot(Wrap(isn + 1), true, 1, 0), payload, t.sent);
  }

  lemma FinFirst(isn: nat, from: Snapshot, payload: bytes, sent: seq<Sent>)
    requires isn < MODULUS && from.seqNum == Wrap(isn + 1)
    requires sent == ([SynAckAt(isn, true)] + [Close(from, true)]) + [Data(Wrap(isn + 1), payload, true)]
    ensures Payloads(sent) == payload && ReceiveAll(sent) == Closed([]) && forall k :: 0 <= k < |sent| ==> sent[k].ok
  {
    ThreeSent(SynAckAt(isn, true), Close(from, true), Data(Wrap(isn + 1), payload, true));
    assert [] + payload == payload;
  }

  /** A SYN-ACK is lost and the relay goes on. */
  lemma SynAckLost(isn: nat, payload: bytes)
    requires isn < MODULUS && 1 <= |payload| <= MAX_PAYLOAD
    ensures var steps := [SynAck(false)] + Turn(payload, true, []);
            && IsRun(isn, Flow.Start(isn), steps)
            && var sent := Final(isn, Flow.Start(isn), steps).sent;
               && (forall k :: 0 <= k < |sent| && sent[k].Data? ==> sent[k].ok)
               && Payloads(sent) == payload && Taken(ReceiveAll(sent)) == []
  {
    Opening(isn, false, true);
    var s0 := Flow.Start(isn);
    var s1 := Apply(isn, s0, SynAck(false));
    var t := RelayTurn(isn, s1, payload, true, []);
    StepThen(isn, s0, SynAck(false), Turn(payload, true, []));
    var syn, data := SynAckAt(isn, false), Data(s1.serverSeq, payload, true);
    assert t.sent == [syn] + [data];
    TwoSent(syn, data);
    assert [] + payload == payload;
  }

  lemma TwoSent(a: Sent, b: Sent)
    ensures ReceiveAll([a] + [b]) == Receive(Receive(SynSent, a), b)
    ensures Payloads([a] + [b]) == Payload(a) + Payload(b)
  {
    var all := [a] + [b];
    assert all[..1] == [a] && [a][..0] == [];
    assert ReceiveAll([a]) == Receive(SynSent, a);
    PayloadsSnoc([], a);
    PayloadsSnoc([a], b);
    assert [] + [a] == [a] && [] + Payload(a) == Payload(a);
  }

  lemma ThreeSent(a: Sent, b: Sent, c: Sent)
    ensures ReceiveAll(([a] + [b]) + [c]) == Receive(Receive(Receive(SynSent, a), b), c)
    ensures Payloads(([a] + [b]) + [c]) == (Payload(a) + Payload(b)) + Payload(c)
  {
    TwoSent(a, b);
    var all := ([a] + [b]) + [c];
    assert all[..2] == [a] + [b];
    PayloadsSnoc([a] + [b], c);
  }
}
