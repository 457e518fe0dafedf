/** TunWorker: the flow table, the packet dispatch and the bodies of its coroutines. */
module TunWorker {
  import opened Bytes
  import opened Net
  import opened Packet
  import opened Reassembly
  import Flow
  import AndroidSocks
  import Hysteria2
  import Text

  const FIN: nat := 1
  const SYN: nat := 2
  const RST: nat := 4
  const PSH: nat := 8
  const ACK: nat := 16

  datatype FlowKey = FlowKey(srcIp: int, srcPort: nat, dstIp: int, dstPort: nat)

  class FlowState {
    const sock: PrependConn  // to the SOCKS server
    var clientSeq: nat
    var serverSeq: nat
    var closed: bool         // job cancelled and socket closed

    constructor (sock: PrependConn, clientSeq: nat, serverSeq: nat)
      ensures this.sock == sock && this.clientSeq == clientSeq && this.serverSeq == serverSeq && !closed
    {
      this.sock, this.clientSeq, this.serverSeq, closed := sock, clientSeq, serverSeq, false;
    }
  }

  // ---- Dispatch ----

  /** flags and bit != 0, for a single bit. */
  predicate Has(flags: byte, bit: nat)
    requires 0 < bit
  {
    flags as nat / bit % 2 == 1
  }

  datatype Kind = NewFlow | Reset | Close | Forward | Ignore

  /** The first branch of the dispatch that applies. */
  function Classify(flags: byte, payloadLen: int): Kind {
    if Has(flags, SYN) && !Has(flags, ACK) then NewFlow
    else if Has(flags, RST) then Reset
    else if Has(flags, FIN) then Close
    else if Has(flags, ACK) && payloadLen > 0 then Forward
    else Ignore
  }

  /** What handling a packet leaves for a coroutine to do. */
  datatype Task =
    | Nothing
    | Connect(key: FlowKey, clientSeq: nat)
    | ForwardData(flow: FlowState, key: FlowKey, seqNum: nat, payload: bytes)

  function KeyOf(s: Segment): FlowKey {
    FlowKey(s.srcIp, s.srcPort, s.dstIp, s.dstPort)
  }

  /** A packet towards the host: source and destination swapped. */
  function Towards(key: FlowKey, seqNum: nat, ack: nat, flags: nat): Fields {
    Fields(key.dstIp, key.dstPort, key.srcIp, key.srcPort, seqNum, ack, flags)
  }

  /**
    * What the dispatch of segment s makes of the flow table, of the packets emitted and of the coroutine to
    * start; serverSeq is that of the segment's flow, if there is one.
    */
  ghost predicate Dispatched(s: Segment, pkt: bytes, serverSeq: nat, flows: map<FlowKey, FlowState>,
                             flows': map<FlowKey, FlowState>, emitted: seq<Emitted>, emitted': seq<Emitted>,
                             task: Task, ok: bool)
  {
    var key := KeyOf(s);
    var known := key in flows;
    match Classify(s.flags, s.payloadLen)
    case NewFlow =>
      task == (if known then Nothing else Connect(key, s.seqNum)) && emitted' == emitted && flows' == flows
    case Reset => task == Nothing && emitted' == emitted && flows' == flows - {key}
    case Close =>
      && task == Nothing && flows' == flows - {key}
      && emitted' == emitted + if known && ok then [
           Emitted(Towards(key, serverSeq, Flow.Wrap(s.seqNum + 1), FIN + ACK), [])
         ] else []
    case Forward =>
      && s.payloadStart <= |pkt| && emitted' == emitted && flows' == flows
      && task == (if known then ForwardData(flows[key], key, s.seqNum, pkt[s.payloadStart..]) else Nothing)
    case Ignore => task == Nothing && emitted' == emitted && flows' == flows
  }

  // ---- The relay's packets ----

  datatype Emitted = Emitted(fields: Fields, payload: bytes)

  /** packets are the wire form of es. */
  ghost predicate OnWire(packets: seq<bytes>, es: seq<Emitted>) {
    |packets| == |es| && forall i :: 0 <= i < |es| ==> IsPacket(packets[i], es[i].fields, es[i].payload)
  }

  function DataAt(key: FlowKey, at: nat, ack: nat, chunk: bytes): Emitted {
    Emitted(Towards(key, Flow.Wrap(at), ack, PSH + ACK), chunk)
  }

  /** Data chunks sent from seqNum on; a failed TUN write leaves no packet. */
  function DataPackets(key: FlowKey, seqNum: nat, ack: nat, chunks: seq<bytes>, oks: seq<bool>): seq<Emitted>
    requires |chunks| == |oks|
    decreases |chunks|
  {
    if chunks == [] then []
    else
      var n := |chunks| - 1;
      DataPackets(key, seqNum, ack, chunks[..n], oks[..n])
      + if oks[n] then [DataAt(key, seqNum + |Concat(chunks[..n])|, ack, chunks[n])] else []
  }

  function Concat(chunks: seq<bytes>): bytes {
    if chunks == [] then [] else Concat(chunks[..|chunks| - 1]) + chunks[|chunks| - 1]
  }

  predicate ChunksOk(chunks: seq<bytes>) {
    forall k :: 0 <= k < |chunks| ==> 1 <= |chunks[k]| <= Flow.MAX_PAYLOAD
  }

  class Worker {
    var flows: map<FlowKey, FlowState>
    var tunOut: seq<bytes>           // packets written to the TUN device
    ghost var emitted: seq<Emitted>  // the fields and payloads they were built from

    constructor ()
      ensures Valid() && flows == map[] && emitted == []
    {
      flows, tunOut, emitted := map[], [], [];
    }

    /** No two keys share a flow. */
    ghost predicate Valid()
      reads this
    {
      OnWire(tunOut, emitted) && forall j, k :: j in flows && k in flows && j != k ==> flows[j] != flows[k]
    }

    /** sendTcpPacket; an exception from the TUN write is logged and forgotten. */
    method SendTcpPacket(f: Fields, payload: bytes) returns (ghost ok: bool)
      requires Valid() && 40 + |payload| <= 65535
      modifies this`tunOut, this`emitted
      ensures Valid() && emitted == old(emitted) + if ok then [Emitted(f, payload)] else []
    {
      var packet := Build(f, payload);
      assert IsPacket(packet, f, payload);
      var written: bool := *;
      if written {
        tunOut, emitted := tunOut + [packet], emitted + [Emitted(f, payload)];
      }
      ok := written;
    }

    method CloseFlow(key: FlowKey)
      modifies this`flows, if key in flows then {flows[key]} else {}
      ensures flows == old(flows) - {key}
      ensures key in old(flows) ==> var flow := old(flows)[key];
                flow.closed && flow.clientSeq == old(flow.clientSeq) && flow.serverSeq == old(flow.serverSeq)
    {
      if key !in flows {
        return;
      }
      var flow := flows[key];
      flows := flows - {key};
      flow.closed := true;
    }

    /** handlePacket and handleTcpPacket on the len bytes read; the parser's accesses are all inside them. */
    method HandlePacket(pkt: bytes) returns (task: Task, ghost ok: bool)
      requires Valid()
      modifies this, set k | k in flows :: flows[k]
      ensures Valid()
      // a flow that leaves the table is closed; nothing else about any flow changes
      ensures forall k :: k in old(flows) ==>
                var flow := old(flows)[k];
                && flow.closed == (old(flow.closed) || k !in flows)
                && flow.clientSeq == old(flow.clientSeq) && flow.serverSeq == old(flow.serverSeq)
      ensures match ParseTcp(pkt)
              case None => task == Nothing && emitted == old(emitted) && flows == old(flows)
              case Some(s) =>
                var key := KeyOf(s);
                Dispatched(s, pkt, if key in old(flows) then old(flows[key].serverSeq) else 0,
                           old(flows), flows, old(emitted), emitted, task, ok)
    {
      if |pkt| < 20 {
        return Nothing, false;
      }
      var versionIhl := pkt[0];
      if versionIhl / 16 != 4 {
        return Nothing, false;
      }
      var ihl := HeaderLength(versionIhl);
      if |pkt| < ihl {
        return Nothing, false;
      }
      if pkt[9] != 6 {
        return Nothing, false;
      }
      if |pkt| < ihl + 20 {
        return Nothing, false;
      }
      task, ok := HandleTcpPacket(SegmentAt(pkt, ihl), pkt);
    }

    /** From the dispatch on. */
    method HandleTcpPacket(s: Segment, pkt: bytes) returns (task: Task, ghost ok: bool)
      requires Valid() && (s.payloadLen > 0 ==> s.payloadStart <= |pkt|)
      modifies this, set k | k in flows :: flows[k]
      ensures Valid()
      ensures forall k :: k in old(flows) ==>
                var flow := old(flows)[k];
                && flow.closed == (old(flow.closed) || k !in flows)
                && flow.clientSeq == old(flow.clientSeq) && flow.serverSeq == old(flow.serverSeq)
      ensures var key := KeyOf(s);
              Dispatched(s, pkt, if key in old(flows) then old(flows[key].serverSeq) else 0,
                         old(flows), flows, old(emitted), emitted, task, ok)
    {
      ok := false;
      var key, flags := KeyOf(s), s.flags;
      if Has(flags, SYN) && !Has(flags, ACK) {
        return if key in flows then Nothing else Connect(key, s.seqNum), false;
      } else if Has(flags, RST) {
        CloseFlow(key);
        return Nothing, false;
      } else if Has(flags, FIN) {
        if key !in flows {
          return Nothing, false;
        }
        ok := SendTcpPacket(Towards(key, flows[key].serverSeq, Flow.Wrap(s.seqNum + 1), FIN + ACK), []);
        CloseFlow(key);
        return Nothing, ok;
      } else if Has(flags, ACK) && s.payloadLen > 0 {
        if key !in flows {
          return Nothing, false;
        }
        return ForwardData(flows[key], key, s.seqNum, pkt[s.payloadStart..]), false;
      }
      return Nothing, false;
    }

    /** The coroutine of a data segment, run without interference; by now key may belong to another flow. */
    method ForwardToSocks(flow: FlowState, key: FlowKey, seqNum: nat, payload: bytes)
      returns (ghost ok: bool, failed: bool)
      requires Valid()
      modifies this, flow, flow.sock.conn`outgoing, flow.sock.conn`capacity, if key in flows then {flows[key]} else {}
      ensures Valid()
      ensures failed == (old(flow.closed) || old(flow.sock.conn.capacity) < |payload|)
      ensures failed ==> flows == old(flows) - {key} && emitted == old(emitted)
      ensures failed && key in old(flows) ==> old(flows)[key].closed
      ensures !failed ==>
                && flow.sock.conn.outgoing == old(flow.sock.conn.outgoing) + payload
                && flow.clientSeq == Flow.Wrap(seqNum + |payload|) && flow.serverSeq == old(flow.serverSeq)
                && flows == old(flows)
                && emitted == old(emitted)
                     + if ok then [Emitted(Towards(key, flow.serverSeq, flow.clientSeq, ACK), [])] else []
    {
      ok := false;
      assert payload[..|payload|] == payload;
      failed := flow.closed;
      if !failed {
        failed := flow.sock.conn.Write(payload);
      }
      if failed {
        CloseFlow(key);
        return;
      }
      flow.clientSeq := Flow.Wrap(seqNum + |payload|);
      ok := SendTcpPacket(Towards(key, flow.serverSeq, flow.clientSeq, ACK), []);
    }

    /** handleSyn's coroutine once sock.connect has returned or thrown; clock is the time in milliseconds. */
    method ConnectFlow(key: FlowKey, clientSeq: nat, sock: PrependConn, connected: bool, clock: nat)
      returns (flow: FlowState?, ghost ok: bool)
      requires Valid()
      modifies this, sock`buf, sock.conn`incoming, sock.conn`outgoing, sock.conn`capacity
      ensures Valid()
      ensures var r := AndroidSocks.RunClient(Text.Dotted(Octets(key.dstIp)), key.dstPort, old(sock.Unread()));
              var writable := |r.sent| <= old(sock.conn.capacity);
              && (flow != null <==> connected && writable && (r.result.Connected? || r.result.LongReply?))
              && (flow != null ==>
                    && fresh(flow) && flows == old(flows)[key := flow] && flow.sock == sock
                    && flow.clientSeq == Flow.Wrap(clientSeq + 1) && flow.serverSeq == Flow.Wrap(clock + 1)
                    && (r.result.Connected? ==> sock.Unread() == r.unread)
                    && AndroidSocks.IsSuffix(sock.Unread(), r.unread)
                    && sock.conn.outgoing == old(sock.conn.outgoing) + r.sent
                    && emitted == old(emitted)
                         + if ok then [Emitted(Towards(key, Flow.Wrap(clock), flow.clientSeq, SYN + ACK), [])] else [])
              && (!connected ==> sock.Unread() == old(sock.Unread()) && sock.conn.outgoing == old(sock.conn.outgoing))
              && (flow == null ==>
                    && flows == old(flows)
                    && emitted == old(emitted)
                         + if ok then [Emitted(Towards(key, 0, Flow.Wrap(clientSeq + 1), RST + ACK), [])] else [])
    {
      if !connected {
        ok := SendTcpPacket(Towards(key, 0, Flow.Wrap(clientSeq + 1), RST + ACK), []);
        return null, ok;
      }
      var host := Text.Dotted(Octets(key.dstIp));
      var result := AndroidSocks.Connect(sock, host, key.dstPort);
      if !result.Connected? && !result.LongReply? {
        ok := SendTcpPacket(Towards(key, 0, Flow.Wrap(clientSeq + 1), RST + ACK), []);
        return null, ok;
      }
      flow, ok := InstallFlow(key, clientSeq, sock, clock);
    }

    /** The flow enters the table, then the SYN-ACK goes out. */
    method InstallFlow(key: FlowKey, clientSeq: nat, sock: PrependConn, clock: nat)
      returns (flow: FlowState, ghost ok: bool)
      requires Valid()
      modifies this
      ensures Valid()
      ensures fresh(flow) && flows == old(flows)[key := flow] && flow.sock == sock
      ensures flow.clientSeq == Flow.Wrap(clientSeq + 1) && flow.serverSeq == Flow.Wrap(clock + 1)
      ensures emitted == old(emitted)
                         + if ok then [Emitted(Towards(key, Flow.Wrap(clock), flow.clientSeq, SYN + ACK), [])] else []
    {
      Flow.WrapAdd(clock, 1);
      flow := new FlowState(sock, Flow.Wrap(clientSeq + 1), Flow.Wrap(Flow.Wrap(clock) + 1));
      flows := flows[key := flow];
      ok := SendTcpPacket(Towards(key, Flow.Wrap(clock), flow.clientSeq, SYN + ACK), []);
    }

    /** sockIn.read and copyOf; the end of the stream is an empty chunk. */
    method ReadChunk(flow: FlowState, buf: array<byte>) returns (payload: bytes)
      requires buf.Length == Flow.MAX_PAYLOAD
      modifies flow.sock`buf, flow.sock.conn`incoming, buf
      ensures |payload| <= Flow.MAX_PAYLOAD && old(flow.sock.Unread()) == payload + flow.sock.Unread()
      ensures payload == [] ==> old(flow.sock.Unread()) == []
    {
      ghost var unread := flow.sock.Unread();
      var n, end := flow.sock.Read(buf, 0);
      payload := buf[..n];
      assert payload == unread[..n] && unread == payload + flow.sock.Unread();
    }

    /** One turn of the relay loop after a read: send, then advance serverSeq. */
    method RelayChunk(key: FlowKey, flow: FlowState, payload: bytes) returns (ghost ok: bool)
      requires 1 <= |payload| <= Flow.MAX_PAYLOAD
      requires Valid()
      modifies this`tunOut, this`emitted, flow`serverSeq
      ensures Valid()
      ensures flow.serverSeq == Flow.Wrap(old(flow.serverSeq) + |payload|)
      ensures emitted == old(emitted)
                      + if !ok then []
                        else [Emitted(Towards(key, old(flow.serverSeq), flow.clientSeq, PSH + ACK), payload)]
    {
      var f := Towards(key, flow.serverSeq, flow.clientSeq, PSH + ACK);
      ok := SendTcpPacket(f, payload);
      flow.serverSeq := Flow.Wrap(flow.serverSeq + |payload|);
    }

    /** One whole turn of the loop; an empty payload is the end of the stream. */
    method RelayTurn(key: FlowKey, flow: FlowState, buf: array<byte>) returns (payload: bytes, ghost ok: bool)
      requires Valid() && buf.Length == Flow.MAX_PAYLOAD
      modifies this`tunOut, this`emitted, flow`serverSeq, flow.sock`buf, flow.sock.conn`incoming, buf
      ensures Valid() && |payload| <= Flow.MAX_PAYLOAD && old(flow.sock.Unread()) == payload + flow.sock.Unread()
      ensures payload == [] ==> flow.serverSeq == old(flow.serverSeq) && emitted == old(emitted)
      ensures payload != [] ==>
                && flow.serverSeq == Flow.Wrap(old(flow.serverSeq) + |payload|)
                && emitted == old(emitted)
                     + if !ok then []
                       else [Emitted(Towards(key, old(flow.serverSeq), flow.clientSeq, PSH + ACK), payload)]
    {
      ok := false;
      payload := ReadChunk(flow, buf);
      if payload != [] {
        ok := RelayChunk(key, flow, payload);
      }
    }

    /** socksToTunRelay, run without interference: it may be stopped before any read. */
    method Relay(key: FlowKey, flow: FlowState)
      returns (ghost chunks: seq<bytes>, ghost oks: seq<bool>, ghost finOk: bool)
      requires flow.serverSeq < Flow.MODULUS
      requires Valid()
      modifies this, flow, flow.sock`buf, flow.sock.conn`incoming, if key in flows then {flows[key]} else {}
      ensures Valid()
      ensures |chunks| == |oks| && ChunksOk(chunks)
      ensures old(flow.closed) ==> chunks == []
      ensures old(flow.sock.Unread()) == Concat(chunks) + flow.sock.Unread()
      ensures flow.serverSeq == Flow.Wrap(old(flow.serverSeq) + |Concat(chunks)|)
      ensures flow.clientSeq == old(flow.clientSeq)
      ensures flows == old(flows) - {key}
      ensures key in old(flows) ==> old(flows)[key].closed
      ensures emitted == old(emitted) + DataPackets(key, old(flow.serverSeq), flow.clientSeq, chunks, oks)
                      + if finOk then [Emitted(Towards(key, flow.serverSeq, flow.clientSeq, FIN + ACK), [])] else []
    {
      chunks, oks := RelayLoop(key, flow);
      finOk := SendTcpPacket(Towards(key, flow.serverSeq, flow.clientSeq, FIN + ACK), []);
      CloseFlow(key);
    }

    method RelayLoop(key: FlowKey, flow: FlowState) returns (ghost chunks: seq<bytes>, ghost oks: seq<bool>)
      requires flow.serverSeq < Flow.MODULUS
      requires Valid()
      modifies this`tunOut, this`emitted, flow`serverSeq, flow.sock`buf, flow.sock.conn`incoming
      ensures Valid()
      ensures |chunks| == |oks| && ChunksOk(chunks)
      ensures old(flow.closed) ==> chunks == []
      ensures old(flow.sock.Unread()) == Concat(chunks) + flow.sock.Unread()
      ensures flow.serverSeq == Flow.Wrap(old(flow.serverSeq) + |Concat(chunks)|)
      ensures emitted == old(emitted) + DataPackets(key, old(flow.serverSeq), flow.clientSeq, chunks, oks)
    {
      chunks, oks := [], [];
      ghost var stream, start, written := flow.sock.Unread(), flow.serverSeq, emitted;
      var buf := new byte[Flow.MAX_PAYLOAD];
      var running: bool := *;
      running := running && !flow.closed;
      while running
        invariant Valid() && (flow.closed ==> chunks == [] && !running)
        invariant Relayed(key, start, flow.clientSeq, chunks, oks, stream, flow.sock.Unread(),
                          flow.serverSeq, written, emitted)
        decreases |flow.sock.Unread()|
      {
        ghost var unread, seqNum, before := flow.sock.Unread(), flow.serverSeq, emitted;
        var payload;
        ghost var ok;
        payload, ok := RelayTurn(key, flow, buf);
        if payload == [] {
          break;
        }
        RelayedNext(key, start, flow.clientSeq, chunks, oks, stream, unread, seqNum, written, before, payload, ok,
                    flow.sock.Unread());
        chunks, oks := chunks + [payload], oks + [ok];
        running := *;
      }
    }
  }

  /** What the relay has done with stream so far. */
  ghost predicate Relayed(key: FlowKey, start: nat, ack: nat, chunks: seq<bytes>, oks: seq<bool>, stream: bytes,
                          unread: bytes, serverSeq: nat, written: seq<Emitted>, emitted: seq<Emitted>)
  {
    && |chunks| == |oks| && ChunksOk(chunks)
    && stream == Concat(chunks) + unread
    && serverSeq == Flow.Wrap(start + |Concat(chunks)|)
    && emitted == written + DataPackets(key, start, ack, chunks, oks)
  }

  lemma RelayedNext(key: FlowKey, start: nat, ack: nat, chunks: seq<bytes>, oks: seq<bool>, stream: bytes,
                    unread: bytes, serverSeq: nat, written: seq<Emitted>, emitted: seq<Emitted>,
                    chunk: bytes, ok: bool, later: bytes)
    requires Relayed(key, start, ack, chunks, oks, stream, unread, serverSeq, written, emitted)
    requires 1 <= |chunk| <= Flow.MAX_PAYLOAD && unread == chunk + later
    ensures Relayed(key, start, ack, chunks + [chunk], oks + [ok], stream, later, Flow.Wrap(serverSeq + |chunk|),
                    written, emitted + if ok then [Emitted(Towards(key, serverSeq, ack, PSH + ACK), chunk)] else [])
  {
    DataPacketsSnoc(written, key, start, ack, chunks, oks, chunk, ok);
    Flow.WrapAdd(start + |Concat(chunks)|, |chunk|);
    ConcatAssoc(Concat(chunks), chunk, later);
  }

  lemma DataPacketsSnoc(written: seq<Emitted>, key: FlowKey, seqNum: nat, ack: nat,
                        chunks: seq<bytes>, oks: seq<bool>, chunk: bytes, ok: bool)
    requires |chunks| == |oks|
    ensures Concat(chunks + [chunk]) == Concat(chunks) + chunk
    ensures written + DataPackets(key, seqNum, ack, chunks + [chunk], oks + [ok])
         == (written + DataPackets(key, seqNum, ack, chunks, oks))
            + if ok then [Emitted(Towards(key, Flow.Wrap(seqNum + |Concat(chunks)|), ack, PSH + ACK), chunk)] else []
  {
    assert (chunks + [chunk])[..|chunks|] == chunks && (oks + [ok])[..|oks|] == oks;
  }

  // ---- What the host makes of the relay's packets ----

  /** Source and destination are those of the worker's side and of the host's. */
  predicate ForHost(key: FlowKey, s: Segment) {
    s.dstIp == key.srcIp && s.dstPort == key.srcPort && s.srcIp == key.dstIp && s.srcPort == key.dstPort
  }

  /**
    * A segment with flags (section 3.1 of RFC 9293: bit 0 is FIN, bit 1 SYN, bit 2 RST, bit 4 ACK), a number and a
    * payload.  Without ACK it is dropped; a reset ends the connection.
    */
  function TakeSegment(h: Host, flags: byte, seqNum: nat, payload: bytes): Host {
    if flags / 16 % 2 == 0 then h
    else if flags / 4 % 2 == 1 then Closed(Taken(h))
    else if flags / 2 % 2 == 1 then Synchronize(h, seqNum)
    else
      var h' := Take(h, seqNum, payload);
      if flags % 2 == 1 then End(h', Flow.Wrap(seqNum + |payload|)) else h'
  }

  /** The host of key's connection parses a packet and, if it is for that connection, takes what it carries. */
  function HostTakes(key: FlowKey, h: Host, p: bytes): Host {
    match ParseTcp(p)
    case None => h
    case Some(s) =>
      if ForHost(key, s) then TakeSegment(h, s.flags, s.seqNum, if s.payloadLen > 0 then p[s.payloadStart..] else [])
      else h
  }

  function HostReads(key: FlowKey, h: Host, packets: seq<bytes>): Host {
    if packets == [] then h
    else HostTakes(key, HostReads(key, h, packets[..|packets| - 1]), packets[|packets| - 1])
  }

  /** The same in terms of what was emitted. */
  function Takes(key: FlowKey, h: Host, e: Emitted): Host {
    if ForHost(key, Reduced(e.fields, |e.payload|))
    then TakeSegment(h, Byte(e.fields.flags), Wrap32(e.fields.seqNum), e.payload)
    else h
  }

  function TakesAll(key: FlowKey, h: Host, es: seq<Emitted>): Host {
    if es == [] then h else Takes(key, TakesAll(key, h, es[..|es| - 1]), es[|es| - 1])
  }

  lemma HostTakesEmitted(key: FlowKey, h: Host, p: bytes, e: Emitted)
    requires IsPacket(p, e.fields, e.payload)
    ensures HostTakes(key, h, p) == Takes(key, h, e)
  {
    var s := ParsedPacket(p, e.fields, e.payload);
    TakesParsed(key, h, p, e, s);
  }

  lemma TakesParsed(key: FlowKey, h: Host, p: bytes, e: Emitted, s: Segment)
    requires ParseTcp(p) == Some(s) && s.payloadStart <= |p| && p[s.payloadStart..] == e.payload
    requires s == Reduced(e.fields, |e.payload|)
    ensures HostTakes(key, h, p) == Takes(key, h, e)
  {
  }

  /** Parsing and reassembling the packets on the device is reassembling what was emitted. */
  lemma {:induction false} HostReadsEmitted(key: FlowKey, h: Host, packets: seq<bytes>, es: seq<Emitted>)
    requires OnWire(packets, es)
    ensures HostReads(key, h, packets) == TakesAll(key, h, es)
  {
    if es != [] {
      var n := |es| - 1;
      HostReadsEmitted(key, h, packets[..n], es[..n]);
      HostTakesEmitted(key, HostReads(key, h, packets[..n]), packets[n], es[n]);
    }
  }

  /** Addresses and ports as they come out of a parsed packet. */
  predicate KeyOk(key: FlowKey) {
    && Signed32(key.srcIp) == key.srcIp && Signed32(key.dstIp) == key.dstIp
    && key.srcPort < 0x1_0000 && key.dstPort < 0x1_0000
  }

  lemma KeyOfParsed(pkt: bytes)
    requires ParseTcp(pkt).Some?
    ensures KeyOk(KeyOf(ParseTcp(pkt).value))
  {
    SignedTwice(WordAt32(pkt, 12));
    SignedTwice(WordAt32(pkt, 16));
  }

  lemma SignedTwice(n: int)
    ensures Signed32(Signed32(n)) == Signed32(n)
  {
  }

  lemma TowardsHost(key: FlowKey, seqNum: nat, ack: nat, flags: nat, n: int)
    requires KeyOk(key)
    ensures ForHost(key, Reduced(Towards(key, seqNum, ack, flags), n))
  {
  }

  lemma TakesSnoc(key: FlowKey, h: Host, es: seq<Emitted>, e: Emitted)
    ensures TakesAll(key, h, es + [e]) == Takes(key, TakesAll(key, h, es), e)
  {
    assert (es + [e])[..|es|] == es;
  }

  lemma {:induction false} TakesConcat(key: FlowKey, h: Host, a: seq<Emitted>, b: seq<Emitted>)
    ensures TakesAll(key, h, a + b) == TakesAll(key, TakesAll(key, h, a), b)
  {
    if b == [] {
      assert a + b == a;
    } else {
      var front, e := b[..|b| - 1], b[|b| - 1];
      assert a + b == (a + front) + [e];
      TakesSnoc(key, h, a + front, e);
      TakesConcat(key, h, a, front);
    }
  }

  /** What the host has of the data sent: all of it while nothing failed, less otherwise. */
  predicate Receives(h: Host, at: nat, data: bytes, intact: bool) {
    && !h.Closed?
    && (intact ==> h == Open(Flow.Wrap(at), data))
    && (!intact ==> |Taken(h)| < |data|)
  }

  lemma TakesOne(h: Host, key: FlowKey, at: nat, ack: nat, data: bytes, intact: bool, chunk: bytes, ok: bool, end: nat)
    requires KeyOk(key)
    requires Receives(h, at, data, intact) && chunk != [] && end == at + |chunk|
    ensures Receives(if ok then Takes(key, h, DataAt(key, at, ack, chunk)) else h, end, data + chunk, intact && ok)
  {
    TowardsHost(key, Flow.Wrap(at), ack, PSH + ACK, |chunk|);
    PlainFlags(h, Wrap32(Flow.Wrap(at)), chunk);
    WrapTwice(at);
    Flow.WrapAdd(at, |chunk|);
    assert Takes(key, h, DataAt(key, at, ack, chunk)) == Take(h, Flow.Wrap(at), chunk);
  }

  lemma TakesNext(h: Host, es: seq<Emitted>, key: FlowKey, at: nat, ack: nat, data: bytes, intact: bool,
                  chunk: bytes, ok: bool, all: seq<Emitted>, whole: bytes, end: nat)
    requires KeyOk(key)
    requires Receives(TakesAll(key, h, es), at, data, intact) && chunk != []
    requires all == (es + if ok then [DataAt(key, at, ack, chunk)] else []) && whole == data + chunk
    requires end == at + |chunk|
    ensures Receives(TakesAll(key, h, all), end, whole, intact && ok)
  {
    TakesOne(TakesAll(key, h, es), key, at, ack, data, intact, chunk, ok, end);
    TakesSnoc(key, h, es, DataAt(key, at, ack, chunk));
    assert es + [] == es;
  }

  predicate AllOk(oks: seq<bool>) {
    forall k :: 0 <= k < |oks| ==> oks[k]
  }

  lemma DataPacketsLast(key: FlowKey, seqNum: nat, ack: nat, chunks: seq<bytes>, oks: seq<bool>)
    requires 0 < |chunks| == |oks|
    ensures var n := |chunks| - 1;
            && Concat(chunks) == Concat(chunks[..n]) + chunks[n]
            && (AllOk(oks) <==> AllOk(oks[..n]) && oks[n])
            && DataPackets(key, seqNum, ack, chunks, oks) ==
                 DataPackets(key, seqNum, ack, chunks[..n], oks[..n])
                 + if oks[n] then [DataAt(key, seqNum + |Concat(chunks[..n])|, ack, chunks[n])] else []
  {
    assert forall k :: 0 <= k < |oks| - 1 ==> oks[..|oks| - 1][k] == oks[k];
  }

  ghost predicate TakesDataOf(h: Host, key: FlowKey, seqNum: nat, ack: nat, chunks: seq<bytes>, oks: seq<bool>)
    requires |chunks| == |oks|
  {
    Receives(TakesAll(key, h, DataPackets(key, seqNum, ack, chunks, oks)),
             seqNum + |Concat(chunks)|, Concat(chunks), AllOk(oks))
  }

  /** The packets for chunks, the bytes in them, and whether all were written. */
  predicate DataOf(es: seq<Emitted>, data: bytes, intact: bool, key: FlowKey, seqNum: nat, ack: nat,
                   chunks: seq<bytes>, oks: seq<bool>)
  {
    && |chunks| == |oks| && es == DataPackets(key, seqNum, ack, chunks, oks)
    && data == Concat(chunks) && intact == AllOk(oks)
  }

  lemma DataOfNext(es: seq<Emitted>, data: bytes, intact: bool, key: FlowKey, seqNum: nat, ack: nat,
                   chunks: seq<bytes>, oks: seq<bool>, n: nat, at: nat)
    requires n + 1 == |chunks| == |oks| && DataOf(es, data, intact, key, seqNum, ack, chunks[..n], oks[..n])
    requires at == seqNum + |data|
    ensures DataOf(es + if oks[n] then [DataAt(key, at, ack, chunks[n])] else [], data + chunks[n], intact && oks[n],
                   key, seqNum, ack, chunks, oks)
  {
    DataPacketsLast(key, seqNum, ack, chunks, oks);
  }

  lemma {:induction false} TakesEach(h: Host, key: FlowKey, seqNum: nat, ack: nat, chunks: seq<bytes>, oks: seq<bool>)
    returns (es: seq<Emitted>, data: bytes, intact: bool, end: nat)
    requires KeyOk(key) && |chunks| == |oks| && ChunksOk(chunks) && Receives(h, seqNum, [], true)
    ensures DataOf(es, data, intact, key, seqNum, ack, chunks, oks)
    ensures end == seqNum + |data| && Receives(TakesAll(key, h, es), end, data, intact)
    decreases |chunks|
  {
    if chunks == [] {
      es, data, intact, end := [], [], true, seqNum;
    } else {
      var n := |chunks| - 1;
      var es0, data0, intact0, at := TakesEach(h, key, seqNum, ack, chunks[..n], oks[..n]);
      DataOfNext(es0, data0, intact0, key, seqNum, ack, chunks, oks, n, at);
      es := es0 + if oks[n] then [DataAt(key, at, ack, chunks[n])] else [];
      data, intact, end := data0 + chunks[n], intact0 && oks[n], at + |chunks[n]|;
      TakesNext(h, es0, key, at, ack, data0, intact0, chunks[n], oks[n], es, data, end);
    }
  }

  lemma TakesData(h: Host, key: FlowKey, seqNum: nat, ack: nat, chunks: seq<bytes>, oks: seq<bool>)
    requires KeyOk(key) && |chunks| == |oks| && ChunksOk(chunks) && Receives(h, seqNum, [], true)
    ensures TakesDataOf(h, key, seqNum, ack, chunks, oks)
  {
    var es, data, intact, end := TakesEach(h, key, seqNum, ack, chunks, oks);
  }

  /** Without the SYN-ACK the host takes nothing. */
  lemma {:induction false} TakesNothing(key: FlowKey, seqNum: nat, ack: nat, chunks: seq<bytes>, oks: seq<bool>)
    requires |chunks| == |oks|
    ensures TakesAll(key, SynSent, DataPackets(key, seqNum, ack, chunks, oks)) == SynSent
    decreases |chunks|
  {
    if chunks != [] {
      var n := |chunks| - 1;
      var es := DataPackets(key, seqNum, ack, chunks[..n], oks[..n]);
      TakesNothing(key, seqNum, ack, chunks[..n], oks[..n]);
      DataPacketsLast(key, seqNum, ack, chunks, oks);
      NothingNext(key, es, DataAt(key, seqNum + |Concat(chunks[..n])|, ack, chunks[n]), oks[n],
                  DataPackets(key, seqNum, ack, chunks, oks));
    }
  }

  lemma NothingNext(key: FlowKey, es: seq<Emitted>, e: Emitted, ok: bool, all: seq<Emitted>)
    requires TakesAll(key, SynSent, es) == SynSent && e.fields.flags == PSH + ACK
    requires all == es + if ok then [e] else []
    ensures TakesAll(key, SynSent, all) == SynSent
  {
    DataWhileSynSent(key, e);
    TakesOnTop(key, es, e, ok, all);
  }

  lemma TakesOnTop(key: FlowKey, es: seq<Emitted>, e: Emitted, ok: bool, all: seq<Emitted>)
    requires all == es + if ok then [e] else []
    ensures TakesAll(key, SynSent, all)
         == if ok then Takes(key, TakesAll(key, SynSent, es), e) else TakesAll(key, SynSent, es)
  {
    TakesSnoc(key, SynSent, es, e);
    assert es + [] == es;
  }

  lemma DataWhileSynSent(key: FlowKey, e: Emitted)
    requires e.fields.flags == PSH + ACK
    ensures Takes(key, SynSent, e) == SynSent
  {
    PlainFlags(SynSent, Wrap32(e.fields.seqNum), e.payload);
  }

  /** A segment with PSH and ACK carries its text and nothing else. */
  lemma PlainFlags(h: Host, seqNum: nat, payload: bytes)
    ensures Byte(PSH + ACK) == 24 && TakeSegment(h, 24, seqNum, payload) == Take(h, seqNum, payload)
  {
  }

  /** The packets of one flow nobody else writes to: the SYN-ACK, the data, the FIN. */
  function FlowPackets(key: FlowKey, isn: nat, ack: nat, synOk: bool, chunks: seq<bytes>, oks: seq<bool>,
                       finOk: bool): seq<Emitted>
    requires |chunks| == |oks|
  {
    (if synOk then [Emitted(Towards(key, Flow.Wrap(isn), ack, SYN + ACK), [])] else [])
    + DataPackets(key, Flow.Wrap(isn + 1), ack, chunks, oks)
    + if finOk then [FinAt(key, Flow.Wrap(isn + 1) + |Concat(chunks)|, ack)] else []
  }

  function FinAt(key: FlowKey, at: nat, ack: nat): Emitted {
    Emitted(Towards(key, Flow.Wrap(at), ack, FIN + ACK), [])
  }

  lemma TakesSynAck(key: FlowKey, isn: nat, ack: nat, synOk: bool)
    requires KeyOk(key)
    ensures var es := if synOk then [Emitted(Towards(key, Flow.Wrap(isn), ack, SYN + ACK), [])] else [];
            TakesAll(key, SynSent, es) == if synOk then Open(Flow.Wrap(isn + 1), []) else SynSent
  {
    TowardsHost(key, Flow.Wrap(isn), ack, SYN + ACK, 0);
    assert Byte(SYN + ACK) == 18;
    WrapTwice(isn);
    Flow.WrapAdd(isn, 1);
    var e := Emitted(Towards(key, Flow.Wrap(isn), ack, SYN + ACK), []);
    TakesSnoc(key, SynSent, [], e);
    assert [] + [e] == [e];
  }

  lemma TakesFin(h: Host, key: FlowKey, at: nat, ack: nat)
    requires KeyOk(key)
    ensures Takes(key, h, FinAt(key, at, ack)) == End(h, Flow.Wrap(at))
  {
    TowardsHost(key, Flow.Wrap(at), ack, FIN + ACK, 0);
    assert Byte(FIN + ACK) == 17;
    WrapTwice(at);
    Flow.WrapAdd(at, 0);
  }

  /**
    * From packets to bytes: the host recovers exactly the relayed stream if and only if the SYN-ACK and every
    * data packet were written (or there was no data), and then the FIN ends it.
    */
  lemma HostRecovers(key: FlowKey, isn: nat, ack: nat, synOk: bool, chunks: seq<bytes>, oks: seq<bool>, finOk: bool,
                     packets: seq<bytes>)
    requires KeyOk(key)
    requires |chunks| == |oks| && ChunksOk(chunks)
    requires OnWire(packets, FlowPackets(key, isn, ack, synOk, chunks, oks, finOk))
    ensures Taken(HostReads(key, SynSent, packets)) == Concat(chunks) <==> (synOk && AllOk(oks)) || chunks == []
    ensures synOk && AllOk(oks) && finOk ==> HostReads(key, SynSent, packets) == Closed(Concat(chunks))
  {
    HostReadsEmitted(key, SynSent, packets, FlowPackets(key, isn, ack, synOk, chunks, oks, finOk));
    ConcatEmpty(chunks);
    if synOk {
      OpenedFlow(key, isn, ack, chunks, oks, finOk);
    } else {
      UnopenedFlow(key, isn, ack, chunks, oks, finOk);
    }
    assert chunks == [] ==> AllOk(oks);
  }

  predicate Recovered(h: Host, data: bytes, intact: bool, finOk: bool) {
    (Taken(h) == data <==> intact) && (intact && finOk ==> h == Closed(data))
  }

  lemma OpenedFlow(key: FlowKey, isn: nat, ack: nat, chunks: seq<bytes>, oks: seq<bool>, finOk: bool)
    requires KeyOk(key)
    requires |chunks| == |oks| && ChunksOk(chunks)
    ensures Recovered(TakesAll(key, SynSent, FlowPackets(key, isn, ack, true, chunks, oks, finOk)),
                      Concat(chunks), AllOk(oks), finOk)
  {
    var start := Flow.Wrap(isn + 1);
    TakesFlow(key, isn, ack, true, chunks, oks, finOk);
    assert Receives(Open(start, []), start, [], true) by {
      Flow.WrapAdd(isn + 1, 0);
    }
    DataEnds(Open(start, []), key, start, ack, chunks, oks, finOk);
  }

  /** The host after the data and the FIN. */
  function AfterSyn(h: Host, key: FlowKey, at: nat, ack: nat, chunks: seq<bytes>, oks: seq<bool>, finOk: bool): Host
    requires |chunks| == |oks|
  {
    var t := TakesAll(key, h, DataPackets(key, at, ack, chunks, oks));
    if finOk then End(t, Flow.Wrap(at + |Concat(chunks)|)) else t
  }

  lemma DataEnds(h: Host, key: FlowKey, at: nat, ack: nat, chunks: seq<bytes>, oks: seq<bool>, finOk: bool)
    requires KeyOk(key)
    requires |chunks| == |oks| && ChunksOk(chunks) && Receives(h, at, [], true)
    ensures Recovered(AfterSyn(h, key, at, ack, chunks, oks, finOk), Concat(chunks), AllOk(oks), finOk)
  {
    TakesData(h, key, at, ack, chunks, oks);
    var t := TakesAll(key, h, DataPackets(key, at, ack, chunks, oks));
    Ending(t, at + |Concat(chunks)|, Concat(chunks), AllOk(oks), finOk);
  }

  lemma UnopenedFlow(key: FlowKey, isn: nat, ack: nat, chunks: seq<bytes>, oks: seq<bool>, finOk: bool)
    requires KeyOk(key)
    requires |chunks| == |oks|
    ensures TakesAll(key, SynSent, FlowPackets(key, isn, ack, false, chunks, oks, finOk)) == SynSent
  {
    TakesFlow(key, isn, ack, false, chunks, oks, finOk);
    TakesNothing(key, Flow.Wrap(isn + 1), ack, chunks, oks);
  }

  lemma Ending(h: Host, at: nat, data: bytes, intact: bool, finOk: bool)
    requires Receives(h, at, data, intact)
    ensures Recovered(if finOk then End(h, Flow.Wrap(at)) else h, data, intact, finOk)
  {
  }

  lemma TakesFlow(key: FlowKey, isn: nat, ack: nat, synOk: bool, chunks: seq<bytes>, oks: seq<bool>, finOk: bool)
    requires KeyOk(key)
    requires |chunks| == |oks|
    ensures var start := Flow.Wrap(isn + 1);
            TakesAll(key, SynSent, FlowPackets(key, isn, ack, synOk, chunks, oks, finOk))
            == AfterSyn(if synOk then Open(start, []) else SynSent, key, start, ack, chunks, oks, finOk)
  {
    var start := Flow.Wrap(isn + 1);
    var syn := if synOk then [Emitted(Towards(key, Flow.Wrap(isn), ack, SYN + ACK), [])] else [];
    TakesSynAck(key, isn, ack, synOk);
    TakesThree(key, syn, DataPackets(key, start, ack, chunks, oks), start + |Concat(chunks)|, ack, finOk);
  }

  lemma TakesThree(key: FlowKey, syn: seq<Emitted>, data: seq<Emitted>, at: nat, ack: nat, finOk: bool)
    requires KeyOk(key)
    ensures var t := TakesAll(key, TakesAll(key, SynSent, syn), data);
            TakesAll(key, SynSent, syn + data + if finOk then [FinAt(key, at, ack)] else [])
            == if finOk then End(t, Flow.Wrap(at)) else t
  {
    var fin := FinAt(key, at, ack);
    TakesConcat(key, SynSent, syn, data);
    TakesSnoc(key, SynSent, syn + data, fin);
    TakesFin(TakesAll(key, SynSent, syn + data), key, at, ack);
    assert (syn + data) + [] == syn + data;
  }

  lemma ConcatEmpty(chunks: seq<bytes>)
    requires ChunksOk(chunks)
    ensures Concat(chunks) == [] <==> chunks == []
  {
  }

  lemma WrapTwice(n: nat)
    ensures Wrap32(Flow.Wrap(n)) == Flow.Wrap(n)
  {
  }

  // ---- What the answers look like ----

  /** A packet towards the host of segment s goes from where s was sent to back to where it came from. */
  lemma AnswersSegment(q: bytes, p: bytes, seqNum: nat, ack: nat, flags: nat, payload: bytes)
    requires ParseTcp(q).Some? && IsPacket(p, Towards(KeyOf(ParseTcp(q).value), seqNum, ack, flags), payload)
    ensures ParseTcp(p).Some?
    ensures var s, r := ParseTcp(q).value, ParseTcp(p).value;
            && r.srcIp == s.dstIp && r.srcPort == s.dstPort && r.dstIp == s.srcIp && r.dstPort == s.srcPort
            && r.seqNum == Wrap32(seqNum) && r.ackNum == Wrap32(ack) && r.flags as nat == flags % 256
            && r.payloadStart <= |p| && p[r.payloadStart..] == payload
  {
    var s := ParseTcp(q).value;
    KeyOfParsed(q);
    ReducedAnswer(s, seqNum, ack, flags, |payload|);
    var r := ParsedPacket(p, Towards(KeyOf(s), seqNum, ack, flags), payload);
  }

  lemma ReducedAnswer(s: Segment, seqNum: nat, ack: nat, flags: nat, n: int)
    requires KeyOk(KeyOf(s))
    ensures var r := Reduced(Towards(KeyOf(s), seqNum, ack, flags), n);
            && r.srcIp == s.dstIp && r.srcPort == s.dstPort && r.dstIp == s.srcIp && r.dstPort == s.srcPort
            && r.seqNum == Wrap32(seqNum) && r.ackNum == Wrap32(ack) && r.flags as nat == flags % 256
  {
  }

  /** Bit i of the flags (section 3.1 of RFC 9293: FIN, SYN, RST, PSH, ACK from bit 0 on). */
  function Bit(flags: byte, i: nat): nat {
    BitAt(flags as nat, i)
  }

  lemma BitsOf(flags: byte)
    ensures Bit(flags, 0) == flags as nat % 2 && Bit(flags, 1) == flags as nat / 2 % 2
    ensures Bit(flags, 2) == flags as nat / 4 % 2 && Bit(flags, 4) == flags as nat / 16 % 2
  {
    assert Pow2(0) == 1 && Pow2(1) == 2 && Pow2(2) == 4 && Pow2(3) == 8 && Pow2(4) == 16;
  }

  /** The dispatch by the bits on the wire. */
  lemma ClassifiedBy(flags: byte, payloadLen: int)
    ensures var fin, syn, rst, ack := Bit(flags, 0), Bit(flags, 1), Bit(flags, 2), Bit(flags, 4);
            var kind := Classify(flags, payloadLen);
            && (kind == NewFlow <==> syn == 1 && ack == 0)
            && (kind == Reset <==> rst == 1 && !(syn == 1 && ack == 0))
            && (kind == Close <==> fin == 1 && rst == 0 && !(syn == 1 && ack == 0))
            && (kind == Forward <==> ack == 1 && payloadLen > 0 && rst == 0 && fin == 0)
  {
    BitsOf(flags);
  }

  /** The host's FIN is acknowledged by a FIN under serverSeq, and then the flow is gone; a RST is not answered. */
  lemma FinAnswered(q: bytes, serverSeq: nat, flows: map<FlowKey, FlowState>, flows': map<FlowKey, FlowState>,
                    emitted: seq<Emitted>, emitted': seq<Emitted>, task: Task, ok: bool)
    requires ParseTcp(q).Some?
    requires Dispatched(ParseTcp(q).value, q, serverSeq, flows, flows', emitted, emitted', task, ok)
    requires var s := ParseTcp(q).value; Bit(s.flags, 0) == 1 || Bit(s.flags, 2) == 1
    requires var s := ParseTcp(q).value; !(Bit(s.flags, 1) == 1 && Bit(s.flags, 4) == 0)
    ensures var s := ParseTcp(q).value;
            && task == Nothing && KeyOf(s) !in flows' && (forall k :: k in flows && k != KeyOf(s) ==> k in flows')
            && (Bit(s.flags, 2) == 1 || KeyOf(s) !in flows || !ok ==> emitted' == emitted)
            && (Bit(s.flags, 2) == 0 && KeyOf(s) in flows && ok ==>
                  |emitted'| == |emitted| + 1 && IsFinFor(q, emitted'[|emitted|], serverSeq))
  {
    var s := ParseTcp(q).value;
    ClassifiedBy(s.flags, s.payloadLen);
    if Bit(s.flags, 2) == 0 && KeyOf(s) in flows && ok {
      FinFields(q, emitted'[|emitted|], serverSeq);
    }
  }

  /** A SYN starts one connection attempt, for its own addresses and number; data goes to the flow of its addresses. */
  lemma SegmentTaken(q: bytes, serverSeq: nat, flows: map<FlowKey, FlowState>, flows': map<FlowKey, FlowState>,
                     emitted: seq<Emitted>, emitted': seq<Emitted>, task: Task, ok: bool)
    requires ParseTcp(q).Some?
    requires Dispatched(ParseTcp(q).value, q, serverSeq, flows, flows', emitted, emitted', task, ok)
    ensures var s := ParseTcp(q).value;
            var key := FlowKey(s.srcIp, s.srcPort, s.dstIp, s.dstPort);
            var syn := Bit(s.flags, 1) == 1 && Bit(s.flags, 4) == 0;
            && (syn ==> flows' == flows && emitted' == emitted && (task == Connect(key, s.seqNum) <==> key !in flows)
                        && (key in flows ==> task == Nothing))
            && var data := Bit(s.flags, 0) == 0 && Bit(s.flags, 2) == 0 && Bit(s.flags, 4) == 1 && s.payloadLen > 0;
               (data && key in flows ==>
                  && flows' == flows && emitted' == emitted
                  && s.payloadStart <= |q| && task == ForwardData(flows[key], key, s.seqNum, q[s.payloadStart..]))
  {
    ClassifiedBy(ParseTcp(q).value.flags, ParseTcp(q).value.payloadLen);
  }

  /** On the wire, e answers the FIN in q: FIN and ACK, acknowledging everything up to that FIN. */
  predicate IsFinFor(q: bytes, e: Emitted, serverSeq: nat)
    requires ParseTcp(q).Some?
  {
    var s, p := ParseTcp(q).value, PacketBytes(e.fields, e.payload);
    ParseTcp(p).Some? &&
    var r := ParseTcp(p).value;
    && r.flags == 0x11 && r.payloadLen == 0
    && r.seqNum == Wrap32(serverSeq) && r.ackNum == (s.seqNum + 1) % 0x1_0000_0000
    && r.srcIp == s.dstIp && r.srcPort == s.dstPort && r.dstIp == s.srcIp && r.dstPort == s.srcPort
  }

  lemma FinFields(q: bytes, e: Emitted, serverSeq: nat)
    requires ParseTcp(q).Some?
    requires var s := ParseTcp(q).value;
             e == Emitted(Towards(KeyOf(s), serverSeq, Flow.Wrap(s.seqNum + 1), FIN + ACK), [])
    ensures IsFinFor(q, e, serverSeq)
  {
    var s, p := ParseTcp(q).value, PacketBytes(e.fields, e.payload);
    assert IsPacket(p, e.fields, e.payload);
    AnswersSegment(q, p, serverSeq, Flow.Wrap(s.seqNum + 1), FIN + ACK, []);
    WrapTwice(s.seqNum + 1);
  }

  /**
    * Exactly which of the packets a host can build have their payload forwarded, and that it is the whole of it
    * under the host's number: in particular no payload that comes with a FIN is.
    */
  lemma ForwardedIff(p: bytes, f: Fields, payload: bytes)
    requires IsPacket(p, f, payload)
    ensures ParseTcp(p).Some?
    ensures var s, flags := ParseTcp(p).value, Byte(f.flags);
            && (Classify(s.flags, s.payloadLen) == Forward <==>
                  payload != [] && Has(flags, ACK) && !Has(flags, RST) && !Has(flags, FIN))
            && s.payloadStart <= |p| && p[s.payloadStart..] == payload && s.seqNum == Wrap32(f.seqNum)
  {
    var s := ParsedPacket(p, f, payload);
  }

  /** The address a SYN asks for is the one the server dials: from the packet's octets to the dialler. */
  lemma SynAddressPreserved(pkt: bytes, ip6: AndroidSocks.Ip6Text, dial: bytes -> Hysteria2.Dialled, up: bytes)
    requires ParseTcp(pkt).Some?
    ensures var s := ParseTcp(pkt).value;
            var key := KeyOf(s);
            var request := AndroidSocks.ConnectRequest(Text.Dotted(Octets(key.dstIp)), key.dstPort);
            var wanted := AndroidSocks.WantedRequest(request + up, ip6);
            && wanted.Wanted?
            && var served := Hysteria2.ServerStream(Hysteria2.TcpRequest(wanted.target) + up, dial).served;
               && (served.Relaying? || served.DialFailed?)
               && Text.ParseDial(served.addr) == Some((pkt[16..20], s.dstPort))
  {
    OctetsOfParsed(pkt);
    var s := ParseTcp(pkt).value;
    AndroidSocks.AddressPreserved(pkt[16..20], s.dstPort, ip6, dial, up);
  }
}
