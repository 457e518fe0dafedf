/**
  * Client-to-server data of one flow when every forwarding coroutine finishes before the next segment
  * arrives.  Forwarding has the interleavings.
  */
module ClientData {
  import opened Bytes
  import opened Flow
  import opened Reassembly

  /** A data segment from the host; forwarding never compares seqNum with clientSeq. */
  datatype Segment = Segment(seqNum: nat, payload: bytes)

  /** flow.clientSeq, the bytes written to the SOCKS socket and the ACK numbers sent. */
  datatype Forwarded = Forwarded(clientSeq: nat, written: bytes, acks: seq<nat>)

  /** One forwarding coroutine, undisturbed: write, advance, acknowledge. */
  function Forward(f: Forwarded, s: Segment): Forwarded {
    var next := Wrap(s.seqNum + |s.payload|);
    Forwarded(next, f.written + s.payload, f.acks + [next])
  }

  function ForwardAll(f: Forwarded, q: seq<Segment>): Forwarded {
    if q == [] then f else Forward(ForwardAll(f, q[..|q| - 1]), q[|q| - 1])
  }

  function StreamOf(q: seq<Segment>): bytes {
    if q == [] then [] else StreamOf(q[..|q| - 1]) + q[|q| - 1].payload
  }

  /** Every segment starts where the one before it ended, the first at the client's ISN plus one. */
  predicate InOrder(isn: nat, q: seq<Segment>) {
    forall k :: 0 <= k < |q| ==> InPlace(isn, q, k)
  }

  predicate InPlace(isn: nat, q: seq<Segment>, k: nat)
    requires k < |q|
  {
    q[k].seqNum == Wrap(isn + 1 + |StreamOf(q[..k])|)
  }

  /** The ACK sent for segment k counts the bytes forwarded so far. */
  predicate Counts(isn: nat, q: seq<Segment>, acks: seq<nat>, k: nat)
    requires k < |q| == |acks|
  {
    acks[k] == Wrap(isn + 1 + |StreamOf(q[..k + 1])|)
  }

  lemma InOrderSnoc(isn: nat, q: seq<Segment>)
    requires q != []
    ensures var n := |q| - 1;
            InOrder(isn, q) <==> InOrder(isn, q[..n]) && q[n].seqNum == Wrap(isn + 1 + |StreamOf(q[..n])|)
  {
    var front := q[..|q| - 1];
    forall k | 0 <= k < |front| ensures InPlace(isn, front, k) <==> InPlace(isn, q, k) {
      assert front[..k] == q[..k];
    }
    if InOrder(isn, q) {
      assert InPlace(isn, q, |q| - 1);
    }
  }

  predicate Segments(q: seq<Segment>) {
    forall k :: 0 <= k < |q| ==> q[k].seqNum < MODULUS && q[k].payload != []
  }

  lemma WrapCancels(a: nat, b: nat, n: nat)
    requires a < MODULUS
    ensures Wrap(a + n) == Wrap(b + n) <==> a == Wrap(b)
  {
    var r := Wrap(b);
    WrapAdd(b, n);
    if Wrap(a + n) == Wrap(r + n) {
      assert a == r;
    }
  }

  /** The socket gets the payloads in arrival order, whatever the sequence numbers. */
  lemma {:induction false} WrittenIsPayloads(f: Forwarded, q: seq<Segment>)
    ensures ForwardAll(f, q).written == f.written + StreamOf(q)
    ensures |ForwardAll(f, q).acks| == |f.acks| + |q|
  {
    if q == [] {
      assert f.written + [] == f.written;
    } else {
      WrittenIsPayloads(f, q[..|q| - 1]);
      ConcatAssoc(f.written, StreamOf(q[..|q| - 1]), q[|q| - 1].payload);
    }
  }

  lemma {:induction false} AckOf(f: Forwarded, q: seq<Segment>, k: nat)
    requires k < |q|
    ensures |ForwardAll(f, q).acks| == |f.acks| + |q|
    ensures ForwardAll(f, q).acks[|f.acks| + k] == Wrap(q[k].seqNum + |q[k].payload|)
  {
    WrittenIsPayloads(f, q[..|q| - 1]);
    if k < |q| - 1 {
      AckOf(f, q[..|q| - 1], k);
    }
  }

  lemma BytesTake(q: seq<Segment>, k: nat)
    requires k < |q|
    ensures StreamOf(q[..k + 1]) == StreamOf(q[..k]) + q[k].payload
  {
    assert q[..k + 1][..k] == q[..k];
  }

  /** One at a time, every ACK is the client's ISN plus one plus the bytes forwarded exactly for in-order delivery. */
  lemma AcksIffInOrder(isn: nat, q: seq<Segment>)
    requires Segments(q)
    ensures var r := ForwardAll(Forwarded(Wrap(isn + 1), [], []), q);
            && |r.acks| == |q|
            && ((forall k :: 0 <= k < |q| ==> Counts(isn, q, r.acks, k)) <==> InOrder(isn, q))
  {
    var f := Forwarded(Wrap(isn + 1), [], []);
    var acks := ForwardAll(f, q).acks;
    WrittenIsPayloads(f, q);
    forall k | 0 <= k < |q| ensures Counts(isn, q, acks, k) <==> InPlace(isn, q, k) {
      AckOf(f, q, k);
      BytesTake(q, k);
      var before := isn + 1 + |StreamOf(q[..k])|;
      WrapCancels(q[k].seqNum, before, |q[k].payload|);
    }
  }

  // ---- Against a receiver that does compare (section 3.4 of RFC 9293) ----

  function AcceptAll(h: Host, q: seq<Segment>): Host {
    if q == [] then h else Take(AcceptAll(h, q[..|q| - 1]), q[|q| - 1].seqNum, q[|q| - 1].payload)
  }

  /** A receiver's bytes against all bytes sent: the same while everything was in order, fewer otherwise. */
  predicate Accepts(isn: nat, h: Host, data: bytes, inOrder: bool) {
    && h.Open?
    && (inOrder ==> h == Open(Wrap(isn + 1 + |data|), data))
    && (!inOrder ==> |h.taken| < |data|)
  }

  lemma AcceptsNext(isn: nat, h: Host, data: bytes, inOrder: bool, s: Segment, end: nat)
    requires Accepts(isn, h, data, inOrder) && s.payload != [] && end == isn + 1 + |data|
    ensures Accepts(isn, Take(h, s.seqNum, s.payload), data + s.payload, inOrder && s.seqNum == Wrap(end))
  {
    WrapAdd(end, |s.payload|);
  }

  lemma {:induction false} Accepted(isn: nat, q: seq<Segment>)
    requires Segments(q)
    ensures Accepts(isn, AcceptAll(Open(Wrap(isn + 1), []), q), StreamOf(q), InOrder(isn, q))
  {
    if q != [] {
      var front, s := q[..|q| - 1], q[|q| - 1];
      Accepted(isn, front);
      InOrderSnoc(isn, q);
      AcceptsNext(isn, AcceptAll(Open(Wrap(isn + 1), []), front), StreamOf(front), InOrder(isn, front), s,
                  isn + 1 + |StreamOf(front)|);
    }
  }

  /**
    * One at a time, the bytes written are those of a receiver that checks sequence numbers if and only if
    * the segments are delivered in order and without repetition; a retransmission is forwarded twice.
    */
  lemma ForwardedIffInOrder(isn: nat, q: seq<Segment>)
    requires Segments(q)
    ensures ForwardAll(Forwarded(Wrap(isn + 1), [], []), q).written == Taken(AcceptAll(Open(Wrap(isn + 1), []), q))
            <==> InOrder(isn, q)
  {
    WrittenIsPayloads(Forwarded(Wrap(isn + 1), [], []), q);
    assert [] + StreamOf(q) == StreamOf(q);
    Accepted(isn, q);
  }
}
