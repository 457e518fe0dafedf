/**
  * The coroutines that forward client data, interleaved: each data segment that arrives starts one, and
  * nothing orders their writes, their updates of clientSeq and their ACKs.
  */
module Forwarding {
  import opened Bytes
  import opened ClientData
  import Flow

  /** Where a segment's coroutine is; reads is how many updates of clientSeq came before it read its ACK number. */
  datatype Pc =
    | Launched                        // about to write its payload to the socket
    | Written                         // about to set clientSeq
    | Updated                         // about to read the numbers of its ACK
    | Read(ack: nat, updates: nat)    // about to send it
    | Over

  /** An ACK sent by a coroutine, with the number it read. */
  datatype AckSent = AckSent(sender: nat, ack: nat, updates: nat)

  /** Histories: the segments in order of arrival, and the coroutines in order of writing and of updating. */
  datatype State = State(
    arrived: seq<Segment>,
    pcs: seq<Pc>,
    order: seq<nat>,
    updates: seq<nat>,
    written: bytes,
    partial: bytes,     // what a failed write has sent
    closed: bool,       // a write has failed and the flow is closed
    clientSeq: nat,
    acks: seq<AckSent>)

  datatype Step =
    | Arrive(segment: Segment)
    | Write(i: nat)
    | WriteFails(i: nat, k: nat)  // after k bytes, or on a closed socket
    | Update(i: nat)
    | ReadNumbers(i: nat)
    | SendAck(i: nat)

  function Initial(isn: nat): State {
    State([], [], [], [], [], [], false, Flow.Wrap(isn + 1), [])
  }

  predicate At(s: State, i: nat, pc: Pc) {
    i < |s.pcs| && i < |s.arrived| && s.pcs[i] == pc
  }

  predicate Enabled(s: State, a: Step) {
    match a
    case Arrive(segment) => segment.payload != [] && segment.seqNum < Flow.MODULUS
    case Write(i) => At(s, i, Launched) && !s.closed
    case WriteFails(i, k) => At(s, i, Launched) && k < |s.arrived[i].payload| && (s.closed ==> k == 0)
    case Update(i) => At(s, i, Written)
    case ReadNumbers(i) => At(s, i, Updated)
    case SendAck(i) => i < |s.pcs| && s.pcs[i].Read?
  }

  function NextOf(segment: Segment): nat {
    Flow.Wrap(segment.seqNum + |segment.payload|)
  }

  function Apply(s: State, a: Step): State
    requires Enabled(s, a)
  {
    match a
    case Arrive(segment) => s.(arrived := s.arrived + [segment], pcs := s.pcs + [Launched])
    case Write(i) =>
      s.(pcs := s.pcs[i := Written], order := s.order + [i], written := s.written + s.arrived[i].payload)
    case WriteFails(i, k) =>
      var sent := s.arrived[i].payload[..k];
      s.(pcs := s.pcs[i := Over], partial := s.partial + sent, written := s.written + sent, closed := true)
    case Update(i) =>
      s.(pcs := s.pcs[i := Updated], updates := s.updates + [i], clientSeq := NextOf(s.arrived[i]))
    case ReadNumbers(i) => s.(pcs := s.pcs[i := Read(s.clientSeq, |s.updates|)])
    case SendAck(i) =>
      s.(pcs := s.pcs[i := Over], acks := s.acks + [AckSent(i, s.pcs[i].ack, s.pcs[i].updates)])
  }

  predicate IsRun(s: State, steps: seq<Step>)
    decreases |steps|
  {
    steps == [] || (Enabled(s, steps[0]) && IsRun(Apply(s, steps[0]), steps[1..]))
  }

  function Final(s: State, steps: seq<Step>): State
    requires IsRun(s, steps)
    decreases |steps|
  {
    if steps == [] then s else Final(Apply(s, steps[0]), steps[1..])
  }

  // ---- What every run keeps ----

  predicate Within(order: seq<nat>, n: nat) {
    forall k :: 0 <= k < |order| ==> order[k] < n
  }

  /** The payloads of the segments in a given order. */
  function Picked(q: seq<Segment>, order: seq<nat>): bytes
    requires Within(order, |q|)
  {
    if order == [] then [] else Picked(q, order[..|order| - 1]) + q[order[|order| - 1]].payload
  }

  predicate Distinct(order: seq<nat>) {
    forall j, k :: 0 <= j < k < |order| ==> order[j] != order[k]
  }

  /** The number a coroutine reads: that of the last one to update clientSeq by then, itself or a later one. */
  predicate NumberOk(s: State, sender: nat, ack: nat, updates: nat) {
    && 1 <= updates <= |s.updates| && sender in s.updates[..updates]
    && s.updates[updates - 1] < |s.arrived| && ack == NextOf(s.arrived[s.updates[updates - 1]])
  }

  /** Coroutine i is where the histories say. */
  predicate PcOk(s: State, i: nat)
    requires i < |s.pcs|
  {
    && (s.pcs[i].Launched? ==> i !in s.order)
    && (s.pcs[i].Written? ==> i in s.order)
    && (s.pcs[i].Updated? ==> i in s.updates)
    && (s.pcs[i].Read? ==> NumberOk(s, i, s.pcs[i].ack, s.pcs[i].updates))
  }

  ghost predicate Inv(isn: nat, s: State) {
    && |s.pcs| == |s.arrived| && Within(s.order, |s.arrived|) && Distinct(s.order) && Within(s.updates, |s.arrived|)
    && s.written == Picked(s.arrived, s.order) + s.partial && (!s.closed ==> s.partial == [])
    && (forall j :: j in s.updates ==> j in s.order)
    && s.clientSeq == (if s.updates == [] then Flow.Wrap(isn + 1) else NextOf(s.arrived[s.updates[|s.updates| - 1]]))
    && PartsOk(s)
  }

  lemma {:induction false} PickedStays(q: seq<Segment>, more: Segment, order: seq<nat>)
    requires Within(order, |q|)
    ensures Within(order, |q + [more]|) && Picked(q + [more], order) == Picked(q, order)
  {
    if order != [] {
      PickedStays(q, more, order[..|order| - 1]);
      assert (q + [more])[order[|order| - 1]] == q[order[|order| - 1]];
    }
  }

  lemma PickedSnoc(q: seq<Segment>, order: seq<nat>, i: nat)
    requires Within(order, |q|) && i < |q|
    ensures Within(order + [i], |q|) && Picked(q, order + [i]) == Picked(q, order) + q[i].payload
  {
    assert (order + [i])[..|order|] == order;
  }

  lemma NumberStays(s: State, s': State, sender: nat, ack: nat, updates: nat)
    requires NumberOk(s, sender, ack, updates)
    requires |s.arrived| <= |s'.arrived| && s'.arrived[..|s.arrived|] == s.arrived
    requires |s.updates| <= |s'.updates| && s'.updates[..|s.updates|] == s.updates
    ensures NumberOk(s', sender, ack, updates)
  {
    assert s'.updates[..updates] == s'.updates[..|s.updates|][..updates];
    assert s'.updates[updates - 1] == s'.updates[..|s.updates|][updates - 1];
    var j := s.updates[updates - 1];
    assert s'.arrived[j] == s'.arrived[..|s.arrived|][j];
  }

  /** The coroutines and ACKs, for a step that moves coroutine i. */
  ghost predicate PartsOk(s: State) {
    && (forall i :: 0 <= i < |s.pcs| ==> PcOk(s, i))
    && (forall k :: 0 <= k < |s.acks| ==> NumberOk(s, s.acks[k].sender, s.acks[k].ack, s.acks[k].updates))
  }

  lemma PartsStay(s: State, s': State, i: nat)
    requires PartsOk(s) && |s.pcs| <= |s'.pcs|
    requires |s.arrived| <= |s'.arrived| && s'.arrived[..|s.arrived|] == s.arrived
    requires |s.updates| <= |s'.updates| && s'.updates[..|s.updates|] == s.updates
    requires forall j :: 0 <= j < |s.pcs| && j != i ==> s'.pcs[j] == s.pcs[j]
    requires forall j :: j != i ==> (j in s'.order <==> j in s.order)
    requires i < |s'.pcs| && PcOk(s', i) && |s'.pcs| == (if i == |s.pcs| then i + 1 else |s.pcs|)
    requires |s.acks| <= |s'.acks| <= |s.acks| + 1 && s'.acks[..|s.acks|] == s.acks
    requires |s'.acks| == |s.acks| + 1 ==>
               var a := s'.acks[|s.acks|]; NumberOk(s', a.sender, a.ack, a.updates)
    ensures PartsOk(s')
  {
    forall j | 0 <= j < |s'.pcs| ensures PcOk(s', j) {
      if j != i {
        PcStays(s, s', j);
      }
    }
    forall k | 0 <= k < |s'.acks| ensures NumberOk(s', s'.acks[k].sender, s'.acks[k].ack, s'.acks[k].updates) {
      if k < |s.acks| {
        assert s'.acks[k] == s'.acks[..|s.acks|][k];
        NumberStays(s, s', s.acks[k].sender, s.acks[k].ack, s.acks[k].updates);
      }
    }
  }

  lemma PcStays(s: State, s': State, j: nat)
    requires j < |s.pcs| && PcOk(s, j) && j < |s'.pcs| && s'.pcs[j] == s.pcs[j]
    requires |s.arrived| <= |s'.arrived| && s'.arrived[..|s.arrived|] == s.arrived
    requires |s.updates| <= |s'.updates| && s'.updates[..|s.updates|] == s.updates
    requires j in s'.order <==> j in s.order
    ensures PcOk(s', j)
  {
    if s.pcs[j].Read? {
      NumberStays(s, s', j, s.pcs[j].ack, s.pcs[j].updates);
    }
    if s.pcs[j].Updated? {
      var k :| 0 <= k < |s.updates| && s.updates[k] == j;
      assert s'.updates[..|s.updates|][k] == s'.updates[k];
    }
  }

  lemma ArriveKeeps(isn: nat, s: State, segment: Segment)
    requires Inv(isn, s) && Enabled(s, Arrive(segment))
    ensures Inv(isn, Apply(s, Arrive(segment)))
  {
    var s' := Apply(s, Arrive(segment));
    PickedStays(s.arrived, segment, s.order);
    assert s.updates != [] ==> s'.arrived[s.updates[|s.updates| - 1]] == s.arrived[s.updates[|s.updates| - 1]];
    PartsStay(s, s', |s.pcs|);
  }

  lemma WriteKeeps(isn: nat, s: State, i: nat)
    requires Inv(isn, s) && Enabled(s, Write(i))
    ensures Inv(isn, Apply(s, Write(i)))
  {
    var s' := Apply(s, Write(i));
    assert PcOk(s, i);
    PickedSnoc(s.arrived, s.order, i);
    assert Picked(s.arrived, s.order) + [] == Picked(s.arrived, s.order);
    assert Picked(s.arrived, s'.order) + [] == Picked(s.arrived, s'.order);
    assert s'.order[|s.order|] == i;
    PartsStay(s, s', i);
  }

  lemma WriteFailsKeeps(isn: nat, s: State, i: nat, k: nat)
    requires Inv(isn, s) && Enabled(s, WriteFails(i, k))
    ensures Inv(isn, Apply(s, WriteFails(i, k)))
  {
    ConcatAssoc(Picked(s.arrived, s.order), s.partial, s.arrived[i].payload[..k]);
    PartsStay(s, Apply(s, WriteFails(i, k)), i);
  }

  lemma UpdateKeeps(isn: nat, s: State, i: nat)
    requires Inv(isn, s) && Enabled(s, Update(i))
    ensures Inv(isn, Apply(s, Update(i)))
  {
    var s' := Apply(s, Update(i));
    assert PcOk(s, i);
    assert s'.updates[|s.updates|] == i;
    PartsStay(s, s', i);
  }

  lemma ReadKeeps(isn: nat, s: State, i: nat)
    requires Inv(isn, s) && Enabled(s, ReadNumbers(i))
    ensures Inv(isn, Apply(s, ReadNumbers(i)))
  {
    assert PcOk(s, i);
    assert s.updates[..|s.updates|] == s.updates && s.updates[|s.updates| - 1] in s.updates;
    assert s.updates[|s.updates| - 1] in s.order;
    PartsStay(s, Apply(s, ReadNumbers(i)), i);
  }

  lemma AckKeeps(isn: nat, s: State, i: nat)
    requires Inv(isn, s) && Enabled(s, SendAck(i))
    ensures Inv(isn, Apply(s, SendAck(i)))
  {
    var s' := Apply(s, SendAck(i));
    assert PcOk(s, i);
    NumberStays(s, s', i, s.pcs[i].ack, s.pcs[i].updates);
    PartsStay(s, s', i);
  }

  lemma StepKeepsInv(isn: nat, s: State, a: Step)
    requires Inv(isn, s) && Enabled(s, a)
    ensures Inv(isn, Apply(s, a))
  {
    match a
    case Arrive(segment) => ArriveKeeps(isn, s, segment);
    case Write(i) => WriteKeeps(isn, s, i);
    case WriteFails(i, k) => WriteFailsKeeps(isn, s, i, k);
    case Update(i) => UpdateKeeps(isn, s, i);
    case ReadNumbers(i) => ReadKeeps(isn, s, i);
    case SendAck(i) => AckKeeps(isn, s, i);
  }

  lemma {:induction false} RunKeepsInv(isn: nat, s: State, steps: seq<Step>)
    requires Inv(isn, s) && IsRun(s, steps)
    ensures Inv(isn, Final(s, steps))
    decreases |steps|
  {
    if steps != [] {
      StepKeepsInv(isn, s, steps[0]);
      RunKeepsInv(isn, Apply(s, steps[0]), steps[1..]);
    }
  }

  // ---- What this means for the stream and for the ACKs ----

  /**
    * In every run: the bytes on the socket are the payloads of distinct segments in the order of the writes
    * (and a part of one whose write failed); and the number in an ACK is that of the last coroutine to have
    * updated clientSeq before it was read, the sender or one after it, whose payload is already written.
    */
  lemma ForwardingSafety(isn: nat, steps: seq<Step>)
    requires IsRun(Initial(isn), steps)
    ensures var s := Final(Initial(isn), steps);
            && Within(s.order, |s.arrived|) && Distinct(s.order)
            && s.written == Picked(s.arrived, s.order) + s.partial && (!s.closed ==> s.partial == [])
            && forall k :: 0 <= k < |s.acks| ==>
                 && NumberOk(s, s.acks[k].sender, s.acks[k].ack, s.acks[k].updates)
                 && s.updates[s.acks[k].updates - 1] in s.order
  {
    RunKeepsInv(isn, Initial(isn), steps);
  }

  predicate Straight(order: seq<nat>) {
    forall k :: 0 <= k < |order| ==> order[k] == k
  }

  lemma {:induction false} PickedStraight(q: seq<Segment>, order: seq<nat>)
    requires Within(order, |q|) && Straight(order)
    ensures |order| <= |q| && Picked(q, order) == StreamOf(q[..|order|])
  {
    if order != [] {
      var n := |order| - 1;
      assert order[n] == n;
      PickedStraight(q, order[..n]);
      BytesTake(q, n);
    }
  }

  lemma {:induction false} StreamPrefix(q: seq<Segment>, m: nat, n: nat)
    requires m <= n <= |q|
    ensures |StreamOf(q[..m])| <= |StreamOf(q[..n])|
  {
    if m < n {
      BytesTake(q, n - 1);
      StreamPrefix(q, m, n - 1);
    }
  }

  /**
    * When the writes follow the order of arrival, the socket gets the stream as it arrived; and if the segments
    * arrived in order, an ACK counts the stream up to the end of a segment that has been written.
    */
  lemma WritesInOrder(isn: nat, steps: seq<Step>)
    requires IsRun(Initial(isn), steps) && Straight(Final(Initial(isn), steps).order)
    ensures var s := Final(Initial(isn), steps);
            && |s.order| <= |s.arrived| && s.written == StreamOf(s.arrived[..|s.order|]) + s.partial
            && (InOrder(isn, s.arrived) ==>
                  forall k :: 0 <= k < |s.acks| ==>
                    && NumberOk(s, s.acks[k].sender, s.acks[k].ack, s.acks[k].updates)
                    && CountsTo(isn, s, s.acks[k], s.updates[s.acks[k].updates - 1])
                    && AckWithin(isn, s.acks[k].ack, |s.written|))
  {
    ForwardingSafety(isn, steps);
    var s := Final(Initial(isn), steps);
    PickedStraight(s.arrived, s.order);
    if InOrder(isn, s.arrived) {
      forall k | 0 <= k < |s.acks|
        ensures CountsTo(isn, s, s.acks[k], s.updates[s.acks[k].updates - 1])
        ensures AckWithin(isn, s.acks[k].ack, |s.written|)
      {
        var j := s.updates[s.acks[k].updates - 1];
        NumberOf(isn, s.arrived, j);
        var i :| 0 <= i < |s.order| && s.order[i] == j;
        StreamPrefix(s.arrived, j + 1, |s.order|);
      }
    }
  }

  /** The number in an ACK counts the stream up to the end of segment j, which has been written. */
  predicate CountsTo(isn: nat, s: State, a: AckSent, j: nat) {
    && j < |s.order| && j < |s.arrived|
    && Counting(isn, a.ack, |StreamOf(s.arrived[..j + 1])|) && |StreamOf(s.arrived[..j + 1])| <= |s.written|
  }

  predicate AckWithin(isn: nat, ack: nat, total: nat) {
    exists m: nat :: m <= total && Counting(isn, ack, m)
  }

  predicate Counting(isn: nat, ack: nat, m: nat) {
    ack == Flow.Wrap(isn + 1 + m)
  }

  /** The number of an in-order segment counts the stream up to its end. */
  lemma NumberOf(isn: nat, q: seq<Segment>, j: nat)
    requires InOrder(isn, q) && j < |q|
    ensures Counting(isn, NextOf(q[j]), |StreamOf(q[..j + 1])|)
  {
    assert InPlace(isn, q, j);
    BytesTake(q, j);
    Flow.WrapAdd(isn + 1 + |StreamOf(q[..j])|, |q[j].payload|);
  }

  // ---- Exactly when the stream survives ----

  /** n segments of one byte, in order; the byte of segment p is 0 and the others' is 1. */
  function Marked(isn: nat, n: nat, p: nat): (q: seq<Segment>)
    ensures |q| == n
    ensures forall k :: 0 <= k < n ==> q[k] == Segment(Flow.Wrap(isn + 1 + k), [if k == p then 0 else 1])
  {
    seq(n, k requires 0 <= k < n => Segment(Flow.Wrap(isn + 1 + k), [if k == p then 0 else 1]))
  }

  lemma {:induction false} MarkedStream(isn: nat, n: nat, p: nat, m: nat)
    requires m <= n
    ensures |StreamOf(Marked(isn, n, p)[..m])| == m
    ensures p < m ==> StreamOf(Marked(isn, n, p)[..m])[p] == 0
  {
    if m > 0 {
      BytesTake(Marked(isn, n, p), m - 1);
      MarkedStream(isn, n, p, m - 1);
    }
  }

  lemma MarkedInOrder(isn: nat, n: nat, p: nat)
    ensures InOrder(isn, Marked(isn, n, p))
  {
    forall k | 0 <= k < n ensures InPlace(isn, Marked(isn, n, p), k) {
      MarkedStream(isn, n, p, k);
    }
  }

  lemma {:induction false} MarkedPicked(isn: nat, n: nat, p: nat, order: seq<nat>)
    requires Within(order, n)
    ensures |Picked(Marked(isn, n, p), order)| == |order|
    ensures p < |order| && order[p] != p ==> Picked(Marked(isn, n, p), order)[p] == 1
  {
    if order != [] {
      MarkedPicked(isn, n, p, order[..|order| - 1]);
    }
  }

  /**
    * A schedule of writes hands on every stream of n segments that arrives in order, as far as it goes, if
    * and only if it follows the order of arrival.
    */
  lemma StreamSurvivesIff(isn: nat, n: nat, order: seq<nat>)
    requires Within(order, n)
    ensures (forall q :: |q| == n && InOrder(isn, q) ==> Picked(q, order) <= StreamOf(q)) <==> Straight(order)
  {
    if Straight(order) {
      forall q | |q| == n && InOrder(isn, q) ensures Picked(q, order) <= StreamOf(q) {
        PickedStraight(q, order);
        StreamSplits(q, |order|);
      }
    } else {
      var p :| 0 <= p < |order| && order[p] != p;
      var q := Marked(isn, n, p);
      MarkedInOrder(isn, n, p);
      MarkedPicked(isn, n, p, order);
      MarkedStream(isn, n, p, n);
      assert q[..n] == q;
      assert p < n ==> StreamOf(q)[p] == 0;
      assert !(Picked(q, order) <= StreamOf(q));
    }
  }

  lemma {:induction false} StreamSplits(q: seq<Segment>, m: nat)
    requires m <= |q|
    ensures StreamOf(q[..m]) <= StreamOf(q)
    decreases |q| - m
  {
    if m == |q| {
      assert q[..m] == q;
    } else {
      BytesTake(q, m);
      StreamSplits(q, m + 1);
    }
  }

  // ---- Runs ----

  lemma {:induction false} Extend(s: State, steps: seq<Step>, a: Step) returns (longer: seq<Step>)
    requires IsRun(s, steps) && Enabled(Final(s, steps), a)
    ensures longer == steps + [a] && IsRun(s, longer) && Final(s, longer) == Apply(Final(s, steps), a)
    decreases |steps|
  {
    longer := steps + [a];
    if steps == [] {
      assert longer[1..] == [] && longer[0] == a;
    } else {
      var tail := Extend(Apply(s, steps[0]), steps[1..], a);
      assert longer[0] == steps[0] && longer[1..] == tail;
    }
  }

  /** Segment i's coroutine writes, updates, reads and acknowledges, with nobody in between. */
  lemma Forwards(s: State, steps: seq<Step>, i: nat) returns (longer: seq<Step>)
    requires IsRun(s, steps) && At(Final(s, steps), i, Launched) && !Final(s, steps).closed
    ensures var t, next := Final(s, steps), NextOf(Final(s, steps).arrived[i]);
            && IsRun(s, longer)
            && Final(s, longer) == t.(pcs := t.pcs[i := Over], order := t.order + [i], updates := t.updates + [i],
                 written := t.written + t.arrived[i].payload, clientSeq := next,
                 acks := t.acks + [AckSent(i, next, |t.updates| + 1)])
  {
    longer := Extend(s, steps, Write(i));
    longer := Extend(s, longer, Update(i));
    longer := Extend(s, longer, ReadNumbers(i));
    longer := Extend(s, longer, SendAck(i));
  }

  predicate SameNumbers(acks: seq<AckSent>, numbers: seq<nat>) {
    |acks| == |numbers| && forall k :: 0 <= k < |acks| ==> acks[k].ack == numbers[k]
  }

  /** One coroutine at a time is a run of this machine, and does what ForwardAll says. */
  lemma {:induction false} OneAtATime(isn: nat, q: seq<Segment>) returns (steps: seq<Step>)
    requires Segments(q)
    ensures IsRun(Initial(isn), steps)
    ensures var s, f := Final(Initial(isn), steps), ForwardAll(Forwarded(Flow.Wrap(isn + 1), [], []), q);
            && s.arrived == q && |s.pcs| == |q| && !s.closed
            && s.written == f.written && s.clientSeq == f.clientSeq && SameNumbers(s.acks, f.acks)
  {
    steps := [];
    if q != [] {
      var n := |q| - 1;
      steps := OneAtATime(isn, q[..n]);
      assert q[..n] + [q[n]] == q;
      steps := Extend(Initial(isn), steps, Arrive(q[n]));
      steps := Forwards(Initial(isn), steps, n);
    }
  }

  /** Two segments in order. */
  function Pair(isn: nat, first: bytes, second: bytes): seq<Segment> {
    [Segment(Flow.Wrap(isn + 1), first), Segment(Flow.Wrap(isn + 1 + |first|), second)]
  }

  lemma PairArrives(isn: nat, first: bytes, second: bytes) returns (steps: seq<Step>)
    requires first != [] && second != []
    ensures IsRun(Initial(isn), steps)
    ensures Final(Initial(isn), steps)
         == Initial(isn).(arrived := Pair(isn, first, second), pcs := [Launched, Launched])
    ensures InOrder(isn, Pair(isn, first, second)) && StreamOf(Pair(isn, first, second)) == first + second
  {
    var q := Pair(isn, first, second);
    assert q[..0] == [] && q[..1] == [q[0]] && q[..2] == q;
    BytesTake(q, 0);
    BytesTake(q, 1);
    assert [] + first == first;
    assert InPlace(isn, q, 0) && InPlace(isn, q, 1);
    steps := Extend(Initial(isn), [], Arrive(q[0]));
    steps := Extend(Initial(isn), steps, Arrive(q[1]));
    assert [q[0]] + [q[1]] == q;
  }

  /** Arrived in order, but the second is written first and its ACK counts the first, which may never be written. */
  lemma Overtaking(isn: nat, first: bytes, second: bytes) returns (steps: seq<Step>)
    requires first != [] && second != []
    ensures IsRun(Initial(isn), steps)
    ensures var s := Final(Initial(isn), steps);
            && s.arrived == Pair(isn, first, second) && InOrder(isn, s.arrived)
            && s.written == second && s.order == [1]
            && s.acks == [AckSent(1, Flow.Wrap(isn + 1 + |first| + |second|), 1)]
  {
    steps := PairArrives(isn, first, second);
    steps := Forwards(Initial(isn), steps, 1);
    Flow.WrapAdd(isn + 1 + |first|, |second|);
    assert [] + second == second;
  }

  /** Arrived and written in order, but both ACKs count the first segment only: the host will send the second again. */
  lemma StaleAcks(isn: nat, first: bytes, second: bytes) returns (steps: seq<Step>)
    requires first != [] && second != []
    ensures IsRun(Initial(isn), steps)
    ensures var s, end := Final(Initial(isn), steps), Flow.Wrap(isn + 1 + |first|);
            && s.arrived == Pair(isn, first, second) && InOrder(isn, s.arrived)
            && s.written == first + second && s.order == [0, 1] && s.clientSeq == end
            && s.acks == [AckSent(1, end, 2), AckSent(0, end, 2)]
  {
    var s := Initial(isn);
    steps := PairArrives(isn, first, second);
    steps := Extend(s, steps, Write(0));
    steps := Extend(s, steps, Write(1));
    steps := Extend(s, steps, Update(1));
    steps := Extend(s, steps, Update(0));
    steps := Extend(s, steps, ReadNumbers(1));
    steps := Extend(s, steps, SendAck(1));
    steps := Extend(s, steps, ReadNumbers(0));
    steps := Extend(s, steps, SendAck(0));
    Flow.WrapAdd(isn + 1, |first|);
    assert [] + first + second == first + second;
  }
}
