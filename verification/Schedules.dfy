/**
  * Which schedules of the forwarding coroutines are safe for every stream that arrives in order: exact
  * conditions over the runs of Forwarding.
  */
module Schedules {
  import opened Bytes
  import opened ClientData
  import opened Forwarding
  import Flow

  // ---- Every schedule happens ----

  function PcsAfter(n: nat, order: seq<nat>, updates: seq<nat>): (pcs: seq<Pc>)
    ensures |pcs| == n
  {
    seq(n, i => if i in updates then Updated else if i in order then Written else Launched)
  }

  function LastNumber(isn: nat, q: seq<Segment>, updates: seq<nat>): nat
    requires Within(updates, |q|)
  {
    if updates == [] then Flow.Wrap(isn + 1) else NextOf(q[updates[|updates| - 1]])
  }

  /** All of q has arrived, then order has written and updates has updated; nothing is acknowledged yet. */
  function Reached(isn: nat, q: seq<Segment>, order: seq<nat>, updates: seq<nat>): State
    requires Within(order, |q|) && Within(updates, |q|)
  {
    State(q, PcsAfter(|q|, order, updates), order, updates, Picked(q, order), [], false,
          LastNumber(isn, q, updates), [])
  }

  lemma DistinctFront(order: seq<nat>)
    requires order != [] && Distinct(order)
    ensures Distinct(order[..|order| - 1]) && order[|order| - 1] !in order[..|order| - 1]
  {
  }

  lemma InFront(order: seq<nat>, i: nat)
    requires order != []
    ensures i in order <==> i in order[..|order| - 1] || i == order[|order| - 1]
  {
    assert order[..|order| - 1] + [order[|order| - 1]] == order;
  }

  /** Any distinct segments can be written in any order, and update clientSeq in any order. */
  lemma {:induction false} ScheduleHappens(isn: nat, q: seq<Segment>, order: seq<nat>, updates: seq<nat>)
    returns (steps: seq<Step>)
    requires Segments(q) && Within(order, |q|) && Distinct(order) && Within(updates, |q|) && Distinct(updates)
    requires forall j :: j in updates ==> j in order
    ensures IsRun(Initial(isn), steps) && Final(Initial(isn), steps) == Reached(isn, q, order, updates)
    decreases |q| + |order| + |updates|
  {
    if updates != [] {
      DistinctFront(updates);
      steps := ScheduleHappens(isn, q, order, updates[..|updates| - 1]);
      UpdateReached(isn, q, order, updates);
      steps := Extend(Initial(isn), steps, Update(updates[|updates| - 1]));
    } else if order != [] {
      DistinctFront(order);
      steps := ScheduleHappens(isn, q, order[..|order| - 1], []);
      WriteReached(isn, q, order);
      steps := Extend(Initial(isn), steps, Write(order[|order| - 1]));
    } else if q != [] {
      steps := ScheduleHappens(isn, q[..|q| - 1], [], []);
      ArriveReached(isn, q);
      steps := Extend(Initial(isn), steps, Arrive(q[|q| - 1]));
    } else {
      steps := [];
    }
  }

  lemma ArriveReached(isn: nat, q: seq<Segment>)
    requires q != [] && Segments(q)
    ensures Enabled(Reached(isn, q[..|q| - 1], [], []), Arrive(q[|q| - 1]))
    ensures Apply(Reached(isn, q[..|q| - 1], [], []), Arrive(q[|q| - 1])) == Reached(isn, q, [], [])
  {
    var n := |q| - 1;
    assert q[..n] + [q[n]] == q;
    assert PcsAfter(n, [], []) + [Launched] == PcsAfter(|q|, [], []);
  }

  lemma WriteReached(isn: nat, q: seq<Segment>, order: seq<nat>)
    requires order != [] && Within(order, |q|) && Distinct(order)
    ensures var n := |order| - 1;
            && Enabled(Reached(isn, q, order[..n], []), Write(order[n]))
            && Apply(Reached(isn, q, order[..n], []), Write(order[n])) == Reached(isn, q, order, [])
  {
    var n := |order| - 1;
    DistinctFront(order);
    assert order[..n] + [order[n]] == order;
    var before, after := PcsAfter(|q|, order[..n], []), PcsAfter(|q|, order, []);
    forall i | 0 <= i < |q| ensures before[order[n] := Written][i] == after[i] {
      InFront(order, i);
    }
    assert before[order[n] := Written] == after;
  }

  lemma UpdateReached(isn: nat, q: seq<Segment>, order: seq<nat>, updates: seq<nat>)
    requires updates != [] && Within(order, |q|) && Within(updates, |q|) && Distinct(updates)
    requires updates[|updates| - 1] in order
    ensures var n := |updates| - 1;
            && Enabled(Reached(isn, q, order, updates[..n]), Update(updates[n]))
            && Apply(Reached(isn, q, order, updates[..n]), Update(updates[n])) == Reached(isn, q, order, updates)
  {
    var n := |updates| - 1;
    DistinctFront(updates);
    assert updates[..n] + [updates[n]] == updates;
    var before, after := PcsAfter(|q|, order, updates[..n]), PcsAfter(|q|, order, updates);
    forall i | 0 <= i < |q| ensures before[updates[n] := Updated][i] == after[i] {
      InFront(updates, i);
    }
    assert before[updates[n] := Updated] == after;
  }

  /** Then any coroutine that has updated reads the last one's number and acknowledges with it. */
  lemma AckHappens(isn: nat, q: seq<Segment>, order: seq<nat>, updates: seq<nat>, sender: nat)
    returns (steps: seq<Step>)
    requires Segments(q) && Within(order, |q|) && Distinct(order) && Within(updates, |q|) && Distinct(updates)
    requires sender in updates && forall j :: j in updates ==> j in order
    ensures IsRun(Initial(isn), steps)
    ensures var s := Final(Initial(isn), steps);
            && s.arrived == q && s.order == order && s.updates == updates && s.written == Picked(q, order)
            && s.acks == [AckSent(sender, LastNumber(isn, q, updates), |updates|)]
  {
    steps := ScheduleHappens(isn, q, order, updates);
    steps := Extend(Initial(isn), steps, ReadNumbers(sender));
    steps := Extend(Initial(isn), steps, SendAck(sender));
  }

  // ---- The stream ----

  /** steps is a run in which n segments arrive, in order. */
  predicate InOrderRun(isn: nat, n: nat, steps: seq<Step>) {
    && IsRun(Initial(isn), steps)
    && |Final(Initial(isn), steps).arrived| == n && InOrder(isn, Final(Initial(isn), steps).arrived)
  }

  /** What was written whole is the start of the arrived stream. */
  predicate HandsOn(isn: nat, steps: seq<Step>)
    requires IsRun(Initial(isn), steps)
  {
    var s := Final(Initial(isn), steps);
    s.partial == [] ==> s.written <= StreamOf(s.arrived)
  }

  lemma MarkedSegments(isn: nat, n: nat, p: nat)
    ensures Segments(Marked(isn, n, p))
  {
  }

  /** Every run that writes in a given order hands on its stream if and only if that is the order of arrival. */
  lemma RunsHandOnIff(isn: nat, n: nat, order: seq<nat>)
    requires Within(order, n) && Distinct(order)
    ensures (forall steps :: InOrderRun(isn, n, steps) && Final(Initial(isn), steps).order == order ==>
               HandsOn(isn, steps))
       <==> Straight(order)
  {
    if Straight(order) {
      forall steps | InOrderRun(isn, n, steps) && Final(Initial(isn), steps).order == order
        ensures HandsOn(isn, steps)
      {
        ForwardingSafety(isn, steps);
        StreamSurvivesIff(isn, n, order);
        var s := Final(Initial(isn), steps);
        assert Picked(s.arrived, order) + [] == Picked(s.arrived, order);
      }
    } else {
      var steps := LosesStream(isn, n, order);
    }
  }

  lemma LosesStream(isn: nat, n: nat, order: seq<nat>) returns (steps: seq<Step>)
    requires Within(order, n) && Distinct(order) && !Straight(order)
    ensures InOrderRun(isn, n, steps) && Final(Initial(isn), steps).order == order && !HandsOn(isn, steps)
  {
    var p :| 0 <= p < |order| && order[p] != p;
    var q := Marked(isn, n, p);
    MarkedSegments(isn, n, p);
    MarkedInOrder(isn, n, p);
    MarkedPicked(isn, n, p, order);
    MarkedStream(isn, n, p, n);
    assert q[..n] == q;
    steps := ScheduleHappens(isn, q, order, []);
  }

  // ---- ACKs that count unwritten bytes ----

  /** No ACK of the run counts more bytes than were written. */
  predicate AcksWithin(isn: nat, steps: seq<Step>)
    requires IsRun(Initial(isn), steps)
  {
    var s := Final(Initial(isn), steps);
    forall k :: 0 <= k < |s.acks| ==> AckWithin(isn, s.acks[k].ack, |s.written|)
  }

  /**
    * Every run that writes in a given order, as far as it gets, acknowledges only what it has written if and
    * only if that is the order of arrival.
    */
  lemma AcksWithinIff(isn: nat, n: nat, order: seq<nat>)
    requires Within(order, n) && Distinct(order) && n < Flow.MODULUS
    ensures (forall steps :: InOrderRun(isn, n, steps) && Final(Initial(isn), steps).order <= order ==>
               AcksWithin(isn, steps))
       <==> Straight(order)
  {
    if Straight(order) {
      forall steps | InOrderRun(isn, n, steps) && Final(Initial(isn), steps).order <= order
        ensures AcksWithin(isn, steps)
      {
        WritesInOrder(isn, steps);
      }
    } else {
      var steps := AckAhead(isn, n, order);
    }
  }

  lemma AckAhead(isn: nat, n: nat, order: seq<nat>) returns (steps: seq<Step>)
    requires Within(order, n) && Distinct(order) && n < Flow.MODULUS && !Straight(order)
    ensures InOrderRun(isn, n, steps) && Final(Initial(isn), steps).order <= order && !AcksWithin(isn, steps)
  {
    var p := FirstAstray(order);
    var q, i, front := Marked(isn, n, p), order[p], order[..p + 1];
    MarkedSegments(isn, n, p);
    MarkedInOrder(isn, n, p);
    MarkedPicked(isn, n, p, front);
    assert front[p] == i;
    steps := AckHappens(isn, q, front, [i], i);
    MarkedNumber(isn, n, p, i);
    forall m: nat | m <= p + 1 ensures !Counting(isn, NextOf(q[i]), m) {
      NumbersApart(isn, m, i + 1);
    }
    var s := Final(Initial(isn), steps);
    assert s.acks[0].ack == NextOf(q[i]) && |s.written| == p + 1;
    assert !AckWithin(isn, s.acks[0].ack, |s.written|);
  }

  /** The first segment written out of turn comes from further on. */
  lemma FirstAstray(order: seq<nat>) returns (p: nat)
    requires Distinct(order) && !Straight(order)
    ensures p < |order| && p < order[p] && Straight(order[..p])
  {
    p := 0;
    while order[p] == p
      invariant p < |order| && forall k :: 0 <= k < p ==> order[k] == k
      decreases |order| - p
    {
      p := p + 1;
    }
    if order[p] < p {
      Elsewhere(order, p, order[p]);
    }
  }

  lemma Elsewhere(order: seq<nat>, p: nat, k: nat)
    requires Distinct(order) && k < p < |order| && order[k] == k
    ensures order[p] != k
  {
  }

  lemma MarkedNumber(isn: nat, n: nat, p: nat, i: nat)
    requires i < n
    ensures Counting(isn, NextOf(Marked(isn, n, p)[i]), i + 1)
  {
    Flow.WrapAdd(isn + 1 + i, 1);
  }

  /** Numbers less than a modulus apart differ. */
  lemma NumbersApart(isn: nat, m: nat, k: nat)
    requires m < k < m + Flow.MODULUS
    ensures Flow.Wrap(isn + 1 + m) != Flow.Wrap(isn + 1 + k)
  {
  }

  // ---- ACKs that fall behind their sender ----

  /** Every ACK of the run carries the number of its sender or of a segment that arrived later. */
  predicate AcksForward(isn: nat, steps: seq<Step>)
    requires IsRun(Initial(isn), steps)
  {
    var s := Final(Initial(isn), steps);
    forall k :: 0 <= k < |s.acks| ==> FromOnwards(s.arrived, s.acks[k].sender, s.acks[k].ack)
  }

  predicate FromOnwards(q: seq<Segment>, sender: nat, ack: nat) {
    exists j :: sender <= j < |q| && ack == NextOf(q[j])
  }

  predicate Increasing(updates: seq<nat>) {
    forall j, k :: 0 <= j < k < |updates| ==> updates[j] < updates[k]
  }

  /**
    * Every run that updates clientSeq in a given order, as far as it gets, acknowledges each sender's segment
    * or a later one if and only if no update follows that of a later segment.
    */
  lemma AcksForwardIff(isn: nat, n: nat, updates: seq<nat>)
    requires Within(updates, n) && Distinct(updates) && n < Flow.MODULUS
    ensures (forall steps :: InOrderRun(isn, n, steps) && Final(Initial(isn), steps).updates <= updates ==>
               AcksForward(isn, steps))
       <==> Increasing(updates)
  {
    if Increasing(updates) {
      forall steps | InOrderRun(isn, n, steps) && Final(Initial(isn), steps).updates <= updates
        ensures AcksForward(isn, steps)
      {
        ForwardWhenIncreasing(isn, updates, steps);
      }
    } else {
      var steps := AckBehind(isn, n, updates);
    }
  }

  lemma ForwardWhenIncreasing(isn: nat, updates: seq<nat>, steps: seq<Step>)
    requires IsRun(Initial(isn), steps) && Final(Initial(isn), steps).updates <= updates && Increasing(updates)
    ensures AcksForward(isn, steps)
  {
    ForwardingSafety(isn, steps);
    var s := Final(Initial(isn), steps);
    forall k | 0 <= k < |s.acks| ensures FromOnwards(s.arrived, s.acks[k].sender, s.acks[k].ack) {
      var a, last := s.acks[k], s.acks[k].updates - 1;
      var i :| 0 <= i < a.updates && s.updates[..a.updates][i] == a.sender;
      assert s.updates[i] == a.sender;
      assert updates[i] == s.updates[i] && updates[last] == s.updates[last];
    }
  }

  lemma AckBehind(isn: nat, n: nat, updates: seq<nat>) returns (steps: seq<Step>)
    requires Within(updates, n) && Distinct(updates) && n < Flow.MODULUS && !Increasing(updates)
    ensures InOrderRun(isn, n, steps) && Final(Initial(isn), steps).updates <= updates && !AcksForward(isn, steps)
  {
    var p := Descent(updates);
    var q, front, a, b := Marked(isn, n, 0), updates[..p + 2], updates[p], updates[p + 1];
    MarkedSegments(isn, n, 0);
    MarkedInOrder(isn, n, 0);
    assert front[p] == a && front[p + 1] == b;
    steps := AckHappens(isn, q, front, front, a);
    MarkedNumber(isn, n, 0, b);
    forall j | a <= j < n ensures NextOf(q[j]) != NextOf(q[b]) {
      MarkedNumber(isn, n, 0, j);
      NumbersApart(isn, b + 1, j + 1);
    }
    var s := Final(Initial(isn), steps);
    assert s.acks[0].ack == NextOf(q[b]) && s.acks[0].sender == a;
    assert !FromOnwards(s.arrived, s.acks[0].sender, s.acks[0].ack);
  }

  /** A sequence that is not increasing descends somewhere. */
  lemma Descent(updates: seq<nat>) returns (p: nat)
    requires Distinct(updates) && !Increasing(updates)
    ensures p + 1 < |updates| && updates[p + 1] < updates[p]
  {
    assert updates[..|updates|] == updates;
    p := 0;
    while updates[p] < updates[p + 1]
      invariant p + 1 < |updates| && Increasing(updates[..p + 1])
      decreases |updates| - p
    {
      IncreasingSnoc(updates, p + 1);
      p := p + 1;
    }
  }

  lemma IncreasingSnoc(updates: seq<nat>, m: nat)
    requires 0 < m < |updates| && Increasing(updates[..m]) && updates[m - 1] < updates[m]
    ensures Increasing(updates[..m + 1])
  {
    var front := updates[..m];
    forall j, k | 0 <= j < k < m + 1 ensures updates[j] < updates[k] {
      assert front[j] == updates[j] && front[m - 1] == updates[m - 1];
      if k < m {
        assert front[k] == updates[k];
      } else if j < m - 1 {
        assert front[j] < front[m - 1];
      }
    }
  }
}
