/**
  * SYNs of one key while the SOCKS connection of an earlier one is pending: when the flow in the table is the
  * one the host has synchronised with.
  */
module SynRace {
  import opened Bytes
  import opened TunWorker
  import FlowTable

  /** The coroutine a SYN starts; after Installed its SYN-ACK is still to be written. */
  datatype Pc = Connecting | Installed(flow: nat) | Over
  datatype Attempt = Attempt(key: FlowKey, isn: nat, pc: Pc)

  /** The host's connection of a key: its initial number, and the flow whose SYN-ACK it took. */
  datatype Connection = Connection(isn: nat, flow: Option<nat>)

  datatype State = State(t: FlowTable.State, attempts: seq<Attempt>, host: map<FlowKey, Connection>)

  datatype Step =
    | HostConnects(key: FlowKey, isn: nat)  // for the first time, or again
    | Syn(key: FlowKey, isn: nat)           // handled by the worker; perhaps a retransmission
    | Install(i: nat)                       // attempt i: the flow enters the table
    | SynAck(i: nat, ok: bool)              // attempt i: its SYN-ACK is written, or lost
    | GiveUp(i: nat)                        // attempt i: the SOCKS connection failed
    | Other(a: FlowTable.Step)              // of the coroutines of established flows, or a RST or FIN

  const EMPTY := State(FlowTable.EMPTY, [], map[])

  predicate Enabled(s: State, a: Step) {
    match a
    case HostConnects(_, _) => true
    case Syn(_, _) => true
    case Install(i) => i < |s.attempts| && s.attempts[i].pc.Connecting?
    case SynAck(i, _) => i < |s.attempts| && s.attempts[i].pc.Installed?
    case GiveUp(i) => i < |s.attempts| && s.attempts[i].pc.Connecting?
    case Other(b) => !b.Install? && FlowTable.Enabled(s.t, b)
  }

  function SetPc(s: State, i: nat, pc: Pc): State
    requires i < |s.attempts|
  {
    s.(attempts := s.attempts[i := s.attempts[i].(pc := pc)])
  }

  /** The host takes a SYN-ACK that acknowledges its own number, if it has taken none. */
  function HostTakes(host: map<FlowKey, Connection>, a: Attempt, flow: nat): map<FlowKey, Connection> {
    if a.key in host && host[a.key] == Connection(a.isn, None)
    then host[a.key := Connection(a.isn, Some(flow))] else host
  }

  function Apply(s: State, a: Step): State
    requires Enabled(s, a)
  {
    match a
    case HostConnects(key, isn) => s.(host := s.host[key := Connection(isn, None)])
    case Syn(key, isn) =>
      if key in s.t.table then s else s.(attempts := s.attempts + [Attempt(key, isn, Connecting)])
    case Install(i) =>
      SetPc(s, i, Installed(|s.t.flows|)).(t := FlowTable.Apply(s.t, FlowTable.Install(s.attempts[i].key)))
    case SynAck(i, ok) =>
      SetPc(s, i, Over).(host := if ok then HostTakes(s.host, s.attempts[i], s.attempts[i].pc.flow) else s.host)
    case GiveUp(i) => SetPc(s, i, Over)
    case Other(b) => s.(t := FlowTable.Apply(s.t, b))
  }

  /** The flow the host has synchronised with is the table's, if the table has one of its key. */
  ghost predicate Agreement(s: State) {
    forall key :: key in s.host && s.host[key].flow.Some? && key in s.t.table ==>
      s.t.table[key] == s.host[key].flow.value
  }

  // ---- When it holds ----

  predicate Pending(s: State, key: FlowKey) {
    exists i :: 0 <= i < |s.attempts| && s.attempts[i].key == key && !s.attempts[i].pc.Over?
  }

  predicate Synchronised(s: State, key: FlowKey) {
    key in s.host && s.host[key].flow.Some?
  }

  /** A SYN that starts an attempt does so when nothing of its key is under way or established at the host. */
  predicate Single(s: State, a: Step) {
    a.Syn? && a.key !in s.t.table ==> !Pending(s, a.key) && !Synchronised(s, a.key)
  }

  ghost predicate AttemptOk(s: State, i: nat)
    requires i < |s.attempts|
  {
    var a := s.attempts[i];
    !a.pc.Over? ==>
      && !Synchronised(s, a.key)
      && (forall j :: 0 <= j < |s.attempts| && j != i && !s.attempts[j].pc.Over? ==> s.attempts[j].key != a.key)
      && (a.pc.Installed? && a.key in s.t.table ==> s.t.table[a.key] == a.pc.flow)
  }

  ghost predicate Clean(s: State) {
    Agreement(s) && forall i :: 0 <= i < |s.attempts| ==> AttemptOk(s, i)
  }

  /** Steps that start no attempt, and touch the table only to remove from it. */
  lemma OtherKeepsClean(s: State, b: FlowTable.Step)
    requires Clean(s) && Enabled(s, Other(b))
    ensures Clean(Apply(s, Other(b)))
  {
    var s' := Apply(s, Other(b));
    assert forall key :: key in s'.t.table ==> key in s.t.table && s'.t.table[key] == s.t.table[key];
    forall i | 0 <= i < |s'.attempts| ensures AttemptOk(s', i) {
      assert AttemptOk(s, i);
    }
  }

  lemma InstallKeepsClean(s: State, i: nat)
    requires Clean(s) && Enabled(s, Install(i))
    ensures Clean(Apply(s, Install(i)))
  {
    var s' := Apply(s, Install(i));
    assert AttemptOk(s, i);
    forall j | 0 <= j < |s'.attempts| ensures AttemptOk(s', j) {
      assert AttemptOk(s, j);
    }
  }

  lemma SynAckKeepsClean(s: State, i: nat, ok: bool)
    requires Clean(s) && Enabled(s, SynAck(i, ok))
    ensures Clean(Apply(s, SynAck(i, ok)))
  {
    var s' := Apply(s, SynAck(i, ok));
    assert AttemptOk(s, i);
    forall j | 0 <= j < |s'.attempts| ensures AttemptOk(s', j) {
      assert AttemptOk(s, j);
    }
  }

  lemma HostKeepsClean(s: State, key: FlowKey, isn: nat)
    requires Clean(s)
    ensures Clean(Apply(s, HostConnects(key, isn)))
  {
    var s' := Apply(s, HostConnects(key, isn));
    forall j | 0 <= j < |s'.attempts| ensures AttemptOk(s', j) {
      assert AttemptOk(s, j);
    }
  }

  lemma GiveUpKeepsClean(s: State, i: nat)
    requires Clean(s) && Enabled(s, GiveUp(i))
    ensures Clean(Apply(s, GiveUp(i)))
  {
    var s' := Apply(s, GiveUp(i));
    forall j | 0 <= j < |s'.attempts| ensures AttemptOk(s', j) {
      assert AttemptOk(s, j);
    }
  }

  lemma SynKeepsClean(s: State, key: FlowKey, isn: nat)
    requires Clean(s) && Single(s, Syn(key, isn))
    ensures Clean(Apply(s, Syn(key, isn)))
  {
    var s' := Apply(s, Syn(key, isn));
    forall j | 0 <= j < |s'.attempts| ensures AttemptOk(s', j) {
      if j < |s.attempts| {
        assert AttemptOk(s, j);
      }
    }
  }

  lemma StepKeepsClean(s: State, a: Step)
    requires Clean(s) && Enabled(s, a) && Single(s, a)
    ensures Clean(Apply(s, a))
  {
    match a
    case HostConnects(key, isn) => HostKeepsClean(s, key, isn);
    case Syn(key, isn) => SynKeepsClean(s, key, isn);
    case Install(i) => InstallKeepsClean(s, i);
    case SynAck(i, ok) => SynAckKeepsClean(s, i, ok);
    case GiveUp(i) => GiveUpKeepsClean(s, i);
    case Other(b) => OtherKeepsClean(s, b);
  }

  // ---- Runs ----

  predicate IsRun(s: State, steps: seq<Step>)
    decreases |steps|
  {
    steps == [] || (Enabled(s, steps[0]) && IsRun(Apply(s, steps[0]), steps[1..]))
  }

  function Final(s: State, steps: seq<Step>): State
    requires IsRun(s, steps)
    decreases |steps|
  {
    if steps == [] then s else Final(Apply(s, steps[0]), steps[1..])
  }

  predicate SingleRun(s: State, steps: seq<Step>)
    requires IsRun(s, steps)
    decreases |steps|
  {
    steps == [] || (Single(s, steps[0]) && SingleRun(Apply(s, steps[0]), steps[1..]))
  }

  lemma {:induction false} RunKeepsClean(s: State, steps: seq<Step>)
    requires Clean(s) && IsRun(s, steps) && SingleRun(s, steps)
    ensures Clean(Final(s, steps))
    decreases |steps|
  {
    if steps != [] {
      StepKeepsClean(s, steps[0]);
      RunKeepsClean(Apply(s, steps[0]), steps[1..]);
    }
  }

  /** Over every run whose SYNs are single, host and table agree. */
  lemma SingleRunsAgree(steps: seq<Step>)
    requires IsRun(EMPTY, steps) && SingleRun(EMPTY, steps)
    ensures Clean(Final(EMPTY, steps)) && Agreement(Final(EMPTY, steps))
  {
    RunKeepsClean(EMPTY, steps);
  }

  lemma StepThen(s: State, a: Step, rest: seq<Step>)
    requires Enabled(s, a) && IsRun(Apply(s, a), rest)
    ensures IsRun(s, [a] + rest) && Final(s, [a] + rest) == Final(Apply(s, a), rest)
    ensures Single(s, a) && SingleRun(Apply(s, a), rest) ==> SingleRun(s, [a] + rest)
  {
    assert ([a] + rest)[1..] == rest;
  }

  /** Attempt i puts its flow in the table when the host has another. */
  lemma InstallDisagrees(s: State, i: nat, key: FlowKey) returns (steps: seq<Step>)
    requires Enabled(s, Install(i)) && s.attempts[i].key == key && Synchronised(s, key)
    requires s.host[key].flow.value < |s.t.flows|
    ensures IsRun(s, steps) && SingleRun(s, steps) && !Agreement(Final(s, steps))
  {
    steps := [Install(i)] + [];
    StepThen(s, Install(i), []);
    var s' := Apply(s, Install(i));
    assert key in s'.host && s'.t.table[key] == |s.t.flows| != s'.host[key].flow.value;
  }

  /** Attempt j, installed, answers a host that connects with its number; then attempt i installs another flow. */
  lemma AnswerDisagrees(s: State, j: nat, i: nat, key: FlowKey) returns (steps: seq<Step>)
    requires Enabled(s, SynAck(j, true)) && s.attempts[j].pc.flow < |s.t.flows| && i != j
    requires Enabled(s, Install(i)) && s.attempts[i].key == s.attempts[j].key == key
    ensures IsRun(s, steps) && SingleRun(s, steps) && !Agreement(Final(s, steps))
  {
    var isn := s.attempts[j].isn;
    var s1 := Apply(s, HostConnects(key, isn));
    var s2 := Apply(s1, SynAck(j, true));
    steps := InstallDisagrees(s2, i, key);
    StepThen(s1, SynAck(j, true), steps);
    StepThen(s, HostConnects(key, isn), [SynAck(j, true)] + steps);
    steps := [HostConnects(key, isn)] + ([SynAck(j, true)] + steps);
  }

  lemma BothConnecting(s: State, j: nat, i: nat, key: FlowKey) returns (steps: seq<Step>)
    requires Enabled(s, Install(j)) && Enabled(s, Install(i)) && i != j
    requires s.attempts[i].key == s.attempts[j].key == key
    ensures IsRun(s, steps) && SingleRun(s, steps) && !Agreement(Final(s, steps))
  {
    steps := AnswerDisagrees(Apply(s, Install(j)), j, i, key);
    StepThen(s, Install(j), steps);
    steps := [Install(j)] + steps;
  }

  /** Flows the host or an attempt names have been installed. */
  predicate Named(s: State) {
    && (forall key :: key in s.host && s.host[key].flow.Some? ==> s.host[key].flow.value < |s.t.flows|)
    && (forall i :: 0 <= i < |s.attempts| && s.attempts[i].pc.Installed? ==> s.attempts[i].pc.flow < |s.t.flows|)
  }

  lemma {:induction false} RunKeepsNamed(s: State, steps: seq<Step>)
    requires Named(s) && IsRun(s, steps)
    ensures Named(Final(s, steps))
    decreases |steps|
  {
    if steps != [] {
      StepKeepsNamed(s, steps[0]);
      RunKeepsNamed(Apply(s, steps[0]), steps[1..]);
    }
  }

  lemma StepKeepsNamed(s: State, a: Step)
    requires Named(s) && Enabled(s, a)
    ensures Named(Apply(s, a))
  {
  }

  lemma SynDisagrees(s: State, key: FlowKey, isn: nat) returns (steps: seq<Step>)
    requires Named(s) && !Single(s, Syn(key, isn))
    ensures var s' := Apply(s, Syn(key, isn));
            IsRun(s', steps) && SingleRun(s', steps) && !Agreement(Final(s', steps))
  {
    var s', i := Apply(s, Syn(key, isn)), |s.attempts|;
    if Synchronised(s, key) {
      steps := InstallDisagrees(s', i, key);
    } else {
      var j :| 0 <= j < |s.attempts| && s.attempts[j].key == key && !s.attempts[j].pc.Over?;
      assert s'.attempts[j] == s.attempts[j];
      if s.attempts[j].pc.Connecting? {
        steps := BothConnecting(s', j, i, key);
      } else {
        steps := AnswerDisagrees(s', j, i, key);
      }
    }
  }

  /**
    * Exactly which SYNs are safe.  After a run with single SYNs, another step keeps host and table in agreement
    * whatever follows with single SYNs if and only if it is not a SYN that starts an attempt while another of
    * its key is pending or the host is synchronised.
    */
  lemma AgreementIff(steps: seq<Step>, a: Step)
    requires IsRun(EMPTY, steps) && SingleRun(EMPTY, steps) && Enabled(Final(EMPTY, steps), a)
    ensures var s := Final(EMPTY, steps);
            (forall more :: IsRun(Apply(s, a), more) && SingleRun(Apply(s, a), more) ==>
               Agreement(Final(Apply(s, a), more)))
            <==> Single(s, a)
  {
    var s := Final(EMPTY, steps);
    SingleRunsAgree(steps);
    RunKeepsNamed(EMPTY, steps);
    if Single(s, a) {
      StepKeepsClean(s, a);
      forall more | IsRun(Apply(s, a), more) && SingleRun(Apply(s, a), more)
        ensures Agreement(Final(Apply(s, a), more))
      {
        RunKeepsClean(Apply(s, a), more);
      }
    } else {
      var more := SynDisagrees(s, a.key, a.isn);
    }
  }

  /** One SYN and its retransmission: the host talks to the first flow, its data goes to the second. */
  lemma RetransmittedSyn(key: FlowKey, isn: nat) returns (steps: seq<Step>)
    ensures IsRun(EMPTY, steps)
    ensures var s := Final(EMPTY, steps);
            && |s.t.flows| == 2 && key in s.host && s.host[key] == Connection(isn, Some(0))
            && key in s.t.table && s.t.table[key] == 1
  {
    var s1 := Apply(EMPTY, HostConnects(key, isn));
    var s2 := Apply(s1, Syn(key, isn));
    var s3 := Apply(s2, Syn(key, isn));
    var s4 := Apply(s3, Install(0));
    var s5 := Apply(s4, SynAck(0, true));
    StepThen(s5, Install(1), []);
    StepThen(s4, SynAck(0, true), [Install(1)] + []);
    StepThen(s3, Install(0), [SynAck(0, true)] + ([Install(1)] + []));
    StepThen(s2, Syn(key, isn), [Install(0)] + ([SynAck(0, true)] + ([Install(1)] + [])));
    StepThen(s1, Syn(key, isn), [Syn(key, isn)] + ([Install(0)] + ([SynAck(0, true)] + ([Install(1)] + []))));
    steps := [Syn(key, isn)] + ([Syn(key, isn)] + ([Install(0)] + ([SynAck(0, true)] + ([Install(1)] + []))));
    StepThen(EMPTY, HostConnects(key, isn), steps);
    steps := [HostConnects(key, isn)] + steps;
  }
}
