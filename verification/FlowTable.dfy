/**
  * The flow table when a key is used again: a coroutine closes whatever flow has its key by then, which need
  * not be its own.
  */
module FlowTable {
  import opened TunWorker

  /** A flow and its coroutines that may still call closeFlow: the relay, and those forwarding a data segment. */
  datatype Entry = Entry(key: FlowKey, closed: bool, coroutines: nat)

  /** Flows are numbered in the order they enter the table. */
  datatype State = State(table: map<FlowKey, nat>, flows: seq<Entry>)

  datatype Step =
    | Install(key: FlowKey)     // a SYN's coroutine, whatever is in the table by then
    | Launch(i: nat)            // a data segment finds flow i
    | Finish(i: nat)            // a coroutine of flow i ends without an error
    | CloseBy(i: nat)           // the relay of flow i ends, or forwarding fails
    | CloseByHost(key: FlowKey) // RST or FIN

  const EMPTY := State(map[], [])

  function Close(s: State, key: FlowKey): State {
    if key in s.table && s.table[key] < |s.flows| then
      var i := s.table[key];
      State(s.table - {key}, s.flows[i := s.flows[i].(closed := true)])
    else s
  }

  predicate Enabled(s: State, a: Step) {
    match a
    case Install(_) => true
    case Launch(i) => i < |s.flows| && s.flows[i].key in s.table && s.table[s.flows[i].key] == i
    case Finish(i) => i < |s.flows| && 0 < s.flows[i].coroutines
    case CloseBy(i) => i < |s.flows| && 0 < s.flows[i].coroutines
    case CloseByHost(_) => true
  }

  function Coroutines(s: State, i: nat, n: nat): State
    requires i < |s.flows|
  {
    s.(flows := s.flows[i := s.flows[i].(coroutines := n)])
  }

  function Apply(s: State, a: Step): State
    requires Enabled(s, a)
  {
    match a
    case Install(key) => State(s.table[key := |s.flows|], s.flows + [Entry(key, false, 1)])
    case Launch(i) => Coroutines(s, i, s.flows[i].coroutines + 1)
    case Finish(i) => Coroutines(s, i, s.flows[i].coroutines - 1)
    case CloseBy(i) => Close(Coroutines(s, i, s.flows[i].coroutines - 1), s.flows[i].key)
    case CloseByHost(key) => Close(s, key)
  }

  /** The table has, for each key, the newest of its flows or none; and exactly flows not closed. */
  ghost predicate Inv(s: State) {
    forall key :: key in s.table ==> IsNewest(s, key, s.table[key])
  }

  ghost predicate IsNewest(s: State, key: FlowKey, i: nat) {
    && i < |s.flows| && s.flows[i].key == key && !s.flows[i].closed
    && forall j :: i < j < |s.flows| ==> s.flows[j].key != key
  }

  lemma StepKeepsInv(s: State, a: Step)
    requires Inv(s) && Enabled(s, a)
    ensures Inv(Apply(s, a))
  {
    match a
    case CloseBy(i) =>
      CountKeepsInv(s, i, s.flows[i].coroutines - 1);
      CloseKeepsInv(Coroutines(s, i, s.flows[i].coroutines - 1), s.flows[i].key);
    case CloseByHost(key) => CloseKeepsInv(s, key);
    case Launch(i) => CountKeepsInv(s, i, s.flows[i].coroutines + 1);
    case Finish(i) => CountKeepsInv(s, i, s.flows[i].coroutines - 1);
    case Install(key) => InstallKeepsInv(s, key);
  }

  lemma InstallKeepsInv(s: State, key: FlowKey)
    requires Inv(s)
    ensures Inv(Apply(s, Install(key)))
  {
    var s' := Apply(s, Install(key));
    forall k | k in s'.table ensures IsNewest(s', k, s'.table[k]) {
      assert k != key ==> IsNewest(s, k, s.table[k]);
    }
  }

  lemma CountKeepsInv(s: State, i: nat, n: nat)
    requires Inv(s) && i < |s.flows|
    ensures Inv(Coroutines(s, i, n))
  {
    var s' := Coroutines(s, i, n);
    forall key | key in s'.table ensures IsNewest(s', key, s'.table[key]) {
      assert IsNewest(s, key, s.table[key]);
    }
  }

  lemma CloseKeepsInv(s: State, key: FlowKey)
    requires Inv(s)
    ensures Inv(Close(s, key))
  {
    var s' := Close(s, key);
    forall k | k in s'.table ensures IsNewest(s', k, s'.table[k]) {
      assert IsNewest(s, k, s.table[k]);
      assert key in s.table ==> IsNewest(s, key, s.table[key]);
    }
  }

  /** Closing by a coroutine of flow i would take another flow out of the table. */
  predicate Foreign(s: State, i: nat)
    requires i < |s.flows|
  {
    s.flows[i].key in s.table && s.table[s.flows[i].key] != i
  }

  /** No coroutine can close a flow that is not its own. */
  ghost predicate Harmless(s: State) {
    forall i :: 0 <= i < |s.flows| && Enabled(s, CloseBy(i)) ==> !Foreign(s, i)
  }

  /** All coroutines of the key's flows have ended. */
  predicate Quiet(s: State, key: FlowKey) {
    forall i :: 0 <= i < |s.flows| && s.flows[i].key == key ==> s.flows[i].coroutines == 0
  }

  /** A foreign close hits a newer flow with the same key. */
  lemma ForeignIsNewer(s: State, i: nat)
    requires Inv(s) && Enabled(s, CloseBy(i)) && Foreign(s, i)
    ensures var j := s.table[s.flows[i].key];
            && i < j < |s.flows| && s.flows[j].key == s.flows[i].key && !s.flows[j].closed
            && Apply(s, CloseBy(i)).flows[j].closed && s.flows[i].key !in Apply(s, CloseBy(i)).table
  {
  }

  /** A harmless state stays so exactly unless a flow enters under a key that still has coroutines. */
  lemma HarmlessStepIff(s: State, a: Step)
    requires Inv(s) && Harmless(s) && Enabled(s, a)
    ensures Harmless(Apply(s, a)) <==> (a.Install? ==> Quiet(s, a.key))
  {
    var s' := Apply(s, a);
    if a.Install? {
      InstallIff(s, a.key);
    } else {
      forall i | 0 <= i < |s'.flows| && Enabled(s', CloseBy(i)) ensures !Foreign(s', i) {
        assert a.Launch? || Enabled(s, CloseBy(i));
      }
    }
  }

  lemma InstallIff(s: State, key: FlowKey)
    requires Inv(s) && Harmless(s)
    ensures Harmless(Apply(s, Install(key))) <==> Quiet(s, key)
  {
    var s' := Apply(s, Install(key));
    if Quiet(s, key) {
      forall i | 0 <= i < |s'.flows| && Enabled(s', CloseBy(i)) ensures !Foreign(s', i) {
        if i < |s.flows| {
          assert Enabled(s, CloseBy(i));
        }
      }
    } else {
      var i :| 0 <= i < |s.flows| && s.flows[i].key == key && s.flows[i].coroutines != 0;
      assert Enabled(s', CloseBy(i)) && Foreign(s', i);
    }
  }

  // ---- Runs ----

  predicate IsRun(s: State, steps: seq<Step>)
    decreases |steps|
  {
    steps == [] || (Enabled(s, steps[0]) && IsRun(Apply(s, steps[0]), steps[1..]))
  }

  function Final(s: State, steps: seq<Step>): State
    requires IsRun(s, steps)
    decreases |steps|
  {
    if steps == [] then s else Final(Apply(s, steps[0]), steps[1..])
  }

  /** Nowhere along the run can a coroutine close another's flow. */
  ghost predicate HarmlessRun(s: State, steps: seq<Step>)
    requires IsRun(s, steps)
    decreases |steps|
  {
    Harmless(s) && (steps == [] || HarmlessRun(Apply(s, steps[0]), steps[1..]))
  }

  /** Every flow enters when the coroutines of older flows with its key have ended. */
  predicate QuietInstalls(s: State, steps: seq<Step>)
    requires IsRun(s, steps)
    decreases |steps|
  {
    steps == [] ||
    ((steps[0].Install? ==> Quiet(s, steps[0].key)) && QuietInstalls(Apply(s, steps[0]), steps[1..]))
  }

  lemma {:induction false} HarmlessFrom(s: State, steps: seq<Step>)
    requires Inv(s) && Harmless(s) && IsRun(s, steps)
    ensures HarmlessRun(s, steps) <==> QuietInstalls(s, steps)
    decreases |steps|
  {
    if steps != [] {
      var s' := Apply(s, steps[0]);
      StepKeepsInv(s, steps[0]);
      HarmlessStepIff(s, steps[0]);
      if Harmless(s') {
        HarmlessFrom(s', steps[1..]);
      } else {
        assert !HarmlessRun(s', steps[1..]);
      }
    }
  }

  /** Over every run: coroutines only ever close their own flow if and only if no key is taken while in use. */
  lemma OwnFlowsIff(steps: seq<Step>)
    requires IsRun(EMPTY, steps)
    ensures HarmlessRun(EMPTY, steps) <==> QuietInstalls(EMPTY, steps)
  {
    HarmlessFrom(EMPTY, steps);
  }

  /** A connection is reset and made again; then the old relay ends and tears down the new flow. */
  lemma OldRelayClosesNewFlow(key: FlowKey)
    ensures var steps := [Install(key), CloseByHost(key), Install(key), CloseBy(0)];
            && IsRun(EMPTY, steps)
            && var s := Final(EMPTY, steps); s.table == map[] && |s.flows| == 2 && s.flows[1] == Entry(key, true, 1)
  {
    var s1 := Apply(EMPTY, Install(key));
    var s2 := Apply(s1, CloseByHost(key));
    var s3 := Apply(s2, Install(key));
    var s4 := Apply(s3, CloseBy(0));
    assert s4.table == map[] && s4.flows[1] == Entry(key, true, 1);
    var steps := [Install(key), CloseByHost(key), Install(key), CloseBy(0)];
    assert steps[1..][1..][1..] == [CloseBy(0)] && steps[1..][1..][1..][1..] == [];
    assert Final(s3, [CloseBy(0)]) == s4;
    assert IsRun(s2, steps[1..][1..]) && Final(s2, steps[1..][1..]) == s4;
    assert IsRun(s1, steps[1..]) && Final(s1, steps[1..]) == s4;
  }
}
