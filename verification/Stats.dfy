/** The connection counters: Stats itself, and any number of connection threads interleaving on it. */
module Stats {

  // ---- The object ----

  class SecretStats {
    var active: int
    var total: int

    constructor ()
      ensures active == 0 && total == 0
    {
      active, total := 0, 0;
    }
  }

  class Stats {
    var activeConns: int
    var totalConns: int
    var perSecret: map<string, SecretStats>

    constructor ()
      ensures Valid() && activeConns == 0 && totalConns == 0 && perSecret == map[]
    {
      activeConns, totalConns, perSecret := 0, 0, map[];
    }

    /** No two names share a record. */
    ghost predicate Valid()
      reads this
    {
      forall n, m :: n in perSecret && m in perSecret && n != m ==> perSecret[n] != perSecret[m]
    }

    /** secretStats, called with the mutex held: an existing record is kept, a new one starts at zero. */
    method SecretStatsOf(name: string) returns (ss: SecretStats)
      requires Valid()
      modifies this`perSecret
      ensures Valid() && perSecret == old(perSecret)[name := ss]
      ensures name in old(perSecret) ==> ss == old(perSecret)[name]
      ensures name !in old(perSecret) ==> fresh(ss) && ss.active == 0 && ss.total == 0
    {
      if name !in perSecret {
        ss := new SecretStats();
        perSecret := perSecret[name := ss];
      } else {
        ss := perSecret[name];
      }
    }

    /** ConnOpen, run without interference. */
    method ConnOpen(name: string)
      requires Valid()
      modifies this, set n | n in perSecret :: perSecret[n]
      ensures Valid() && activeConns == old(activeConns) + 1 && totalConns == old(totalConns) + 1
      ensures perSecret.Keys == old(perSecret.Keys) + {name}
      ensures forall n :: n in old(perSecret) ==> perSecret[n] == old(perSecret)[n]
      ensures forall n :: n in old(perSecret) && n != name ==>
                perSecret[n].active == old(perSecret[n].active) && perSecret[n].total == old(perSecret[n].total)
      ensures perSecret[name].active == (if name in old(perSecret) then old(perSecret[name].active) else 0) + 1
      ensures perSecret[name].total == (if name in old(perSecret) then old(perSecret[name].total) else 0) + 1
    {
      activeConns := activeConns + 1;
      totalConns := totalConns + 1;
      var ss := SecretStatsOf(name);
      ss.active := ss.active + 1;
      ss.total := ss.total + 1;
    }

    /** ConnClose after a ConnOpen of the same name. */
    method ConnClose(name: string)
      requires Valid()
      modifies this, set n | n in perSecret :: perSecret[n]
      ensures Valid() && activeConns == old(activeConns) - 1 && totalConns == old(totalConns)
      ensures perSecret.Keys == old(perSecret.Keys) + {name}
      ensures forall n :: n in old(perSecret) ==>
                perSecret[n] == old(perSecret)[n] && perSecret[n].total == old(perSecret[n].total)
      ensures forall n :: n in old(perSecret) && n != name ==> perSecret[n].active == old(perSecret[n].active)
      ensures perSecret[name].active == (if name in old(perSecret) then old(perSecret[name].active) else 0) - 1
    {
      activeConns := activeConns - 1;
      var ss := SecretStatsOf(name);
      ss.active := ss.active - 1;
    }
  }

  // ---- Interleavings ----

  /** Where a connection thread is in handle: ConnOpen, the relay, the deferred ConnClose. */
  datatype Pc =
    | Start     // about to add to activeConns
    | OpenTotal // about to add to totalConns
    | OpenLock  // about to take the mutex and look the record up
    | OpenActive // about to add to the record's active
    | OpenRecord // about to add to the record's total
    | Relaying  // ConnOpen has returned
    | CloseLock // activeConns taken back, about to look the record up
    | CloseActive // about to take back the record's active
    | Done

  /** A thread for one connection; ref is the record it last looked up. */
  datatype Thread = Thread(name: string, pc: Pc, ref: nat)

  /** A record; owner (history only) is the name it was created for. */
  datatype Record = Record(owner: string, active: int, total: int)

  /** Records are numbered; the map holds their numbers, as Go's map holds pointers. */
  datatype State = State(
    activeConns: int,
    totalConns: int,
    perSecret: map<string, nat>,
    records: seq<Record>,
    threads: seq<Thread>)

  datatype Step = Spawn(name: string) | Run(t: nat)

  const EMPTY := State(0, 0, map[], [], [])

  /** A thread between its lookup and its last use of the record holds a record number. */
  predicate Enabled(s: State, a: Step) {
    a.Run? ==>
      && a.t < |s.threads| && s.threads[a.t].pc != Pc.Done
      && (HoldsRecord(s.threads[a.t].pc) ==> s.threads[a.t].ref < |s.records|)
  }

  predicate HoldsRecord(pc: Pc) {
    pc.OpenActive? || pc.OpenRecord? || pc.CloseActive?
  }

  function SetThread(s: State, t: nat, th: Thread): State
    requires t < |s.threads|
  {
    s.(threads := s.threads[t := th])
  }

  /** secretStats under the mutex. */
  function Lookup(s: State, name: string): State {
    if name in s.perSecret then s
    else s.(perSecret := s.perSecret[name := |s.records|], records := s.records + [Record(name, 0, 0)])
  }

  function AddRecord(s: State, r: nat, active: int, total: int): State
    requires r < |s.records|
  {
    s.(records := s.records[r := Record(s.records[r].owner, s.records[r].active + active, s.records[r].total + total)])
  }

  /** One atomic step of a thread. */
  function RunThread(s: State, t: nat): State
    requires Enabled(s, Run(t))
  {
    var th := s.threads[t];
    match th.pc
    case Start => SetThread(s.(activeConns := s.activeConns + 1), t, th.(pc := OpenTotal))
    case OpenTotal => SetThread(s.(totalConns := s.totalConns + 1), t, th.(pc := OpenLock))
    case OpenLock =>
      var s' := Lookup(s, th.name);
      SetThread(s', t, th.(pc := OpenActive, ref := s'.perSecret[th.name]))
    case OpenActive => SetThread(AddRecord(s, th.ref, 1, 0), t, th.(pc := OpenRecord))
    case OpenRecord => SetThread(AddRecord(s, th.ref, 0, 1), t, th.(pc := Relaying))
    case Relaying => SetThread(s.(activeConns := s.activeConns - 1), t, th.(pc := CloseLock))
    case CloseLock =>
      var s' := Lookup(s, th.name);
      SetThread(s', t, th.(pc := CloseActive, ref := s'.perSecret[th.name]))
    case CloseActive => SetThread(AddRecord(s, th.ref, -1, 0), t, th.(pc := Pc.Done))
  }

  function Apply(s: State, a: Step): State
    requires Enabled(s, a)
  {
    match a
    case Spawn(name) => s.(threads := s.threads + [Thread(name, Start, 0)])
    case Run(t) => RunThread(s, t)
  }

  // ---- What each thread contributes ----

  /** To activeConns and totalConns. */
  function GlobalActive(t: Thread): int {
    if t.pc.Start? || t.pc.CloseLock? || t.pc.CloseActive? || t.pc.Done? then 0 else 1
  }

  function GlobalTotal(t: Thread): int {
    if t.pc.Start? || t.pc.OpenTotal? then 0 else 1
  }

  /** To the record of its name. */
  function RecordActive(t: Thread): int {
    if t.pc.OpenRecord? || t.pc.Relaying? || t.pc.CloseLock? || t.pc.CloseActive? then 1 else 0
  }

  function RecordTotal(t: Thread): int {
    if t.pc.Start? || t.pc.OpenTotal? || t.pc.OpenLock? || t.pc.OpenActive? || t.pc.OpenRecord? then 0 else 1
  }

  function Sum(f: Thread -> int, ts: seq<Thread>): int {
    if ts == [] then 0 else f(ts[0]) + Sum(f, ts[1..])
  }

  /** f restricted to the threads of one name. */
  function Named(f: Thread -> int, name: string): Thread -> int {
    (t: Thread) => if t.name == name then f(t) else 0
  }

  lemma {:induction false} SumUpdate(f: Thread -> int, ts: seq<Thread>, i: nat, t: Thread)
    requires i < |ts|
    ensures Sum(f, ts[i := t]) == Sum(f, ts) - f(ts[i]) + f(t)
  {
    if i == 0 {
      assert ts[0 := t][1..] == ts[1..];
    } else {
      assert ts[i := t][1..] == ts[1..][i - 1 := t];
      SumUpdate(f, ts[1..], i - 1, t);
    }
  }

  lemma {:induction false} SumSnoc(f: Thread -> int, ts: seq<Thread>, t: Thread)
    ensures Sum(f, ts + [t]) == Sum(f, ts) + f(t)
  {
    if ts == [] {
      assert ts + [t] == [t];
    } else {
      assert (ts + [t])[1..] == ts[1..] + [t];
      SumSnoc(f, ts[1..], t);
    }
  }

  lemma {:induction false} SumNonNegative(f: Thread -> int, ts: seq<Thread>)
    requires forall i :: 0 <= i < |ts| ==> f(ts[i]) >= 0
    ensures Sum(f, ts) >= 0
  {
    if ts != [] {
      assert forall i :: 0 <= i < |ts[1..]| ==> f(ts[1..][i]) == f(ts[i + 1]);
      SumNonNegative(f, ts[1..]);
    }
  }

  function TotalActive(rs: seq<Record>): int {
    if rs == [] then 0 else TotalActive(rs[..|rs| - 1]) + rs[|rs| - 1].active
  }

  function TotalTotal(rs: seq<Record>): int {
    if rs == [] then 0 else TotalTotal(rs[..|rs| - 1]) + rs[|rs| - 1].total
  }

  lemma {:induction false} TotalsUpdate(rs: seq<Record>, r: nat, x: Record)
    requires r < |rs|
    ensures TotalActive(rs[r := x]) == TotalActive(rs) - rs[r].active + x.active
    ensures TotalTotal(rs[r := x]) == TotalTotal(rs) - rs[r].total + x.total
  {
    var n := |rs| - 1;
    if r < n {
      assert rs[r := x][..n] == rs[..n][r := x];
      TotalsUpdate(rs[..n], r, x);
    } else {
      assert rs[r := x][..n] == rs[..n];
    }
  }

  lemma TotalsSnoc(rs: seq<Record>, x: Record)
    ensures TotalActive(rs + [x]) == TotalActive(rs) + x.active
    ensures TotalTotal(rs + [x]) == TotalTotal(rs) + x.total
  {
    assert (rs + [x])[..|rs|] == rs;
  }

  // ---- The invariant ----

  /** The map and the records are each other's inverse: one record for each name, however many first opens race. */
  ghost predicate MapOk(s: State) {
    && (forall name :: name in s.perSecret ==>
          s.perSecret[name] < |s.records| && s.records[s.perSecret[name]].owner == name)
    && (forall r :: 0 <= r < |s.records| ==> s.records[r].owner in s.perSecret && s.perSecret[s.records[r].owner] == r)
  }

  /** From its first lookup on, a thread's name has a record, and the one it holds is that record. */
  ghost predicate ThreadOk(s: State, t: Thread) {
    && (!t.pc.Start? && !t.pc.OpenTotal? && !t.pc.OpenLock? ==> t.name in s.perSecret)
    && (HoldsRecord(t.pc) ==> t.name in s.perSecret && t.ref == s.perSecret[t.name])
  }

  ghost predicate RecordOk(s: State, r: nat)
    requires r < |s.records|
  {
    && s.records[r].active == Sum(Named(RecordActive, s.records[r].owner), s.threads)
    && s.records[r].total == Sum(Named(RecordTotal, s.records[r].owner), s.threads)
  }

  ghost predicate Inv(s: State) {
    && MapOk(s)
    && (forall t :: 0 <= t < |s.threads| ==> ThreadOk(s, s.threads[t]))
    && s.activeConns == Sum(GlobalActive, s.threads)
    && s.totalConns == Sum(GlobalTotal, s.threads)
    && TotalActive(s.records) == Sum(RecordActive, s.threads)
    && TotalTotal(s.records) == Sum(RecordTotal, s.threads)
    && (forall r :: 0 <= r < |s.records| ==> RecordOk(s, r))
  }

  /** s' differs from s by thread t moving to th', with every counter changed by what th' contributes beyond it. */
  ghost predicate Moves(s: State, s': State, t: nat, th': Thread)
    requires t < |s.threads|
  {
    var th := s.threads[t];
    && th'.name == th.name && s'.threads == s.threads[t := th']
    && s'.perSecret == s.perSecret && |s'.records| == |s.records|
    && s'.activeConns == s.activeConns - GlobalActive(th) + GlobalActive(th')
    && s'.totalConns == s.totalConns - GlobalTotal(th) + GlobalTotal(th')
    && TotalActive(s'.records) == TotalActive(s.records) - RecordActive(th) + RecordActive(th')
    && TotalTotal(s'.records) == TotalTotal(s.records) - RecordTotal(th) + RecordTotal(th')
    && forall r :: 0 <= r < |s.records| ==> RecordMoves(s.records[r], s'.records[r], th, th')
  }

  ghost predicate RecordMoves(x: Record, x': Record, th: Thread, th': Thread) {
    && x'.owner == x.owner
    && x'.active == x.active - Named(RecordActive, x.owner)(th) + Named(RecordActive, x.owner)(th')
    && x'.total == x.total - Named(RecordTotal, x.owner)(th) + Named(RecordTotal, x.owner)(th')
  }

  lemma MoveKeepsInv(s: State, s': State, t: nat, th': Thread)
    requires Inv(s) && t < |s.threads| && Moves(s, s', t, th') && ThreadOk(s', th')
    ensures Inv(s')
  {
    SumUpdate(GlobalActive, s.threads, t, th');
    SumUpdate(GlobalTotal, s.threads, t, th');
    SumUpdate(RecordActive, s.threads, t, th');
    SumUpdate(RecordTotal, s.threads, t, th');
    forall r | 0 <= r < |s.records| ensures RecordOk(s', r) && s'.records[r].owner == s.records[r].owner {
      assert RecordMoves(s.records[r], s'.records[r], s.threads[t], th') && RecordOk(s, r);
      SumUpdate(Named(RecordActive, s.records[r].owner), s.threads, t, th');
      SumUpdate(Named(RecordTotal, s.records[r].owner), s.threads, t, th');
    }
    forall i | 0 <= i < |s'.threads| ensures ThreadOk(s', s'.threads[i]) {
      if i != t {
        assert ThreadOk(s, s.threads[i]);
      }
    }
  }

  lemma {:induction false} SumZero(f: Thread -> int, ts: seq<Thread>)
    requires forall i :: 0 <= i < |ts| ==> f(ts[i]) == 0
    ensures Sum(f, ts) == 0
  {
    if ts != [] {
      assert forall i :: 0 <= i < |ts[1..]| ==> f(ts[1..][i]) == f(ts[i + 1]);
      SumZero(f, ts[1..]);
    }
  }

  /** Nobody contributes to a name without a record. */
  lemma NotCounted(s: State, name: string)
    requires Inv(s) && name !in s.perSecret
    ensures Sum(Named(RecordActive, name), s.threads) == 0 && Sum(Named(RecordTotal, name), s.threads) == 0
  {
    forall i | 0 <= i < |s.threads|
      ensures Named(RecordActive, name)(s.threads[i]) == 0 && Named(RecordTotal, name)(s.threads[i]) == 0
    {
      var th := s.threads[i];
      assert ThreadOk(s, th);
      assert th.name == name ==> RecordActive(th) == 0 && RecordTotal(th) == 0;
    }
    SumZero(Named(RecordActive, name), s.threads);
    SumZero(Named(RecordTotal, name), s.threads);
  }

  /** A lookup of a new name adds a record that no thread contributes to yet. */
  lemma LookupKeepsInv(s: State, name: string)
    requires Inv(s)
    ensures Inv(Lookup(s, name)) && name in Lookup(s, name).perSecret && Lookup(s, name).threads == s.threads
  {
    var s' := Lookup(s, name);
    if name !in s.perSecret {
      TotalsSnoc(s.records, Record(name, 0, 0));
      forall i | 0 <= i < |s.threads| ensures ThreadOk(s', s.threads[i]) {
        assert ThreadOk(s, s.threads[i]);
      }
      LookupRecords(s, name);
    }
  }

  lemma LookupRecords(s: State, name: string)
    requires Inv(s) && name !in s.perSecret
    ensures var s' := Lookup(s, name); forall r :: 0 <= r < |s'.records| ==> RecordOk(s', r)
  {
    var s' := Lookup(s, name);
    NotCounted(s, name);
    forall r | 0 <= r < |s'.records| ensures RecordOk(s', r) {
      if r < |s.records| {
        assert RecordOk(s, r);
      }
    }
  }

  /** Adding to a thread's own record is a move of that thread. */
  lemma AddIsMove(s: State, t: nat, th': Thread, active: int, total: int)
    requires Inv(s) && t < |s.threads| && HoldsRecord(s.threads[t].pc)
    requires th'.name == s.threads[t].name
    requires active == RecordActive(th') - RecordActive(s.threads[t])
    requires total == RecordTotal(th') - RecordTotal(s.threads[t])
    requires GlobalActive(th') == GlobalActive(s.threads[t]) && GlobalTotal(th') == GlobalTotal(s.threads[t])
    ensures s.threads[t].ref < |s.records|
    ensures Moves(s, SetThread(AddRecord(s, s.threads[t].ref, active, total), t, th'), t, th')
  {
    assert ThreadOk(s, s.threads[t]);
    var ref := s.threads[t].ref;
    var s' := SetThread(AddRecord(s, ref, active, total), t, th');
    TotalsUpdate(s.records, ref, s'.records[ref]);
    forall r | 0 <= r < |s.records| ensures RecordMoves(s.records[r], s'.records[r], s.threads[t], th') {
      assert r != ref ==> s.records[r].owner != s.threads[t].name;
    }
  }

  /** A step on the global counters only. */
  lemma GlobalStepKeepsInv(s: State, t: nat)
    requires Inv(s) && Enabled(s, Run(t))
    requires var pc := s.threads[t].pc; pc.Start? || pc.OpenTotal? || pc.Relaying?
    ensures Inv(RunThread(s, t))
  {
    var s' := RunThread(s, t);
    assert ThreadOk(s, s.threads[t]);
    assert s'.records == s.records;
    MoveKeepsInv(s, s', t, s'.threads[t]);
  }

  /** A thread that moves without changing what it contributes. */
  lemma NeutralKeepsInv(s: State, t: nat, th': Thread)
    requires t < |s.threads| && th'.name == s.threads[t].name
    requires GlobalActive(th') == GlobalActive(s.threads[t]) && GlobalTotal(th') == GlobalTotal(s.threads[t])
    requires RecordActive(th') == RecordActive(s.threads[t]) && RecordTotal(th') == RecordTotal(s.threads[t])
    requires Inv(s) && ThreadOk(s, th')
    ensures Inv(SetThread(s, t, th'))
  {
    MoveKeepsInv(s, SetThread(s, t, th'), t, th');
  }

  lemma LookupStepKeepsInv(s: State, t: nat)
    requires Inv(s) && Enabled(s, Run(t))
    requires var pc := s.threads[t].pc; pc.OpenLock? || pc.CloseLock?
    ensures Inv(RunThread(s, t))
  {
    if s.threads[t].pc.OpenLock? {
      LookupMoveKeepsInv(s, t, OpenActive);
    } else {
      LookupMoveKeepsInv(s, t, CloseActive);
    }
  }

  /** Taking the mutex and looking the record up changes no contribution. */
  lemma SameContribution(th: Thread, next: Pc, ref: nat)
    requires (th.pc == OpenLock && next == OpenActive) || (th.pc == CloseLock && next == CloseActive)
    ensures var th' := th.(pc := next, ref := ref);
            && GlobalActive(th') == GlobalActive(th) && GlobalTotal(th') == GlobalTotal(th)
            && RecordActive(th') == RecordActive(th) && RecordTotal(th') == RecordTotal(th)
  {
  }

  lemma LookupMoveKeepsInv(s: State, t: nat, next: Pc)
    requires Inv(s) && t < |s.threads|
    requires var pc := s.threads[t].pc;
             (pc == OpenLock && next == OpenActive) || (pc == CloseLock && next == CloseActive)
    ensures var th, s1 := s.threads[t], Lookup(s, s.threads[t].name);
            Inv(SetThread(s1, t, th.(pc := next, ref := s1.perSecret[th.name])))
  {
    var th, s1 := s.threads[t], Lookup(s, s.threads[t].name);
    LookupKeepsInv(s, th.name);
    SameContribution(th, next, s1.perSecret[th.name]);
    NeutralKeepsInv(s1, t, th.(pc := next, ref := s1.perSecret[th.name]));
  }

  lemma RecordStepKeepsInv(s: State, t: nat)
    requires Inv(s) && Enabled(s, Run(t)) && HoldsRecord(s.threads[t].pc)
    ensures Inv(RunThread(s, t))
  {
    var th, s' := s.threads[t], RunThread(s, t);
    var th' := s'.threads[t];
    assert ThreadOk(s, th);
    AddIsMove(s, t, th', RecordActive(th') - RecordActive(th), RecordTotal(th') - RecordTotal(th));
    MoveKeepsInv(s, s', t, th');
  }

  lemma RunKeepsInv(s: State, t: nat)
    requires Inv(s) && Enabled(s, Run(t))
    ensures Inv(RunThread(s, t))
  {
    var pc := s.threads[t].pc;
    if HoldsRecord(pc) {
      RecordStepKeepsInv(s, t);
    } else if pc.OpenLock? || pc.CloseLock? {
      LookupStepKeepsInv(s, t);
    } else {
      GlobalStepKeepsInv(s, t);
    }
  }

  lemma SpawnKeepsInv(s: State, name: string)
    requires Inv(s)
    ensures Inv(Apply(s, Spawn(name)))
  {
    var th, s' := Thread(name, Start, 0), Apply(s, Spawn(name));
    SumSnoc(GlobalActive, s.threads, th);
    SumSnoc(GlobalTotal, s.threads, th);
    SumSnoc(RecordActive, s.threads, th);
    SumSnoc(RecordTotal, s.threads, th);
    forall r | 0 <= r < |s.records| ensures RecordOk(s', r) {
      assert RecordOk(s, r);
      SumSnoc(Named(RecordActive, s.records[r].owner), s.threads, th);
      SumSnoc(Named(RecordTotal, s.records[r].owner), s.threads, th);
    }
    forall i | 0 <= i < |s'.threads| ensures ThreadOk(s', s'.threads[i]) {
      assert i < |s.threads| ==> ThreadOk(s, s.threads[i]);
    }
  }

  // ---- Runs ----

  predicate IsRun(s: State, steps: seq<Step>)
    decreases |steps|
  {
    steps == [] || (Enabled(s, steps[0]) && IsRun(Apply(s, steps[0]), steps[1..]))
  }

  function Final(s: State, steps: seq<Step>): State
    requires IsRun(s, steps)
    decreases |steps|
  {
    if steps == [] then s else Final(Apply(s, steps[0]), steps[1..])
  }

  lemma {:induction false} StepsKeepInv(s: State, steps: seq<Step>)
    requires Inv(s) && IsRun(s, steps)
    ensures Inv(Final(s, steps))
    decreases |steps|
  {
    if steps != [] {
      match steps[0] {
        case Spawn(name) => SpawnKeepsInv(s, name);
        case Run(t) => RunKeepsInv(s, t);
      }
      StepsKeepInv(Apply(s, steps[0]), steps[1..]);
    }
  }

  /** Inside ConnOpen, between its first and its matching later update. */
  function MidOpen(t: Thread): int {
    if t.pc.OpenTotal? || t.pc.OpenLock? || t.pc.OpenActive? then 1 else 0
  }

  function MidTotal(t: Thread): int {
    if t.pc.OpenLock? || t.pc.OpenActive? || t.pc.OpenRecord? then 1 else 0
  }

  /** Inside ConnClose, between its two updates. */
  function MidClose(t: Thread): int {
    if t.pc.CloseLock? || t.pc.CloseActive? then 1 else 0
  }

  lemma {:induction false} Contributions(ts: seq<Thread>)
    ensures Sum(GlobalActive, ts) == Sum(RecordActive, ts) + Sum(MidOpen, ts) - Sum(MidClose, ts)
    ensures Sum(GlobalTotal, ts) == Sum(RecordTotal, ts) + Sum(MidTotal, ts)
  {
    if ts != [] {
      Contributions(ts[1..]);
    }
  }

  /** Conservation, in every reachable state of any number of threads. */
  lemma Conservation(steps: seq<Step>)
    requires IsRun(EMPTY, steps)
    ensures var s := Final(EMPTY, steps);
            && MapOk(s)
            && s.activeConns == TotalActive(s.records) + Sum(MidOpen, s.threads) - Sum(MidClose, s.threads)
            && s.totalConns == TotalTotal(s.records) + Sum(MidTotal, s.threads)
            && (s.activeConns == TotalActive(s.records) <==> Sum(MidOpen, s.threads) == Sum(MidClose, s.threads))
            && s.activeConns >= 0 && s.totalConns >= 0
            && forall r :: 0 <= r < |s.records| ==> s.records[r].active >= 0 && s.records[r].total >= 0
  {
    StepsKeepInv(EMPTY, steps);
    var s := Final(EMPTY, steps);
    Contributions(s.threads);
    SumNonNegative(GlobalActive, s.threads);
    SumNonNegative(GlobalTotal, s.threads);
    forall r | 0 <= r < |s.records| ensures s.records[r].active >= 0 && s.records[r].total >= 0 {
      assert RecordOk(s, r);
      var owner := s.records[r].owner;
      forall i | 0 <= i < |s.threads|
        ensures Named(RecordActive, owner)(s.threads[i]) >= 0 && Named(RecordTotal, owner)(s.threads[i]) >= 0
      {
        assert RecordActive(s.threads[i]) >= 0 && RecordTotal(s.threads[i]) >= 0;
      }
      SumNonNegative(Named(RecordActive, owner), s.threads);
      SumNonNegative(Named(RecordTotal, owner), s.threads);
    }
  }

  /** No thread is ever stuck: until it is done it can take its next step. */
  lemma ThreadsCanRun(steps: seq<Step>, t: nat)
    requires IsRun(EMPTY, steps) && t < |Final(EMPTY, steps).threads|
    ensures Enabled(Final(EMPTY, steps), Run(t)) <==> Final(EMPTY, steps).threads[t].pc != Pc.Done
  {
    StepsKeepInv(EMPTY, steps);
    assert ThreadOk(Final(EMPTY, steps), Final(EMPTY, steps).threads[t]);
  }

  /** When no call is in progress the sums agree, and each record counts its name's live connections. */
  lemma QuietAgreement(steps: seq<Step>)
    requires IsRun(EMPTY, steps)
    requires forall t :: 0 <= t < |Final(EMPTY, steps).threads| ==>
               var pc := Final(EMPTY, steps).threads[t].pc; pc.Start? || pc.Relaying? || pc.Done?
    ensures var s := Final(EMPTY, steps);
            && s.activeConns == TotalActive(s.records) && s.totalConns == TotalTotal(s.records)
            && s.activeConns == Sum(Live, s.threads)
            && forall r :: 0 <= r < |s.records| ==>
                 s.records[r].active == Sum(Named(Live, s.records[r].owner), s.threads)
  {
    Conservation(steps);
    StepsKeepInv(EMPTY, steps);
    var s := Final(EMPTY, steps);
    forall i | 0 <= i < |s.threads| ensures Quiet(s.threads[i]) {
      assert var pc := s.threads[i].pc; pc.Start? || pc.Relaying? || pc.Done?;
    }
    SumZero(MidOpen, s.threads);
    SumZero(MidClose, s.threads);
    SumZero(MidTotal, s.threads);
    SumSame(GlobalActive, Live, s.threads);
    forall r | 0 <= r < |s.records| ensures s.records[r].active == Sum(Named(Live, s.records[r].owner), s.threads) {
      QuietRecord(s, r);
    }
  }

  lemma QuietRecord(s: State, r: nat)
    requires r < |s.records| && RecordOk(s, r) && forall i :: 0 <= i < |s.threads| ==> Quiet(s.threads[i])
    ensures s.records[r].active == Sum(Named(Live, s.records[r].owner), s.threads)
  {
    SumSame(Named(RecordActive, s.records[r].owner), Named(Live, s.records[r].owner), s.threads);
  }

  predicate Quiet(t: Thread) {
    && MidOpen(t) == 0 && MidClose(t) == 0 && MidTotal(t) == 0
    && GlobalActive(t) == Live(t) == RecordActive(t)
  }

  function Live(t: Thread): int {
    if t.pc.Relaying? then 1 else 0
  }

  lemma {:induction false} SumSame(f: Thread -> int, g: Thread -> int, ts: seq<Thread>)
    requires forall i :: 0 <= i < |ts| ==> f(ts[i]) == g(ts[i])
    ensures Sum(f, ts) == Sum(g, ts)
  {
    if ts != [] {
      assert forall i :: 0 <= i < |ts[1..]| ==> ts[1..][i] == ts[i + 1];
      SumSame(f, g, ts[1..]);
    }
  }

  // ---- The machine's threads run the object's code ----

  function Repeat(t: nat, n: nat): seq<Step> {
    if n == 0 then [] else [Run(t)] + Repeat(t, n - 1)
  }

  lemma RunOnce(s: State, t: nat, n: nat)
    requires Enabled(s, Run(t)) && IsRun(RunThread(s, t), Repeat(t, n))
    ensures IsRun(s, Repeat(t, n + 1)) && Final(s, Repeat(t, n + 1)) == Final(RunThread(s, t), Repeat(t, n))
  {
    assert Repeat(t, n + 1)[1..] == Repeat(t, n);
  }

  function Plus(x: Record, active: int, total: int): Record {
    Record(x.owner, x.active + active, x.total + total)
  }

  /** s' is s after one more connection of name by thread t: each counter has moved as given, and no other record. */
  predicate Counted(s: State, s': State, t: nat, pc: Pc, active: int, total: int) {
    && t < |s.threads| == |s'.threads| && s'.threads[t].pc == pc && s'.threads[t].name == s.threads[t].name
    && (forall i :: 0 <= i < |s.threads| && i != t ==> s'.threads[i] == s.threads[i])
    && s'.activeConns == s.activeConns + active && s'.totalConns == s.totalConns + total
    && var s1 := Lookup(s, s.threads[t].name);
       && s'.perSecret == s1.perSecret && |s'.records| == |s1.records|
       && s.threads[t].name in s1.perSecret
       && forall r :: 0 <= r < |s1.records| ==>
            s'.records[r] == if r != s1.perSecret[s.threads[t].name] then s1.records[r]
                             else Plus(s1.records[r], active, total)
  }

  /** After the two updates of the global counters. */
  function Opening(s: State, t: nat): State
    requires t < |s.threads|
  {
    SetThread(s, t, s.threads[t].(pc := OpenLock)).(activeConns := s.activeConns + 1, totalConns := s.totalConns + 1)
  }

  /** After the lookup and the two updates of the record. */
  function Opened(s: State, t: nat): State
    requires t < |s.threads| && MapOk(Lookup(s, s.threads[t].name))
  {
    var s1 := Lookup(s, s.threads[t].name);
    var ref := s1.perSecret[s.threads[t].name];
    SetThread(AddRecord(s1, ref, 1, 1), t, s.threads[t].(pc := Relaying, ref := ref))
  }

  lemma OpeningRuns(s: State, t: nat, n: nat)
    requires t < |s.threads| && s.threads[t].pc.Start? && IsRun(Opening(s, t), Repeat(t, n))
    ensures IsRun(s, Repeat(t, n + 2)) && Final(s, Repeat(t, n + 2)) == Final(Opening(s, t), Repeat(t, n))
  {
    var s1 := RunThread(s, t);
    assert RunThread(s1, t) == Opening(s, t);
    RunOnce(s1, t, n);
    RunOnce(s, t, n + 1);
  }

  lemma OpenedRuns(s: State, t: nat)
    requires t < |s.threads| && s.threads[t].pc.OpenLock? && MapOk(Lookup(s, s.threads[t].name))
    ensures IsRun(s, Repeat(t, 3)) && Final(s, Repeat(t, 3)) == Opened(s, t)
  {
    var s1 := RunThread(s, t);
    var s2 := RunThread(s1, t);
    var s3 := RunThread(s2, t);
    assert s3.records == Opened(s, t).records && s3.threads == Opened(s, t).threads;
    assert Repeat(t, 0) == [];
    RunOnce(s2, t, 0);
    RunOnce(s1, t, 1);
    RunOnce(s, t, 2);
  }

  /** ConnOpen, undisturbed, is five steps of its thread. */
  lemma OpenRuns(s: State, t: nat)
    requires Inv(s) && t < |s.threads| && s.threads[t].pc.Start?
    ensures IsRun(s, Repeat(t, 5)) && Counted(s, Final(s, Repeat(t, 5)), t, Relaying, 1, 1)
  {
    LookupKeepsInv(s, s.threads[t].name);
    OpenedCounts(s, t);
    OpenedRuns(Opening(s, t), t);
    OpeningRuns(s, t, 3);
  }

  lemma OpenedCounts(s: State, t: nat)
    requires t < |s.threads| && MapOk(Lookup(s, s.threads[t].name))
    ensures MapOk(Lookup(Opening(s, t), Opening(s, t).threads[t].name))
    ensures Counted(s, Opened(Opening(s, t), t), t, Relaying, 1, 1)
  {
    var s2 := Opening(s, t);
    assert Lookup(s2, s2.threads[t].name).perSecret == Lookup(s, s.threads[t].name).perSecret;
    assert Lookup(s2, s2.threads[t].name).records == Lookup(s, s.threads[t].name).records;
  }

  /** ConnClose, undisturbed, is three. */
  lemma CloseRuns(s: State, t: nat)
    requires Inv(s) && t < |s.threads| && s.threads[t].pc.Relaying?
    ensures IsRun(s, Repeat(t, 3)) && Counted(s, Final(s, Repeat(t, 3)), t, Pc.Done, -1, 0)
  {
    var s1 := RunThread(s, t);
    var s2 := RunThread(s1, t);
    RunKeepsInv(s, t);
    RunKeepsInv(s1, t);
    assert ThreadOk(s2, s2.threads[t]);
    RunOnce(s2, t, 0);
    RunOnce(s1, t, 1);
    RunOnce(s, t, 2);
  }
}
