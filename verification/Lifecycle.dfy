/**
  * The Android client's start and stop as atomic steps of any number of callers, with the session
  * goroutines they leave behind.
  */
module Lifecycle {
  import opened Bytes

  /** A session goroutine; before Spawned its context exists but the goroutine does not. */
  datatype Pc =
    | Created    // inside start
    | Abandoned  // start failed
    | Spawned    // about to listen
    | Accepting  // in the accept loop
    | Returned   // runSocks5Listener has returned
    | Over       // running has been set to false

  datatype Session = Session(pc: Pc, port: nat, cancelled: bool, listening: bool)

  /** Who holds the mutex, and where; callers that wait for it have no effect. */
  datatype Lock =
    | Free
    | Check(port: nat)
    | Dial(id: nat)
    | Auth(id: nat)
    | Publish(id: nat)     // about to store cancelFunc
    | SetRunning(id: nat)
    | Launch(id: nat)      // about to start the goroutine
    | Cancel               // stop, about to call cancelFunc
    | ClearFunc            // stop, about to forget it
    | Unlock

  /** Contexts and sessions are numbered in order of creation; cancelFunc cancels one context. */
  datatype State = State(lock: Lock, running: bool, cancelFunc: Option<nat>, sessions: seq<Session>)

  datatype Step =
    | CallStart(port: nat)
    | CallStop
    | Proceed(ok: bool)         // the lock holder's next step; ok is the outcome of dialling or authenticating
    | Listen(id: nat, ok: bool)
    | CloseListener(id: nat)    // the goroutine waiting for the context to end
    | AcceptFails(id: nat)      // the listener was closed, or any other error
    | Exit(id: nat)             // the deferred running.Store(false)

  const INITIAL := State(Free, false, None, [])

  predicate PortFree(s: State, port: nat) {
    forall i :: 0 <= i < |s.sessions| && s.sessions[i].listening ==> s.sessions[i].port != port
  }

  predicate Enabled(s: State, a: Step) {
    match a
    case CallStart(_) => s.lock.Free?
    case CallStop => s.lock.Free?
    case Proceed(_) => !s.lock.Free? && (HasId(s.lock) ==> s.lock.id < |s.sessions|)
                    && (s.lock.Cancel? && s.cancelFunc.Some? ==> s.cancelFunc.value < |s.sessions|)
    case Listen(id, ok) => id < |s.sessions| && s.sessions[id].pc.Spawned? && (ok ==> PortFree(s, s.sessions[id].port))
    case CloseListener(id) => id < |s.sessions| && s.sessions[id].cancelled && s.sessions[id].listening
    case AcceptFails(id) => id < |s.sessions| && s.sessions[id].pc.Accepting?
    case Exit(id) => id < |s.sessions| && s.sessions[id].pc.Returned?
  }

  predicate HasId(l: Lock) {
    l.Dial? || l.Auth? || l.Publish? || l.SetRunning? || l.Launch?
  }

  function SetSession(s: State, id: nat, x: Session): State
    requires id < |s.sessions|
  {
    s.(sessions := s.sessions[id := x])
  }

  /** start, or stop, one step further. */
  function Advance(s: State, ok: bool): State
    requires Enabled(s, Proceed(ok))
  {
    match s.lock
    case Check(port) =>
      if s.running then s.(lock := Unlock)
      else s.(lock := Dial(|s.sessions|), sessions := s.sessions + [Session(Created, port, false, false)])
    case Dial(id) => if ok then s.(lock := Auth(id)) else Abandon(s, id)
    case Auth(id) => if ok then s.(lock := Publish(id)) else Abandon(s, id)
    case Publish(id) => s.(lock := SetRunning(id), cancelFunc := Some(id))
    case SetRunning(id) => s.(lock := Launch(id), running := true)
    case Launch(id) => SetSession(s, id, s.sessions[id].(pc := Spawned)).(lock := Unlock)
    case Cancel =>
      if s.cancelFunc.None? then s.(lock := Unlock)
      else SetSession(s, s.cancelFunc.value, s.sessions[s.cancelFunc.value].(cancelled := true)).(lock := ClearFunc)
    case ClearFunc => s.(lock := Unlock, cancelFunc := None)
    case Unlock => s.(lock := Free)
  }

  /** start gives up: it cancels its own context. */
  function Abandon(s: State, id: nat): State
    requires id < |s.sessions|
  {
    SetSession(s, id, s.sessions[id].(pc := Abandoned, cancelled := true)).(lock := Unlock)
  }

  function Apply(s: State, a: Step): State
    requires Enabled(s, a)
  {
    match a
    case CallStart(port) => s.(lock := Check(port))
    case CallStop => s.(lock := Cancel)
    case Proceed(ok) => Advance(s, ok)
    case Listen(id, ok) => SetSession(s, id, s.sessions[id].(pc := if ok then Accepting else Returned, listening := ok))
    case CloseListener(id) => SetSession(s, id, s.sessions[id].(listening := false))
    case AcceptFails(id) => SetSession(s, id, s.sessions[id].(pc := Returned))
    case Exit(id) => SetSession(s, id, s.sessions[id].(pc := Over)).(running := false)
  }

  // ---- The invariant ----

  /** The session whose flag running is: launched or about to be, and not out yet. */
  predicate Alive(s: State, i: nat)
    requires i < |s.sessions|
  {
    s.sessions[i].pc.Spawned? || s.sessions[i].pc.Accepting? || s.sessions[i].pc.Returned? || s.lock == Launch(i)
  }

  ghost predicate SessionOk(s: State, i: nat, current: nat)
    requires i < |s.sessions|
  {
    && (s.sessions[i].pc.Created? <==> HasId(s.lock) && s.lock.id == i)
    && (Alive(s, i) ==> s.running && i == current)
    && (Alive(s, i) ==> s.cancelFunc == Some(i) || s.sessions[i].cancelled)
    && (s.sessions[i].listening ==> s.sessions[i].pc.Accepting? || s.sessions[i].pc.Returned? || s.sessions[i].pc.Over?)
  }

  ghost predicate LockOk(s: State) {
    && (HasId(s.lock) ==> s.lock.id < |s.sessions|)
    && (s.lock.Dial? || s.lock.Auth? || s.lock.Publish? || s.lock.SetRunning? ==> !s.running)
    && (s.lock.SetRunning? || s.lock.Launch? ==> s.cancelFunc == Some(s.lock.id))
    && (s.cancelFunc.Some? ==> s.cancelFunc.value < |s.sessions|)
    && (s.lock.ClearFunc? ==> s.cancelFunc.Some? && s.sessions[s.cancelFunc.value].cancelled)
  }

  /** Two open listeners never share a port. */
  ghost predicate PortsOk(s: State) {
    forall i, j :: 0 <= i < |s.sessions| && 0 <= j < |s.sessions| && i != j
        && s.sessions[i].listening && s.sessions[j].listening
      ==> s.sessions[i].port != s.sessions[j].port
  }

  /** running says that session current is alive; no other one is. */
  ghost predicate Inv(s: State, current: nat) {
    && LockOk(s) && PortsOk(s)
    && (s.running ==> current < |s.sessions| && Alive(s, current))
    && (forall i :: 0 <= i < |s.sessions| ==> SessionOk(s, i, current))
  }

  lemma AdvanceKeepsInv(s: State, ok: bool, current: nat) returns (current': nat)
    requires Inv(s, current) && Enabled(s, Proceed(ok))
    ensures Inv(Advance(s, ok), current')
  {
    var s' := Advance(s, ok);
    current' := if s.lock.SetRunning? then s.lock.id else current;
    forall i | 0 <= i < |s'.sessions| ensures SessionOk(s', i, current') {
      if i < |s.sessions| {
        assert SessionOk(s, i, current);
      }
    }
  }

  lemma StepKeepsInv(s: State, a: Step, current: nat) returns (current': nat)
    requires Inv(s, current) && Enabled(s, a)
    ensures Inv(Apply(s, a), current')
  {
    if a.Proceed? {
      current' := AdvanceKeepsInv(s, a.ok, current);
    } else {
      current' := current;
      var s' := Apply(s, a);
      forall i | 0 <= i < |s'.sessions| ensures SessionOk(s', i, current') {
        assert SessionOk(s, i, current);
        assert a.Exit? ==> SessionOk(s, a.id, current);
      }
    }
  }

  // ---- Runs ----

  predicate IsRun(s: State, steps: seq<Step>)
    decreases |steps|
  {
    steps == [] || (Enabled(s, steps[0]) && IsRun(Apply(s, steps[0]), steps[1..]))
  }

  function Final(s: State, steps: seq<Step>): State
    requires IsRun(s, steps)
    decreases |steps|
  {
    if steps == [] then s else Final(Apply(s, steps[0]), steps[1..])
  }

  lemma {:induction false} RunKeepsInv(s: State, steps: seq<Step>, current: nat) returns (current': nat)
    requires Inv(s, current) && IsRun(s, steps)
    ensures Inv(Final(s, steps), current')
    decreases |steps|
  {
    current' := current;
    if steps != [] {
      current' := StepKeepsInv(s, steps[0], current);
      current' := RunKeepsInv(Apply(s, steps[0]), steps[1..], current');
    }
  }

  /**
    * In every reachable state at most one session is alive, so at most one accept loop runs; running is
    * true exactly while there is one; it can be cancelled through cancelFunc or already has been; and a
    * session about to clear the flag is the one whose flag it is.
    */
  lemma LifecycleSafety(steps: seq<Step>)
    requires IsRun(INITIAL, steps)
    ensures var s := Final(INITIAL, steps);
            && (forall i, j :: 0 <= i < |s.sessions| && 0 <= j < |s.sessions| && Alive(s, i) && Alive(s, j) ==> i == j)
            && (s.running <==> exists i :: 0 <= i < |s.sessions| && Alive(s, i))
            && (forall i :: 0 <= i < |s.sessions| && Alive(s, i) ==> s.cancelFunc == Some(i) || s.sessions[i].cancelled)
            && PortsOk(s)
  {
    var current := RunKeepsInv(INITIAL, steps, 0);
    var s := Final(INITIAL, steps);
    forall i | 0 <= i < |s.sessions|
      ensures Alive(s, i) ==> i == current && s.running && (s.cancelFunc == Some(i) || s.sessions[i].cancelled)
    {
      assert SessionOk(s, i, current);
    }
  }

  /** Leaving: clearing the flag is never a newer session's loss, since no other session is alive. */
  lemma ExitClearsOwnFlag(steps: seq<Step>, id: nat)
    requires IsRun(INITIAL, steps) && Enabled(Final(INITIAL, steps), Exit(id))
    ensures var s := Final(INITIAL, steps);
            && s.running
            && forall i :: 0 <= i < |s.sessions| && i != id ==> !Alive(s, i) && !Alive(Apply(s, Exit(id)), i)
  {
    LifecycleSafety(steps);
    var s := Final(INITIAL, steps);
    assert Alive(s, id);
  }

  /** The mutex holder is never stuck: start and stop always get to release it. */
  lemma HolderCanProceed(steps: seq<Step>, ok: bool)
    requires IsRun(INITIAL, steps)
    ensures Enabled(Final(INITIAL, steps), Proceed(ok)) <==> !Final(INITIAL, steps).lock.Free?
  {
    var current := RunKeepsInv(INITIAL, steps, 0);
  }

  // ---- Listeners left behind ----

  /**
    * A session that is over, its listener still open, its context not cancelled and no longer reachable
    * through cancelFunc.  (An accept loop that ends on its own error does not close the listener.)
    */
  predicate Leaked(s: State, i: nat)
    requires i < |s.sessions|
  {
    s.sessions[i].pc.Over? && s.sessions[i].listening && !s.sessions[i].cancelled && s.cancelFunc != Some(i)
  }

  /** A leaked listener stays open for ever, so no later session can listen on its port. */
  lemma LeakIsForever(s: State, a: Step, i: nat, current: nat)
    requires Inv(s, current) && Enabled(s, a) && i < |s.sessions| && Leaked(s, i)
    ensures Leaked(Apply(s, a), i)
    ensures a.Listen? && s.sessions[a.id].port == s.sessions[i].port ==> !a.ok
  {
    assert SessionOk(s, i, current);
  }

  /**
    * Exactly which step loses a listener: start stores a new cancelFunc over that of a session which ended by
    * itself and was not stopped.
    */
  lemma LeakIff(s: State, a: Step, i: nat, current: nat)
    requires Inv(s, current) && Enabled(s, a) && i < |s.sessions| && !Leaked(s, i)
    ensures Leaked(Apply(s, a), i) <==>
            && a.Proceed? && s.lock.Publish? && s.cancelFunc == Some(i)
            && s.sessions[i].pc.Over? && s.sessions[i].listening && !s.sessions[i].cancelled
  {
    assert SessionOk(s, i, current);
    var s' := Apply(s, a);
    if a.Exit? && a.id == i {
      assert Alive(s, i);
    }
  }

  ghost predicate SomeLeaked(s: State) {
    exists i :: 0 <= i < |s.sessions| && Leaked(s, i)
  }

  /** start is about to store its cancelFunc over that of a session that is over with its listener open. */
  predicate Losing(s: State, a: Step) {
    && a.Proceed? && s.lock.Publish? && s.cancelFunc.Some? && s.cancelFunc.value < |s.sessions|
    && var x := s.sessions[s.cancelFunc.value]; x.pc.Over? && x.listening && !x.cancelled
  }

  predicate LosesSome(s: State, steps: seq<Step>)
    requires IsRun(s, steps)
    decreases |steps|
  {
    steps != [] && (Losing(s, steps[0]) || LosesSome(Apply(s, steps[0]), steps[1..]))
  }

  /** Every start that gets through finds no cancelFunc: there was a stop since the last one. */
  predicate StopsBetween(s: State, steps: seq<Step>)
    requires IsRun(s, steps)
    decreases |steps|
  {
    steps == [] ||
    ((steps[0].Proceed? && s.lock.Publish? ==> s.cancelFunc.None?) && StopsBetween(Apply(s, steps[0]), steps[1..]))
  }

  lemma StepLeaks(s: State, a: Step, current: nat)
    requires Inv(s, current) && Enabled(s, a)
    ensures SomeLeaked(Apply(s, a)) <==> SomeLeaked(s) || Losing(s, a)
  {
    var s' := Apply(s, a);
    if SomeLeaked(s) {
      var i :| 0 <= i < |s.sessions| && Leaked(s, i);
      LeakIsForever(s, a, i, current);
      assert Leaked(s', i);
    } else if Losing(s, a) {
      LeakIff(s, a, s.cancelFunc.value, current);
      assert Leaked(s', s.cancelFunc.value);
    } else {
      forall i | 0 <= i < |s'.sessions| ensures !Leaked(s', i) {
        if i < |s.sessions| {
          LeakIff(s, a, i, current);
        }
      }
    }
  }

  lemma {:induction false} LeaksFrom(s: State, steps: seq<Step>, current: nat)
    requires Inv(s, current) && IsRun(s, steps)
    ensures SomeLeaked(Final(s, steps)) <==> SomeLeaked(s) || LosesSome(s, steps)
    ensures StopsBetween(s, steps) ==> !LosesSome(s, steps)
    decreases |steps|
  {
    if steps != [] {
      StepLeaks(s, steps[0], current);
      var next := StepKeepsInv(s, steps[0], current);
      LeaksFrom(Apply(s, steps[0]), steps[1..], next);
    }
  }

  /**
    * Over every run: a listener is lost at its end if and only if some step of it stored a cancelFunc over
    * that of an unstopped session that had ended; so none ever is when there is a stop between starts.
    */
  lemma LeakedIff(steps: seq<Step>)
    requires IsRun(INITIAL, steps)
    ensures SomeLeaked(Final(INITIAL, steps)) <==> LosesSome(INITIAL, steps)
    ensures StopsBetween(INITIAL, steps) ==> !SomeLeaked(Final(INITIAL, steps))
  {
    LeaksFrom(INITIAL, steps, 0);
  }

  lemma StepThen(s: State, a: Step, rest: seq<Step>)
    requires Enabled(s, a) && IsRun(Apply(s, a), rest)
    ensures IsRun(s, [a] + rest) && Final(s, [a] + rest) == Final(Apply(s, a), rest)
  {
    assert ([a] + rest)[1..] == rest;
  }

  /** n successful steps of the lock holder, then rest. */
  function Proceeds(n: nat, rest: seq<Step>): seq<Step> {
    if n == 0 then rest else [Proceed(true)] + Proceeds(n - 1, rest)
  }

  /** A start that goes through, from the moment it holds the mutex at Check. */
  lemma StartGoesThrough(s: State, port: nat, rest: seq<Step>)
    requires s.lock.Free? && !s.running
    requires IsRun(Started(s, port), rest)
    ensures IsRun(s, [CallStart(port)] + Proceeds(7, rest))
    ensures Final(s, [CallStart(port)] + Proceeds(7, rest)) == Final(Started(s, port), rest)
  {
    var id := |s.sessions|;
    var created := s.sessions + [Session(Created, port, false, false)];
    var s1 := s.(lock := Check(port));
    var s2 := s.(lock := Dial(id), sessions := created);
    var s3, s4 := s2.(lock := Auth(id)), s2.(lock := Publish(id));
    var s5 := s2.(lock := SetRunning(id), cancelFunc := Some(id));
    var s6 := s5.(lock := Launch(id), running := true);
    var s7 := Started(s, port).(lock := Unlock);
    assert created[id := Session(Spawned, port, false, false)] == s.sessions + [Session(Spawned, port, false, false)];
    assert Apply(s1, Proceed(true)) == s2 && Apply(s2, Proceed(true)) == s3 && Apply(s3, Proceed(true)) == s4;
    assert Apply(s4, Proceed(true)) == s5 && Apply(s5, Proceed(true)) == s6 && Apply(s6, Proceed(true)) == s7;
    assert Apply(s7, Proceed(true)) == Started(s, port);
    assert Proceeds(0, rest) == rest;
    StepThen(s7, Proceed(true), rest);
    StepThen(s6, Proceed(true), Proceeds(1, rest));
    StepThen(s5, Proceed(true), Proceeds(2, rest));
    StepThen(s4, Proceed(true), Proceeds(3, rest));
    StepThen(s3, Proceed(true), Proceeds(4, rest));
    StepThen(s2, Proceed(true), Proceeds(5, rest));
    StepThen(s1, Proceed(true), Proceeds(6, rest));
    StepThen(s, CallStart(port), Proceeds(7, rest));
  }

  function Started(s: State, port: nat): State {
    State(Free, true, Some(|s.sessions|), s.sessions + [Session(Spawned, port, false, false)])
  }

  /** The accept loop of session id runs and ends on an error of its own. */
  function Collapse(id: nat, rest: seq<Step>): seq<Step> {
    [Listen(id, true)] + ([AcceptFails(id)] + ([Exit(id)] + rest))
  }

  /** A listener can be lost: a session fails by itself and start is called again without stop. */
  lemma LeakHappens(port: nat)
    ensures var steps := [CallStart(port)] + Proceeds(7, Collapse(0, [CallStart(port)] + Proceeds(7, [])));
            IsRun(INITIAL, steps) && |Final(INITIAL, steps).sessions| == 2 && Leaked(Final(INITIAL, steps), 0)
  {
    var s1 := Started(INITIAL, port);
    var s2 := Apply(s1, Listen(0, true));
    var s3 := Apply(s2, AcceptFails(0));
    var s4 := Apply(s3, Exit(0));
    var again := [CallStart(port)] + Proceeds(7, []);
    StartGoesThrough(s4, port, []);
    StepThen(s3, Exit(0), again);
    StepThen(s2, AcceptFails(0), [Exit(0)] + again);
    StepThen(s1, Listen(0, true), [AcceptFails(0)] + ([Exit(0)] + again));
    StartGoesThrough(INITIAL, port, Collapse(0, again));
  }

  // ---- The client object ----

  /** The steps of one call of start that waits for nobody, by how far it gets. */
  function StartSteps(running: bool, port: nat, dialled: bool, accepted: bool): seq<Step> {
    [CallStart(port)] +
    if running then Proceeds(2, [])
    else if !dialled then Proceeds(1, [Proceed(false), Proceed(true)])
    else if !accepted then Proceeds(2, [Proceed(false), Proceed(true)])
    else Proceeds(7, [])
  }

  function StopSteps(cancelFunc: Option<nat>): seq<Step> {
    [CallStop] + Proceeds(if cancelFunc.None? then 2 else 3, [])
  }

  /** A failed start leaves nothing but a cancelled context. */
  function Failed(s: State, port: nat): State {
    s.(sessions := s.sessions + [Session(Abandoned, port, true, false)])
  }

  function Stopped(s: State): State
    requires s.cancelFunc.Some? ==> s.cancelFunc.value < |s.sessions|
  {
    if s.cancelFunc.None? then s
    else SetSession(s, s.cancelFunc.value, s.sessions[s.cancelFunc.value].(cancelled := true)).(cancelFunc := None)
  }

  lemma StartFails(s: State, port: nat, dialled: bool)
    requires s.lock.Free? && !s.running
    ensures IsRun(s, StartSteps(false, port, dialled, false))
    ensures Final(s, StartSteps(false, port, dialled, false)) == Failed(s, port)
  {
    var id, end := |s.sessions|, [Proceed(true)];
    var created := s.sessions + [Session(Created, port, false, false)];
    var s1 := s.(lock := Check(port));
    var s2 := s.(lock := Dial(id), sessions := created);
    var s3 := s2.(lock := Auth(id));
    var s4 := Failed(s, port).(lock := Unlock);
    assert created[id := Session(Abandoned, port, true, false)] == s.sessions + [Session(Abandoned, port, true, false)];
    assert Apply(s1, Proceed(true)) == s2 && Apply(s2, Proceed(true)) == s3;
    assert Apply(s2, Proceed(false)) == s4 && Apply(s3, Proceed(false)) == s4;
    assert Apply(s4, Proceed(true)) == Failed(s, port);
    var ends := [Proceed(false), Proceed(true)];
    assert ends == [Proceed(false)] + end && end == [Proceed(true)] + [];
    assert Proceeds(0, ends) == ends;
    StepThen(s4, Proceed(true), []);
    if dialled {
      StepThen(s3, Proceed(false), end);
      StepThen(s2, Proceed(true), ends);
      StepThen(s1, Proceed(true), Proceeds(1, ends));
      StepThen(s, CallStart(port), Proceeds(2, ends));
    } else {
      StepThen(s2, Proceed(false), end);
      StepThen(s1, Proceed(true), ends);
      StepThen(s, CallStart(port), Proceeds(1, ends));
    }
  }

  lemma StartRefused(s: State, port: nat, dialled: bool, accepted: bool)
    requires s.lock.Free? && s.running
    ensures IsRun(s, StartSteps(true, port, dialled, accepted))
    ensures Final(s, StartSteps(true, port, dialled, accepted)) == s
  {
    var s1, s2 := s.(lock := Check(port)), s.(lock := Unlock);
    assert Apply(s1, Proceed(true)) == s2 && Apply(s2, Proceed(true)) == s;
    assert Proceeds(0, []) == [];
    StepThen(s2, Proceed(true), []);
    StepThen(s1, Proceed(true), Proceeds(1, []));
    StepThen(s, CallStart(port), Proceeds(2, []));
  }

  lemma StopGoesThrough(s: State)
    requires s.lock.Free? && (s.cancelFunc.Some? ==> s.cancelFunc.value < |s.sessions|)
    ensures IsRun(s, StopSteps(s.cancelFunc)) && Final(s, StopSteps(s.cancelFunc)) == Stopped(s)
  {
    var s1, s4 := s.(lock := Cancel), Stopped(s).(lock := Unlock);
    assert Proceeds(0, []) == [];
    assert Apply(s4, Proceed(true)) == Stopped(s);
    StepThen(s4, Proceed(true), []);
    if s.cancelFunc.None? {
      assert Apply(s1, Proceed(true)) == s4;
      StepThen(s1, Proceed(true), Proceeds(1, []));
      StepThen(s, CallStop, Proceeds(2, []));
    } else {
      var s2 := SetSession(s, s.cancelFunc.value, s.sessions[s.cancelFunc.value].(cancelled := true));
      var s3 := s2.(lock := ClearFunc);
      assert Apply(s1, Proceed(true)) == s3 && Apply(s3, Proceed(true)) == s4;
      StepThen(s3, Proceed(true), Proceeds(1, []));
      StepThen(s1, Proceed(true), Proceeds(2, []));
      StepThen(s, CallStop, Proceeds(3, []));
    }
  }

  /** The client, by its two fields and the contexts and goroutines it has created. */
  class Client {
    var cancelFunc: Option<nat>
    var running: bool
    var sessions: seq<Session>

    constructor ()
      ensures Now() == INITIAL
    {
      cancelFunc, running, sessions := None, false, [];
    }

    /** The machine's state between calls. */
    function Now(): State
      reads this
    {
      State(Free, running, cancelFunc, sessions)
    }

    /** start, with the outcomes of dialling and of authenticating. */
    method Start(port: nat, dialled: bool, accepted: bool) returns (ok: bool)
      modifies this
      ensures ok == (!old(running) && dialled && accepted)
      ensures ok ==> Now() == Started(old(Now()), port)
      ensures !ok ==> Now() == if old(running) then old(Now()) else Failed(old(Now()), port)
      ensures var steps := StartSteps(old(running), port, dialled, accepted);
              IsRun(old(Now()), steps) && Final(old(Now()), steps) == Now()
    {
      ghost var before := Now();
      if running {
        StartRefused(before, port, dialled, accepted);
        return false;
      }
      var id := |sessions|;
      sessions := sessions + [Session(Created, port, false, false)];
      if !dialled || !accepted {
        sessions := sessions[id := sessions[id].(pc := Abandoned, cancelled := true)];
        StartFails(before, port, dialled);
        return false;
      }
      cancelFunc := Some(id);
      running := true;
      sessions := sessions[id := sessions[id].(pc := Spawned)];
      StartGoesThrough(before, port, []);
      return true;
    }

    /** stop: whatever session is alive is cancelled, and the flag is left to its goroutine. */
    method Stop(ghost current: nat)
      requires Inv(Now(), current)
      modifies this
      ensures running == old(running) && cancelFunc == None
      ensures forall i :: 0 <= i < |sessions| && Alive(Now(), i) ==> sessions[i].cancelled
      ensures var steps := StopSteps(old(cancelFunc)); IsRun(old(Now()), steps) && Final(old(Now()), steps) == Now()
    {
      StopGoesThrough(Now());
      ghost var before := Now();
      if cancelFunc != None {
        sessions := sessions[cancelFunc.value := sessions[cancelFunc.value].(cancelled := true)];
        cancelFunc := None;
      }
      forall i | 0 <= i < |sessions| && Alive(Now(), i) ensures sessions[i].cancelled {
        assert SessionOk(before, i, current);
      }
    }
  }
}
