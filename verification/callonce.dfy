/** The call_once protocol (lib/abseil-cpp-master/absl/base/call_once.h) as a state machine over the atomic
    steps of any number of threads. */
module CallOnce {

  type Thread = int

  // The values of the control word.
  const ONCE_INIT := 0
  const ONCE_RUNNING := 0x65C2937B
  const ONCE_WAITER := 0x05A308D2
  const ONCE_DONE := 221

  // Where a thread stands in call_once.
  datatype Pc =
    | Outside                  // before a call, or after one
    | Entering                 // about to load the control word
    | Claiming                 // about to compare_exchange it from kOnceInit to kOnceRunning
    | Waiting                  // in SpinLockWait
    | Claimed                  // about to invoke fn
    | Invoking                 // inside fn
    | Finished                 // fn has returned; about to load the control word again
    | Storing(seen: int)        // about to store kOnceDone
    | Waking(seen: int)         // about to wake waiters, if there were any
    | Returned                 // the call has returned

  datatype State = State(control: int, pcs: map<Thread, Pc>, started: nat, completed: bool)

  ghost predicate Initial(s: State) {
    s.control == ONCE_INIT && s.started == 0 && !s.completed && forall t :: t in s.pcs ==> s.pcs[t] == Outside
  }

  // A row of the table of transitions of SpinLockWait: from, to, and whether to return.
  datatype Row = Row(from: int, to: int, done: bool)

  const TRANSITIONS: seq<Row> := [
    Row(ONCE_INIT, ONCE_RUNNING, true), Row(ONCE_RUNNING, ONCE_WAITER, false), Row(ONCE_DONE, ONCE_DONE, true)]

  // One step of SpinLockWait through a row: the control word changes from the row's first to its second value,
  // and a row marked done returns the former.
  ghost predicate WaitStep(s: State, t: Thread, s': State, r: Row) {
    && r in TRANSITIONS && s.control == r.from
    && s' == s.(control := r.to,
                pcs := s.pcs[t := if !r.done then Waiting else if r.from == ONCE_INIT then Claimed else Returned])
  }

  // One atomic step of thread t.
  ghost predicate Step(s: State, t: Thread, s': State) {
    t in s.pcs &&
    match s.pcs[t]
    case Outside => s' == s.(pcs := s.pcs[t := Entering])
    case Entering => s' == s.(pcs := s.pcs[t := if s.control == ONCE_DONE then Returned else Claiming])
    case Claiming =>
      if s.control == ONCE_INIT then s' == s.(control := ONCE_RUNNING, pcs := s.pcs[t := Claimed])
      else s' == s.(pcs := s.pcs[t := Waiting])
    case Waiting => exists r :: WaitStep(s, t, s', r)
    case Claimed => s' == s.(started := s.started + 1, pcs := s.pcs[t := Invoking])
    case Invoking => s' == s.(completed := true, pcs := s.pcs[t := Finished])
    case Finished => s' == s.(pcs := s.pcs[t := Storing(s.control)])
    case Storing(seen) => s' == s.(control := ONCE_DONE, pcs := s.pcs[t := Waking(seen)])
    case Waking(_) => s' == s.(pcs := s.pcs[t := Returned])
    case Returned => s' == s.(pcs := s.pcs[t := Outside])
  }

  // A run from s: a thread and the state after its step, again and again.
  ghost predicate Run(s: State, steps: seq<(Thread, State)>)
    decreases |steps|
  {
    steps != [] ==> Step(s, steps[0].0, steps[0].1) && Run(steps[0].1, steps[1..])
  }

  function Last(s: State, steps: seq<(Thread, State)>): State {
    if steps == [] then s else steps[|steps| - 1].1
  }

  // Between claiming kOnceInit and storing kOnceDone.
  predicate Owns(pc: Pc) {
    pc.Claimed? || pc.Invoking? || pc.Finished? || pc.Storing?
  }

  predicate HasReturned(pc: Pc) {
    pc.Waking? || pc.Returned?
  }

  ghost predicate Owned(s: State) {
    exists t :: t in s.pcs && Owns(s.pcs[t])
  }

  // The control word says whether someone owns the flag, and at most one thread does.
  ghost predicate OneOwner(s: State) {
    && s.control in {ONCE_INIT, ONCE_RUNNING, ONCE_WAITER, ONCE_DONE}
    && (Owned(s) <==> s.control == ONCE_RUNNING || s.control == ONCE_WAITER)
    && (forall t, u :: t in s.pcs && u in s.pcs && Owns(s.pcs[t]) && Owns(s.pcs[u]) ==> t == u)
  }

  // How far fn has got when a thread stands at pc; nobody returns before the end.
  predicate Fits(control: int, started: nat, completed: bool, pc: Pc) {
    && (pc.Claimed? ==> started == 0 && !completed)
    && (pc.Invoking? ==> started == 1 && !completed)
    && (pc.Finished? || pc.Storing? ==> started == 1 && completed)
    && (HasReturned(pc) ==> control == ONCE_DONE)
  }

  ghost predicate Progress(s: State) {
    && (s.control == ONCE_INIT ==> s.started == 0 && !s.completed)
    && (s.control == ONCE_DONE ==> s.started == 1 && s.completed)
    && (forall t :: t in s.pcs ==> Fits(s.control, s.started, s.completed, s.pcs[t]))
  }

  ghost predicate Invariant(s: State) {
    OneOwner(s) && Progress(s)
  }

  lemma InitialHolds(s: State)
    requires Initial(s)
    ensures Invariant(s)
  {
  }

  // What a step does to the thread that takes it and to the control word.
  ghost predicate Effect(s: State, t: Thread, s': State) {
    && t in s.pcs && s'.pcs.Keys == s.pcs.Keys
    && (forall u :: u in s.pcs && u != t ==> s'.pcs[u] == s.pcs[u])
    && var pc, pc' := s.pcs[t], s'.pcs[t];
    && (Owns(pc) && Owns(pc') ==> s'.control == s.control)
    && (!Owns(pc) && Owns(pc') ==> s.control == ONCE_INIT && s'.control == ONCE_RUNNING && pc' == Claimed)
    && (Owns(pc) && !Owns(pc') ==> s'.control == ONCE_DONE && pc.Storing?)
    && (!Owns(pc) && !Owns(pc') ==>
          s'.control == s.control || (s.control == ONCE_RUNNING && s'.control == ONCE_WAITER))
    && s'.started == s.started + (if pc == Claimed then 1 else 0)
    && s'.completed == (s.completed || pc == Invoking)
    && (HasReturned(pc') ==> HasReturned(pc) || pc.Storing? || s.control == ONCE_DONE)
    && (Owns(pc) && Owns(pc') ==> (pc == Claimed && pc' == Invoking) || (pc == Invoking && pc' == Finished) ||
                                  (pc == Finished && pc'.Storing?))
  }

  lemma StepHasEffect(s: State, t: Thread, s': State)
    requires Step(s, t, s')
    ensures Effect(s, t, s')
  {
    if s.pcs[t].Waiting? {
      var r :| WaitStep(s, t, s', r);
      assert r == TRANSITIONS[0] || r == TRANSITIONS[1] || r == TRANSITIONS[2];
    }
  }

  lemma OwnerKept(s: State, t: Thread, s': State)
    requires OneOwner(s) && Effect(s, t, s')
    ensures OneOwner(s')
  {
    hide Owns;
    if Owned(s) {
      var u :| u in s.pcs && Owns(s.pcs[u]);
      assert u in s'.pcs;
    }
    if Owned(s') {
      var u :| u in s'.pcs && Owns(s'.pcs[u]);
      assert u in s.pcs;
    }
    assert Owns(s.pcs[t]) ==> Owned(s);
    assert Owns(s'.pcs[t]) ==> Owned(s');
  }

  lemma ProgressKept(s: State, t: Thread, s': State)
    requires Invariant(s) && Effect(s, t, s')
    ensures Progress(s')
  {
    hide Owned;
    assert Fits(s.control, s.started, s.completed, s.pcs[t]);
    forall u | u in s'.pcs
      ensures Fits(s'.control, s'.started, s'.completed, s'.pcs[u])
    {
      assert Fits(s.control, s.started, s.completed, s.pcs[u]);
      assert Owns(s.pcs[u]) ==> Owned(s) by { OwnsIsOwned(s, u); }
    }
    OwnsIsOwned(s, t);
  }

  lemma OwnsIsOwned(s: State, t: Thread)
    requires t in s.pcs
    ensures Owns(s.pcs[t]) ==> Owned(s)
  {
  }

  lemma StepKeeps(s: State, t: Thread, s': State)
    requires Invariant(s) && Step(s, t, s')
    ensures Invariant(s')
  {
    hide Step, OneOwner, Progress, Effect;
    StepHasEffect(s, t, s');
    OwnerKept(s, t, s');
    ProgressKept(s, t, s');
  }

  lemma {:induction false} RunKeeps(s: State, steps: seq<(Thread, State)>)
    requires Invariant(s) && Run(s, steps)
    ensures Invariant(Last(s, steps))
    decreases |steps|
  {
    if steps != [] {
      StepKeeps(s, steps[0].0, steps[0].1);
      RunKeeps(steps[0].1, steps[1..]);
      assert Last(steps[0].1, steps[1..]) == Last(s, steps);
    }
  }

  // In every state that any interleaving of the threads can reach: fn has been started at most once; at most
  // one thread is between claiming the flag and storing kOnceDone; a thread whose call has returned finds fn
  // started once and completed; and the control word has one of its four values.
  lemma CallOnceIsSafe(s: State, steps: seq<(Thread, State)>)
    requires Initial(s) && Run(s, steps)
    ensures var e := Last(s, steps);
            && e.started <= 1
            && (forall t, u :: t in e.pcs && u in e.pcs && Owns(e.pcs[t]) && Owns(e.pcs[u]) ==> t == u)
            && (forall t :: t in e.pcs && HasReturned(e.pcs[t]) ==> e.started == 1 && e.completed)
            && e.control in {ONCE_INIT, ONCE_RUNNING, ONCE_WAITER, ONCE_DONE}
  {
    InitialHolds(s);
    RunKeeps(s, steps);
    var e := Last(s, steps);
    if Owned(e) {
      var t :| t in e.pcs && Owns(e.pcs[t]);
    }
  }

  // kOnceDone is final: whatever the threads still do, fn is never started again.
  lemma {:induction false} DoneForGood(s: State, steps: seq<(Thread, State)>)
    requires Invariant(s) && s.control == ONCE_DONE && Run(s, steps)
    ensures Last(s, steps).control == ONCE_DONE && Last(s, steps).started == s.started
    decreases |steps|
  {
    if steps != [] {
      var t, s' := steps[0].0, steps[0].1;
      StepKeeps(s, t, s');
      assert !Owns(s.pcs[t]);
      DoneForGood(s', steps[1..]);
      assert Last(s', steps[1..]) == Last(s, steps);
    }
  }

  // Every thread can move, but for one that waits while the control word is kOnceWaiter, for which the table has
  // no row; and then another thread, the owner, can move.
  lemma NeverStuck(s: State, t: Thread)
    requires Invariant(s) && t in s.pcs
    ensures if s.pcs[t].Waiting? && s.control == ONCE_WAITER
            then exists u, s' :: u != t && u in s.pcs && Owns(s.pcs[u]) && Step(s, u, s')
            else exists s' :: Step(s, t, s')
  {
    if s.pcs[t].Waiting? && s.control == ONCE_WAITER {
      var owner :| owner in s.pcs && Owns(s.pcs[owner]);
      CanStep(s, owner);
    } else {
      CanStep(s, t);
    }
  }

  lemma CanStep(s: State, t: Thread)
    requires Invariant(s) && t in s.pcs && (s.pcs[t].Waiting? ==> s.control != ONCE_WAITER)
    ensures exists s' :: Step(s, t, s')
  {
    var pc := s.pcs[t];
    match pc {
      case Outside => assert Step(s, t, s.(pcs := s.pcs[t := Entering]));
      case Entering => assert Step(s, t, s.(pcs := s.pcs[t := if s.control == ONCE_DONE then Returned else Claiming]));
      case Claiming =>
        assert Step(s, t, if s.control == ONCE_INIT then s.(control := ONCE_RUNNING, pcs := s.pcs[t := Claimed])
                          else s.(pcs := s.pcs[t := Waiting]));
      case Waiting =>
        var r := if s.control == ONCE_INIT then TRANSITIONS[0] else if s.control == ONCE_RUNNING then TRANSITIONS[1]
                 else TRANSITIONS[2];
        var s' := s.(control := r.to,
                     pcs := s.pcs[t := if !r.done then Waiting else if r.from == ONCE_INIT then Claimed else Returned]);
        assert WaitStep(s, t, s', r);
        assert Step(s, t, s');
      case Claimed => assert Step(s, t, s.(started := s.started + 1, pcs := s.pcs[t := Invoking]));
      case Invoking => assert Step(s, t, s.(completed := true, pcs := s.pcs[t := Finished]));
      case Finished => assert Step(s, t, s.(pcs := s.pcs[t := Storing(s.control)]));
      case Storing(seen) => assert Step(s, t, s.(control := ONCE_DONE, pcs := s.pcs[t := Waking(seen)]));
      case Waking(seen) => assert Step(s, t, s.(pcs := s.pcs[t := Returned]));
      case Returned => assert Step(s, t, s.(pcs := s.pcs[t := Outside]));
    }
  }
}
