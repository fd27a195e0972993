/**
 That the condition variable goes on: no call of signal or broadcast can be held up by anybody but the holder of the
 critical section, who can always leave it; released threads come back; and nothing deadlocks.
 */
module CondVarProgress {
  import opened Sequences
  import opened Wrappers
  import opened CondVar
  import opened CondVarProofs

  // ---------- runs of one thread ----------

  /** A run in which only thread `t` makes steps. */
  ghost predicate Alone(s: State, t: Tid, steps: seq<Step>, u: State) {
    IsRun(s, steps, u) && forall k :: 0 <= k < |steps| ==> steps[k].t == t
  }

  ghost predicate CanReach(s: State, t: Tid, u: State) { exists steps :: Alone(s, t, steps, u) }

  lemma Stay(s: State, t: Tid)
    ensures CanReach(s, t, s)
  {
    assert Alone(s, t, [], s);
  }

  lemma OneMore(s: State, t: Tid, a: Action, u: State)
    requires s.Shaped() && Enabled(s, t, a) && CanReach(Do(s, t, a), t, u)
    ensures CanReach(s, t, u)
  {
    var steps :| Alone(Do(s, t, a), t, steps, u);
    assert ([Step(t, a)] + steps)[1..] == steps;
    assert Alone(s, t, [Step(t, a)] + steps, u);
  }

  lemma {:induction false} RunOn(s: State, steps: seq<Step>, u: State, more: seq<Step>, v: State)
    requires IsRun(s, steps, u) && IsRun(u, more, v)
    ensures IsRun(s, steps + more, v)
    decreases |steps|
  {
    if steps == [] {
      assert steps + more == more;
    } else {
      assert (steps + more)[1..] == steps[1..] + more;
      RunOn(Do(s, steps[0].t, steps[0].a), steps[1..], u, more, v);
    }
  }

  lemma ThenReach(s: State, t: Tid, u: State, v: State)
    requires CanReach(s, t, u) && CanReach(u, t, v)
    ensures CanReach(s, t, v)
  {
    var steps :| Alone(s, t, steps, u);
    var more :| Alone(u, t, more, v);
    RunOn(s, steps, u, more, v);
    assert Alone(s, t, steps + more, v);
  }

  // ---------- reachable states ----------

  /** A state of some run. */
  ghost predicate Reachable(u: State) { exists s, steps :: Init(s) && IsRun(s, steps, u) }

  /** For any number of threads there is a state to begin with. */
  lemma AnyNumber(n: nat)
    ensures exists s :: Init(s) && |s.pc| == n && Reachable(s)
  {
    var s := State(seq(n, _ => Idle), seq(n, _ => None), seq(n, _ => 0), None, None, None);
    assert Init(s) && IsRun(s, [], s);
  }

  /** The holder of the mutex is not about to wait for anything but the critical section. */
  ghost predicate HolderAwake(s: State) {
    s.m.Some? ==> s.m.value < |s.pc| && s.pc[s.m.value] != WaitBlock && s.pc[s.m.value] != WaitRelock
  }

  lemma {:induction false} RunKeeps(s: State, aux: Aux, steps: seq<Step>, u: State) returns (aux': Aux)
    requires Inv(s, aux) && HolderAwake(s) && IsRun(s, steps, u)
    ensures Inv(u, aux') && HolderAwake(u) && |u.pc| == |s.pc|
    decreases |steps|
  {
    if steps == [] {
      aux' := aux;
    } else {
      var mid := StepRefines(s, aux, steps[0].t, steps[0].a);
      StepAwake(s, aux, steps[0].t, steps[0].a);
      aux' := RunKeeps(Do(s, steps[0].t, steps[0].a), mid, steps[1..], u);
    }
  }

  lemma StepAwake(s: State, aux: Aux, t: Tid, a: Action)
    requires Inv(s, aux) && HolderAwake(s) && Enabled(s, t, a)
    ensures HolderAwake(Do(s, t, a)) && |Do(s, t, a).pc| == |s.pc|
  {
    if a == Continue { ContinueAwake(s, aux, t); } else { CallAwake(s, t, a); }
  }

  lemma CallAwake(s: State, t: Tid, a: Action)
    requires s.Shaped() && HolderAwake(s) && Enabled(s, t, a) && a != Continue
    ensures HolderAwake(Do(s, t, a)) && |Do(s, t, a).pc| == |s.pc|
  {
  }

  lemma ContinueAwake(s: State, aux: Aux, t: Tid)
    requires Inv(s, aux) && HolderAwake(s) && Enabled(s, t, Continue)
    ensures HolderAwake(Do(s, t, Continue)) && |Do(s, t, Continue).pc| == |s.pc|
  {
    MovesOn(s, t);
    assert ThreadOk(t, s.pc[t], s.sem[t], s.cs, s.m, Waiting(aux, t));
  }

  /** Only the thread's own place changes; the mutex goes as it falls asleep and comes as it returns. */
  lemma MovesOn(s: State, t: Tid)
    requires s.Shaped() && Enabled(s, t, Continue)
    ensures var u := Do(s, t, Continue);
            && |u.pc| == |s.pc| && (forall x :: 0 <= x < |s.pc| && x != t ==> u.pc[x] == s.pc[x])
            && u.m == (if s.pc[t] == WaitUnlock then None else if s.pc[t] == WaitRelock then Some(t) else s.m)
            && (u.pc[t] == WaitBlock ==> s.pc[t] == WaitUnlock) && (u.pc[t] == WaitRelock ==> s.pc[t] == WaitBlock)
  {
  }

  lemma ReachableOk(u: State) returns (aux: Aux)
    requires Reachable(u)
    ensures Inv(u, aux) && HolderAwake(u)
  {
    var s, steps :| Init(s) && IsRun(s, steps, u);
    assert Inv(s, Aux([], [], []));
    aux := RunKeeps(s, Aux([], [], []), steps, u);
  }

  lemma ReachableOn(u: State, t: Tid, v: State)
    requires Reachable(u) && CanReach(u, t, v)
    ensures Reachable(v)
  {
    var s, steps :| Init(s) && IsRun(s, steps, u);
    var more :| Alone(u, t, more, v);
    RunOn(s, steps, u, more, v);
  }

  // ---------- signal ----------

  /** The thread leaves its critical section, and nothing else changes. */
  ghost predicate HasLeft(s: State, t: Tid, to: PC, u: State)
    requires t < |s.pc|
  {
    u == s.(pc := s.pc[t := to], cs := None)
  }

  lemma SigLeaves(s: State, t: Tid) returns (u: State)
    requires s.Shaped() && t < |s.pc| && (s.pc[t] == SigLeave || s.pc[t] == BcLeave)
    ensures CanReach(s, t, u) && HasLeft(s, t, Idle, u)
  {
    u := Do(s, t, Continue);
    Stay(u, t);
    OneMore(s, t, Continue, u);
  }

  /** One thread is released, the last that came, if any is waiting. */
  ghost predicate Released(s: State, t: Tid, u: State)
    requires t < |s.pc|
  {
    && u.pc == s.pc[t := Idle] && u.cs == None && u.m == s.m && u.next == s.next
    && match s.waiters
       case None => u.sem == s.sem && u.waiters == None
       case Some(h) => h < |s.sem| == |s.next| && s.sem[h] == 0 && u.sem == s.sem[h := 1] && u.waiters == s.next[h]
  }

  lemma FromSigPop(s: State, t: Tid) returns (u: State)
    requires s.Shaped() && t < |s.pc| && s.pc[t] == SigPop && s.waiters.Some?
    ensures CanReach(s, t, u) && u == s.(pc := s.pc[t := Idle], cs := None, waiters := s.next[s.waiters.value])
  {
    u := SigLeaves(Do(s, t, Continue), t);
    OneMore(s, t, Continue, u);
  }

  lemma FromSigRelease(s: State, aux: Aux, t: Tid) returns (u: State)
    requires Inv(s, aux) && t < |s.pc| && s.pc[t] == SigRelease
    ensures CanReach(s, t, u) && Released(s, t, u)
  {
    SigReleaseStep(s, aux, t);
    u := FromSigPop(Do(s, t, Continue), t);
    OneMore(s, t, Continue, u);
  }

  lemma FromSigTest(s: State, aux: Aux, t: Tid) returns (u: State)
    requires Inv(s, aux) && t < |s.pc| && s.pc[t] == SigTest
    ensures CanReach(s, t, u) && Released(s, t, u)
  {
    var s1 := Do(s, t, Continue);
    SigTestStep(s, aux, t);
    if s.waiters == None { u := SigLeaves(s1, t); } else { u := FromSigRelease(s1, aux, t); }
    OneMore(s, t, Continue, u);
  }

  lemma FromSigEnter(s: State, aux: Aux, t: Tid) returns (u: State)
    requires Inv(s, aux) && t < |s.pc| && s.pc[t] == SigEnter && s.cs == None
    ensures CanReach(s, t, u) && Released(s, t, u)
  {
    EnterStep(s, aux, t);
    u := FromSigTest(Do(s, t, Continue), aux, t);
    OneMore(s, t, Continue, u);
  }

  /**
   Whoever holds the mutex: a thread that calls signal, or has called it, gets back from it by its own steps as soon as the
   critical section is free, and has then released the last thread that came, if any is waiting.
   */
  lemma SignalReturns(s: State, t: Tid) returns (u: State)
    requires Reachable(s) && t < |s.pc| && (s.pc[t] == Idle || s.pc[t] == SigEnter) && s.cs == None
    ensures CanReach(s, t, u) && Released(s, t, u)
  {
    var aux := ReachableOk(s);
    if s.pc[t] == Idle {
      CallStep(s, aux, t, CallSignal);
      u := FromSigEnter(Do(s, t, CallSignal), aux, t);
      OneMore(s, t, CallSignal, u);
    } else {
      u := FromSigEnter(s, aux, t);
    }
  }

  // ---------- broadcast ----------

  /** Every thread that is about to sleep, or asleep, is released, and nobody is waiting any more. */
  ghost predicate AllReleased(s: State, t: Tid, u: State)
    requires t < |s.pc| == |s.sem|
  {
    && u.pc == s.pc[t := Idle] && u.cs == None && u.m == s.m && u.next == s.next && u.waiters == None && |u.sem| == |s.sem|
    && forall x :: 0 <= x < |s.sem| ==> u.sem[x] == if s.pc[x] == WaitUnlock || s.pc[x] == WaitBlock then 1 else s.sem[x]
  }

  lemma FromBcClear(s: State, aux: Aux, t: Tid) returns (u: State)
    requires Inv(s, aux) && t < |s.pc| && s.pc[t] == BcClear
    ensures CanReach(s, t, u) && AllReleased(s, t, u)
  {
    assert ThreadOk(t, s.pc[t], s.sem[t], s.cs, s.m, Waiting(aux, t));
    forall x | 0 <= x < |s.sem| && (s.pc[x] == WaitUnlock || s.pc[x] == WaitBlock) ensures s.sem[x] == 1 {
      assert ThreadOk(x, s.pc[x], s.sem[x], s.cs, s.m, Waiting(aux, x));
    }
    u := SigLeaves(Do(s, t, Continue), t);
    OneMore(s, t, Continue, u);
  }

  lemma {:induction false} FromBcTest(s: State, aux: Aux, t: Tid) returns (u: State)
    requires Inv(s, aux) && t < |s.pc| && s.pc[t].BcTest?
    ensures CanReach(s, t, u) && AllReleased(s, t, u)
    decreases |aux.rest|, 1
  {
    if s.pc[t].tmp == None {
      BcDoneStep(s, aux, t);
      u := FromBcClear(Do(s, t, Continue), aux, t);
    } else {
      BcReleaseStep(s, aux, t);
      u := FromBcNext(Do(s, t, Continue), aux.(rest := aux.rest[1..]), t);
      OneIsReleased(s, aux, t, u);
    }
    OneMore(s, t, Continue, u);
  }

  lemma OneIsReleased(s: State, aux: Aux, t: Tid, u: State)
    requires Inv(s, aux) && t < |s.pc| && s.pc[t].BcTest? && s.pc[t].tmp.Some? && AllReleased(Do(s, t, Continue), t, u)
    ensures AllReleased(s, t, u)
  {
    var x := s.pc[t].tmp.value;
    BcReleaseEmpty(s, aux, t);
    BcReleaseDoes(s, t, x);
    WaitsSomewhere(s, aux, t, x);
  }

  lemma WaitsSomewhere(s: State, aux: Aux, t: Tid, x: Tid)
    requires Inv(s, aux) && t < |s.pc| && s.pc[t].BcTest? && x < |s.pc| && Waiting(aux, x)
    ensures s.pc[x] == WaitUnlock || s.pc[x] == WaitBlock
  {
    assert ThreadOk(t, s.pc[t], s.sem[t], s.cs, s.m, Waiting(aux, t));
    assert ThreadOk(x, s.pc[x], s.sem[x], s.cs, s.m, Waiting(aux, x));
  }

  lemma {:induction false} FromBcNext(s: State, aux: Aux, t: Tid) returns (u: State)
    requires Inv(s, aux) && t < |s.pc| && s.pc[t].BcNext?
    ensures CanReach(s, t, u) && AllReleased(s, t, u)
    decreases |aux.rest|, 2
  {
    BcNextStep(s, aux, t);
    u := FromBcTest(Do(s, t, Continue), aux, t);
    OneMore(s, t, Continue, u);
  }

  lemma FromBcEnter(s: State, aux: Aux, t: Tid) returns (u: State)
    requires Inv(s, aux) && t < |s.pc| && s.pc[t] == BcEnter && s.cs == None
    ensures CanReach(s, t, u) && AllReleased(s, t, u)
  {
    EnterStep(s, aux, t);
    u := FromBcFirst(Do(s, t, Continue), aux, t);
    OneMore(s, t, Continue, u);
  }

  lemma FromBcFirst(s: State, aux: Aux, t: Tid) returns (u: State)
    requires Inv(s, aux) && t < |s.pc| && s.pc[t] == BcFirst
    ensures CanReach(s, t, u) && AllReleased(s, t, u)
  {
    var s1 := s.(pc := s.pc[t := BcTest(s.waiters)]);
    BcFirstKeeps(s, aux, t);
    u := FromBcTest(s1, Aux(aux.q, [], aux.q), t);
    SameReleased(s, s1, t, BcTest(s.waiters), u);
    assert Do(s, t, Continue) == s1;
    OneMore(s, t, Continue, u);
  }

  /** Only the place of the thread that broadcasts differs. */
  lemma SameReleased(s: State, s1: State, t: Tid, to: PC, u: State)
    requires t < |s.pc| == |s.sem| && s.pc[t] != WaitUnlock && s.pc[t] != WaitBlock
    requires s1 == s.(pc := s.pc[t := to]) && to != WaitUnlock && to != WaitBlock
    requires AllReleased(s1, t, u)
    ensures AllReleased(s, t, u)
  {
  }

  /** The same for broadcast, which releases all. */
  lemma BroadcastReturns(s: State, t: Tid) returns (u: State)
    requires Reachable(s) && t < |s.pc| == |s.sem| && (s.pc[t] == Idle || s.pc[t] == BcEnter) && s.cs == None
    ensures CanReach(s, t, u) && AllReleased(s, t, u)
  {
    var aux := ReachableOk(s);
    if s.pc[t] == Idle {
      CallStep(s, aux, t, CallBroadcast);
      u := FromBcEnter(Do(s, t, CallBroadcast), aux, t);
      OneMore(s, t, CallBroadcast, u);
    } else {
      u := FromBcEnter(s, aux, t);
    }
  }

  // ---------- wait ----------

  /** The thread sleeps, the last on the list, and has let the mutex go. */
  ghost predicate FallsAsleep(s: State, t: Tid, u: State)
    requires t < |s.pc| == |s.next|
  {
    && u.pc == s.pc[t := WaitBlock] && u.cs == None && u.m == None && u.sem == s.sem
    && u.waiters == Some(t) && u.next == s.next[t := s.waiters]
  }

  lemma FromWaitLeave(s: State, t: Tid) returns (u: State)
    requires s.Shaped() && t < |s.pc| && s.pc[t] == WaitLeave
    ensures CanReach(s, t, u) && u == s.(pc := s.pc[t := WaitBlock], cs := None, m := None)
  {
    var s1 := Do(s, t, Continue);
    u := Do(s1, t, Continue);
    Stay(u, t);
    OneMore(s1, t, Continue, u);
    OneMore(s, t, Continue, u);
  }

  lemma FromWaitEnter(s: State, t: Tid) returns (u: State)
    requires s.Shaped() && t < |s.pc| && s.pc[t] == WaitEnter && s.cs == None
    ensures CanReach(s, t, u) && FallsAsleep(s, t, u)
  {
    var s1 := Do(s, t, Continue);
    var s2 := Do(s1, t, Continue);
    var s3 := Do(s2, t, Continue);
    u := FromWaitLeave(s3, t);
    OneMore(s2, t, Continue, u);
    OneMore(s1, t, Continue, u);
    OneMore(s, t, Continue, u);
  }

  /** The holder of the mutex that calls wait, or has called it, falls asleep by its own steps. */
  lemma WaitSleeps(s: State, t: Tid) returns (u: State)
    requires Reachable(s) && t < |s.pc| == |s.next| && s.cs == None && ((s.pc[t] == Idle && s.m == Some(t)) || s.pc[t] == WaitEnter)
    ensures CanReach(s, t, u) && FallsAsleep(s, t, u)
  {
    var _ := ReachableOk(s);
    if s.pc[t] == Idle {
      u := FromWaitEnter(Do(s, t, CallWait), t);
      OneMore(s, t, CallWait, u);
    } else {
      u := FromWaitEnter(s, t);
    }
  }

  /** A released thread comes back from wait with the mutex, by its own steps, as soon as that is free. */
  lemma WakesUp(s: State, t: Tid) returns (u: State)
    requires Reachable(s) && t < |s.pc| == |s.sem| && s.m == None && s.pc[t] == WaitBlock && s.sem[t] > 0
    ensures CanReach(s, t, u) && u == s.(pc := s.pc[t := Idle], m := Some(t), sem := s.sem[t := 0])
  {
    var aux := ReachableOk(s);
    assert ThreadOk(t, s.pc[t], s.sem[t], s.cs, s.m, Waiting(aux, t));
    WakeDoes(s, t);
    u := FromRelock(Do(s, t, Continue), t);
    OneMore(s, t, Continue, u);
  }

  lemma FromRelock(s: State, t: Tid) returns (u: State)
    requires s.Shaped() && t < |s.pc| && s.m == None && s.pc[t] == WaitRelock
    ensures CanReach(s, t, u) && u == s.(pc := s.pc[t := Idle], m := Some(t))
  {
    u := Do(s, t, Continue);
    Stay(u, t);
    OneMore(s, t, Continue, u);
  }

  /** So does one that was on its way to the mutex. */
  lemma ComesBack(s: State, t: Tid) returns (u: State)
    requires Reachable(s) && t < |s.pc| && s.m == None && s.pc[t] == WaitRelock
    ensures CanReach(s, t, u) && u == s.(pc := s.pc[t := Idle], m := Some(t))
  {
    var _ := ReachableOk(s);
    u := FromRelock(s, t);
  }

  // ---------- the mutex ----------

  lemma MutexIsTaken(s: State, t: Tid)
    requires Reachable(s) && t < |s.pc| && s.pc[t] == Idle && s.m == None
    ensures CanReach(s, t, s.(m := Some(t)))
  {
    var _ := ReachableOk(s);
    Stay(s.(m := Some(t)), t);
    OneMore(s, t, LockM, s.(m := Some(t)));
  }

  lemma MutexIsGiven(s: State, t: Tid)
    requires Reachable(s) && t < |s.pc| && s.pc[t] == Idle && s.m == Some(t)
    ensures CanReach(s, t, s.(m := None))
  {
    var _ := ReachableOk(s);
    Stay(s.(m := None), t);
    OneMore(s, t, UnlockM, s.(m := None));
  }

  // ---------- nothing deadlocks ----------

  /** The holder of the critical section can always leave it, by its own steps. */
  lemma SectionIsLeft(s: State, t: Tid) returns (u: State)
    requires Reachable(s) && s.cs == Some(t)
    ensures t < |s.pc| && CanReach(s, t, u) && u.cs == None && |u.pc| == |s.pc|
    ensures (u.pc[t] == Idle && u.m == s.m) || (u.pc[t] == WaitBlock && u.m == None)
    ensures forall x :: 0 <= x < |s.pc| && x != t ==> u.pc[x] == s.pc[x]
  {
    var aux := ReachableOk(s);
    assert ThreadOk(t, s.pc[t], s.sem[t], s.cs, s.m, Waiting(aux, t));
    if s.pc[t] == WaitLink || s.pc[t] == WaitPush || s.pc[t] == WaitLeave {
      u := WaitLeft(s, t);
    } else if s.pc[t] == SigTest || s.pc[t] == SigRelease || s.pc[t] == SigPop || s.pc[t] == SigLeave {
      u := SigLeft(s, aux, t);
    } else {
      u := BcLeft(s, aux, t);
    }
  }

  lemma WaitLeft(s: State, t: Tid) returns (u: State)
    requires s.Shaped() && t < |s.pc| && (s.pc[t] == WaitLink || s.pc[t] == WaitPush || s.pc[t] == WaitLeave)
    ensures CanReach(s, t, u) && u.pc == s.pc[t := WaitBlock] && u.cs == None && u.m == None
  {
    if s.pc[t] == WaitLeave {
      u := FromWaitLeave(s, t);
    } else {
      var s1 := Do(s, t, Continue);
      var s2 := if s1.pc[t] == WaitPush then Do(s1, t, Continue) else s1;
      u := FromWaitLeave(s2, t);
      if s2 != s1 { OneMore(s1, t, Continue, u); }
      OneMore(s, t, Continue, u);
    }
  }

  lemma SigLeft(s: State, aux: Aux, t: Tid) returns (u: State)
    requires Inv(s, aux) && t < |s.pc| && (s.pc[t] == SigTest || s.pc[t] == SigRelease || s.pc[t] == SigPop || s.pc[t] == SigLeave)
    ensures CanReach(s, t, u) && u.pc == s.pc[t := Idle] && u.cs == None && u.m == s.m
  {
    match s.pc[t]
    case SigTest => u := FromSigTest(s, aux, t);
    case SigRelease => u := FromSigRelease(s, aux, t);
    case SigPop =>
      assert ThreadOk(t, s.pc[t], s.sem[t], s.cs, s.m, Waiting(aux, t));
      u := FromSigPop(s, t);
    case SigLeave => u := SigLeaves(s, t);
  }

  lemma BcLeft(s: State, aux: Aux, t: Tid) returns (u: State)
    requires Inv(s, aux) && t < |s.pc|
    requires s.pc[t] == BcFirst || s.pc[t].BcTest? || s.pc[t].BcNext? || s.pc[t] == BcClear || s.pc[t] == BcLeave
    ensures CanReach(s, t, u) && u.pc == s.pc[t := Idle] && u.cs == None && u.m == s.m
  {
    match s.pc[t]
    case BcFirst => u := FromBcFirst(s, aux, t);
    case BcTest(_) => u := FromBcTest(s, aux, t);
    case BcNext(_) => u := FromBcNext(s, aux, t);
    case BcClear => u := FromBcClear(s, aux, t);
    case BcLeave => u := SigLeaves(s, t);
  }

  /** No thread can make a step. */
  ghost predicate Stuck(s: State)
    requires s.Shaped()
  {
    forall t: Tid, a: Action :: !Enabled(s, t, a)
  }

  /** As long as one thread is not asleep, or has been released, some thread can make a step. */
  lemma SomeoneGoes(s: State, t: Tid) returns (x: Tid, a: Action)
    requires Reachable(s) && t < |s.pc| == |s.sem| && !(s.pc[t] == WaitBlock && s.sem[t] == 0)
    ensures s.Shaped() && Enabled(s, x, a)
  {
    var aux := ReachableOk(s);
    x, a := t, Continue;
    if s.cs.Some? && s.cs != Some(t) {
      x := s.cs.value;
      assert ThreadOk(x, s.pc[x], s.sem[x], s.cs, s.m, Waiting(aux, x));
    } else if s.pc[t] == Idle {
      a := CallSignal;
    } else if s.pc[t] == WaitRelock && s.m.Some? {
      x := s.m.value;
      if s.pc[x] == Idle { a := CallSignal; }
    }
  }

  /** So only when all threads are asleep, and none of them released, nothing can happen any more. */
  lemma StuckMeansAllAsleep(s: State)
    requires Reachable(s)
    ensures s.Shaped() && (Stuck(s) <==> forall t :: 0 <= t < |s.pc| ==> s.pc[t] == WaitBlock && s.sem[t] == 0)
  {
    var _ := ReachableOk(s);
    if t :| 0 <= t < |s.pc| && !(s.pc[t] == WaitBlock && s.sem[t] == 0) {
      var x, a := SomeoneGoes(s, t);
    }
  }

  /** An idle thread can bring any sleeping one back: by a broadcast, and by letting the mutex go if it has it. */
  lemma SleeperIsSaved(s: State, t: Tid, i: Tid) returns (steps: seq<Step>, u: State)
    requires Reachable(s) && t < |s.pc| && i < |s.pc| && s.cs == None && s.pc[t] == WaitBlock && s.pc[i] == Idle
    requires s.m == None || s.m == Some(i)
    ensures IsRun(s, steps, u) && |u.pc| == |s.pc| && u.pc[t] == Idle && u.m == Some(t)
  {
    var _ := ReachableOk(s);
    var s1 := BroadcastReturns(s, i);
    ReachableOn(s, i, s1);
    var s2 := s1.(m := None);
    if s1.m == None { Stay(s1, i); } else { MutexIsGiven(s1, i); }
    assert s1.m == None ==> s2 == s1;
    ThenReach(s, i, s1, s2);
    ReachableOn(s, i, s2);
    u := WakesUp(s2, t);
    var first :| Alone(s, i, first, s2);
    var more :| Alone(s2, t, more, u);
    RunOn(s, first, s2, more, u);
    steps := first + more;
  }
}
