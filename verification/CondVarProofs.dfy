/**
 The invariant of the condition variable, step by step, and what follows for every run.
 */
module CondVarProofs {
  import opened Sequences
  import opened Wrappers
  import opened CondVar

  /** A step keeps the invariant, with `aux'` as the new list, and does what its event says. */
  ghost predicate StepOk(s: State, aux: Aux, t: Tid, a: Action, aux': Aux)
    requires Inv(s, aux) && Enabled(s, t, a)
  {
    && Inv(Do(s, t, a), aux')
    && Can(AbstractOf(s, aux), EventOf(s, t, a))
    && AbstractOf(Do(s, t, a), aux') == Perform(AbstractOf(s, aux), EventOf(s, t, a))
  }

  lemma MutexStep(s: State, aux: Aux, t: Tid, a: Action)
    requires Inv(s, aux) && Enabled(s, t, a)
    requires a == LockM || a == UnlockM || (a == Continue && (s.pc[t] == WaitUnlock || s.pc[t] == WaitRelock))
    ensures !Enabled(s, t, a) || StepOk(s, aux, t, a, aux)
  {
    var to := if a != Continue then Idle else if s.pc[t] == WaitUnlock then WaitBlock else Idle;
    var m := if a == LockM || (a == Continue && s.pc[t] == WaitRelock) then Some(t) else None;
    MutexKeeps(s, aux, t, to, m);
    MutexDoes(s, t, a, to, m);
  }

  lemma MutexDoes(s: State, t: Tid, a: Action, to: PC, m: Option<Tid>)
    requires s.Shaped() && Enabled(s, t, a)
    requires a == LockM || a == UnlockM || (a == Continue && (s.pc[t] == WaitUnlock || s.pc[t] == WaitRelock))
    requires to == if a == Continue && s.pc[t] == WaitUnlock then WaitBlock else Idle
    requires m == if a == LockM || (a == Continue && s.pc[t] == WaitRelock) then Some(t) else None
    ensures Do(s, t, a) == s.(m := m, pc := s.pc[t := to])
    ensures EventOf(s, t, a) == if m == None then Unlock(t) else Lock(t)
  {
    assert s.pc[t] == Idle ==> s.pc[t := Idle] == s.pc;
  }

  /** The mutex changes hands, and the thread moves on in or out of a call of wait. */
  lemma MutexKeeps(s: State, aux: Aux, t: Tid, to: PC, m: Option<Tid>)
    requires Inv(s, aux) && t < |s.pc|
    requires (s.m == None && m == Some(t)) || (m == None && (s.m == Some(t) || s.pc[t] == WaitUnlock))
    requires (s.pc[t] == Idle && to == Idle) || (s.pc[t] == WaitUnlock && to == WaitBlock && m == None)
             || (s.pc[t] == WaitRelock && to == Idle && m == Some(t))
    ensures Inv(s.(m := m, pc := s.pc[t := to]), aux) && (m == None ==> s.m == Some(t))
  {
    assert ThreadOk(t, s.pc[t], s.sem[t], s.cs, s.m, Waiting(aux, t));
    assert s.sem[t := s.sem[t]] == s.sem;
    OthersOk(s, aux, t, to, s.sem[t], s.cs, m);
  }

  lemma CallStep(s: State, aux: Aux, t: Tid, a: Action)
    requires Inv(s, aux) && Enabled(s, t, a) && (a == CallWait || a == CallSignal || a == CallBroadcast)
    ensures !Enabled(s, t, a) || StepOk(s, aux, t, a, aux)
  {
  }

  lemma EnterStep(s: State, aux: Aux, t: Tid)
    requires Inv(s, aux) && Enabled(s, t, Continue)
    requires s.pc[t] == WaitEnter || s.pc[t] == SigEnter || s.pc[t] == BcEnter
    ensures !Enabled(s, t, Continue) || StepOk(s, aux, t, Continue, aux)
  {
  }

  lemma LeaveStep(s: State, aux: Aux, t: Tid)
    requires Inv(s, aux) && Enabled(s, t, Continue)
    requires s.pc[t] == WaitLeave || s.pc[t] == SigLeave || s.pc[t] == BcLeave
    ensures !Enabled(s, t, Continue) || StepOk(s, aux, t, Continue, aux)
  {
    var to := if s.pc[t] == WaitLeave then WaitUnlock else Idle;
    LeaveKeeps(s, aux, t, to);
    assert Do(s, t, Continue) == s.(cs := None, pc := s.pc[t := to]) && EventOf(s, t, Continue) == Silent;
  }

  lemma LeaveKeeps(s: State, aux: Aux, t: Tid, to: PC)
    requires Inv(s, aux) && t < |s.pc| && (s.pc[t] == WaitLeave || s.pc[t] == SigLeave || s.pc[t] == BcLeave)
    requires to == if s.pc[t] == WaitLeave then WaitUnlock else Idle
    ensures Inv(s.(cs := None, pc := s.pc[t := to]), aux)
  {
    assert ThreadOk(t, s.pc[t], s.sem[t], s.cs, s.m, Waiting(aux, t));
    assert s.sem[t := s.sem[t]] == s.sem;
    OthersOk(s, aux, t, to, s.sem[t], None, s.m);
  }

  lemma WakeStep(s: State, aux: Aux, t: Tid)
    requires Inv(s, aux) && Enabled(s, t, Continue) && s.pc[t] == WaitBlock
    ensures !Enabled(s, t, Continue) || StepOk(s, aux, t, Continue, aux)
  {
    WakeKeeps(s, aux, t);
    WakeDoes(s, t);
  }

  lemma WakeDoes(s: State, t: Tid)
    requires s.Shaped() && Enabled(s, t, Continue) && s.pc[t] == WaitBlock && s.sem[t] == 1
    ensures Do(s, t, Continue) == s.(sem := s.sem[t := 0], pc := s.pc[t := WaitRelock]) && EventOf(s, t, Continue) == Wake(t)
  {
  }

  lemma WakeKeeps(s: State, aux: Aux, t: Tid)
    requires Inv(s, aux) && t < |s.pc| && s.pc[t] == WaitBlock && s.sem[t] > 0
    ensures s.sem[t] == 1 && Can(AbstractOf(s, aux), Wake(t))
    ensures var s' := s.(sem := s.sem[t := 0], pc := s.pc[t := WaitRelock]);
            Inv(s', aux) && AbstractOf(s', aux) == Perform(AbstractOf(s, aux), Wake(t))
  {
    assert ThreadOk(t, s.pc[t], s.sem[t], s.cs, s.m, Waiting(aux, t));
    OthersOk(s, aux, t, WaitRelock, 0, s.cs, s.m);
    SignalGone(s.sem, t);
    assert t !in Elems(aux.rest);
  }

  lemma SignalGone(sem: seq<nat>, x: Tid)
    requires x < |sem|
    ensures Signaled(sem[x := 0]) == Signaled(sem) - {x}
  {
  }

  /** A step touches the program counter and the semaphore of its own thread only; the list is as it was. */
  lemma OthersOk(s: State, aux: Aux, t: Tid, pc: PC, sem: nat, cs: Option<Tid>, m: Option<Tid>)
    requires s.Shaped() && t < |s.pc|
    requires forall z :: 0 <= z < |s.pc| ==> ThreadOk(z, s.pc[z], s.sem[z], s.cs, s.m, Waiting(aux, z))
    requires ThreadOk(t, pc, sem, cs, m, Waiting(aux, t))
    requires cs == s.cs || (s.cs == None && cs == Some(t)) || (s.cs == Some(t) && cs == None)
    requires m == s.m || (s.m == None && m == Some(t)) || (s.m == Some(t) && m == None)
    ensures forall z :: 0 <= z < |s.pc| ==> ThreadOk(z, s.pc[t := pc][z], s.sem[t := sem][z], cs, m, Waiting(aux, z))
  {
  }

  lemma LinkStep(s: State, aux: Aux, t: Tid)
    requires Inv(s, aux) && Enabled(s, t, Continue) && s.pc[t] == WaitLink
    ensures !Enabled(s, t, Continue) || StepOk(s, aux, t, Continue, aux)
  {
  }

  lemma PushStep(s: State, aux: Aux, t: Tid)
    requires Inv(s, aux) && Enabled(s, t, Continue) && s.pc[t] == WaitPush
    ensures !Enabled(s, t, Continue) || StepOk(s, aux, t, Continue, Aux([t] + aux.q, [t] + aux.q, []))
  {
  }

  lemma SigTestStep(s: State, aux: Aux, t: Tid)
    requires Inv(s, aux) && Enabled(s, t, Continue) && s.pc[t] == SigTest
    ensures !Enabled(s, t, Continue) || StepOk(s, aux, t, Continue, aux)
  {
  }

  lemma SigReleaseStep(s: State, aux: Aux, t: Tid)
    requires Inv(s, aux) && Enabled(s, t, Continue) && s.pc[t] == SigRelease
    ensures !Enabled(s, t, Continue) || StepOk(s, aux, t, Continue, aux.(asleep := aux.q[1..]))
    ensures s.waiters.Some? && s.sem[s.waiters.value] < MAX_COUNT
  {
    assert aux.q[0] in aux.asleep;
    assert forall x :: x in aux.q <==> x == aux.q[0] || x in aux.q[1..];
  }

  lemma SigPopStep(s: State, aux: Aux, t: Tid)
    requires Inv(s, aux) && Enabled(s, t, Continue) && s.pc[t] == SigPop
    ensures !Enabled(s, t, Continue) || StepOk(s, aux, t, Continue, Aux(aux.q[1..], aux.q[1..], []))
  {
  }

  lemma BcFirstStep(s: State, aux: Aux, t: Tid)
    requires Inv(s, aux) && Enabled(s, t, Continue) && s.pc[t] == BcFirst
    ensures !Enabled(s, t, Continue) || StepOk(s, aux, t, Continue, Aux(aux.q, [], aux.q))
  {
    BcFirstKeeps(s, aux, t);
    assert Do(s, t, Continue) == s.(pc := s.pc[t := BcTest(s.waiters)]) && EventOf(s, t, Continue) == Broadcast;
  }

  lemma BcFirstKeeps(s: State, aux: Aux, t: Tid)
    requires Inv(s, aux) && t < |s.pc| && s.pc[t] == BcFirst
    ensures var s', aux' := s.(pc := s.pc[t := BcTest(s.waiters)]), Aux(aux.q, [], aux.q);
            Inv(s', aux') && AbstractOf(s', aux') == Perform(AbstractOf(s, aux), Broadcast)
  {
    assert ThreadOk(t, s.pc[t], s.sem[t], s.cs, s.m, Waiting(aux, t));
    BcThreads(s, aux, t, BcTest(s.waiters));
    assert forall z :: Waiting(Aux(aux.q, [], aux.q), z) <==> Waiting(aux, z);
  }

  lemma BcDoneStep(s: State, aux: Aux, t: Tid)
    requires Inv(s, aux) && Enabled(s, t, Continue) && s.pc[t] == BcTest(None)
    ensures !Enabled(s, t, Continue) || StepOk(s, aux, t, Continue, aux)
  {
    assert ThreadOk(t, s.pc[t], s.sem[t], s.cs, s.m, Waiting(aux, t));
    assert Left(aux) == |aux.q| && aux.rest == [];
    BcThreads(s, aux, t, BcClear);
  }

  lemma BcReleaseStep(s: State, aux: Aux, t: Tid)
    requires Inv(s, aux) && Enabled(s, t, Continue) && s.pc[t].BcTest? && s.pc[t].tmp.Some?
    ensures aux.rest != [] && StepOk(s, aux, t, Continue, aux.(rest := aux.rest[1..]))
    ensures s.sem[s.pc[t].tmp.value] < MAX_COUNT
  {
    BcReleaseKeeps(s, aux, t);
    BcReleaseSame(s.sem, aux.rest);
    assert Do(s, t, Continue).sem == Release(s.sem, aux.rest[0]) && Do(s, t, Continue).m == s.m;
    assert EventOf(s, t, Continue) == Silent;
  }

  lemma BcReleaseSame(sem: seq<nat>, rest: seq<Tid>)
    requires rest != [] && rest[0] < |sem| && sem[rest[0]] == 0
    ensures Elems(rest[1..]) + Signaled(Release(sem, rest[0])) == Elems(rest) + Signaled(sem)
  {
    RestElems(rest);
    SignalOne(sem, rest[0]);
  }

  lemma SignalOne(sem: seq<nat>, x: Tid)
    requires x < |sem| && sem[x] == 0
    ensures Signaled(Release(sem, x)) == Signaled(sem) + {x}
  {
  }

  /** Where a broadcast is in its loop. */
  lemma BcHolder(s: State, aux: Aux, t: Tid)
    requires Inv(s, aux) && t < |s.pc| && s.pc[t].BcTest? && s.pc[t].tmp.Some?
    ensures s.cs == Some(t) && aux.asleep == [] && RestFrom(aux, Left(aux))
    ensures aux.rest != [] && aux.rest[0] == s.pc[t].tmp.value == aux.q[Left(aux)]
  {
    assert ThreadOk(t, s.pc[t], s.sem[t], s.cs, s.m, Waiting(aux, t));
    assert s.pc[t].tmp == Nth(aux.q, Left(aux));
  }

  /** The next thread to release has an empty semaphore. */
  lemma BcReleaseEmpty(s: State, aux: Aux, t: Tid)
    requires Inv(s, aux) && t < |s.pc| && s.pc[t].BcTest? && s.pc[t].tmp.Some?
    ensures s.pc[t].tmp.value < |s.pc| && Waiting(aux, s.pc[t].tmp.value) && s.sem[s.pc[t].tmp.value] == 0
  {
    BcHolder(s, aux, t);
    var x := s.pc[t].tmp.value;
    assert ThreadOk(x, s.pc[x], s.sem[x], s.cs, s.m, Waiting(aux, x));
  }

  lemma BcReleaseDoes(s: State, t: Tid, x: Tid)
    requires s.Shaped() && Enabled(s, t, Continue) && s.pc[t] == BcTest(Some(x)) && s.sem[x] == 0
    ensures Do(s, t, Continue) == s.(sem := s.sem[x := 1], pc := s.pc[t := BcNext(x)])
  {
  }

  lemma BcReleaseKeeps(s: State, aux: Aux, t: Tid)
    requires Inv(s, aux) && Enabled(s, t, Continue) && s.pc[t].BcTest? && s.pc[t].tmp.Some?
    ensures aux.rest != [] && aux.rest[0] == s.pc[t].tmp.value && s.sem[aux.rest[0]] == 0
    ensures Inv(Do(s, t, Continue), aux.(rest := aux.rest[1..]))
  {
    var x, k := s.pc[t].tmp.value, Left(aux);
    BcHolder(s, aux, t);
    BcReleaseEmpty(s, aux, t);
    BcReleaseDoes(s, t, x);
    var aux', s' := aux.(rest := aux.rest[1..]), s.(sem := s.sem[x := 1], pc := s.pc[t := BcNext(x)]);
    RestStep(aux, k);
    forall y | 0 <= y < |s.pc| ensures ThreadOk(y, s'.pc[y], s'.sem[y], s'.cs, s'.m, Waiting(aux', y)) {
      BcReleaseThread(s, aux, aux', t, x, y);
    }
  }

  lemma BcReleaseThread(s: State, aux: Aux, aux': Aux, t: Tid, x: Tid, y: Tid)
    requires s.Shaped() && t < |s.pc| && x < |s.pc| && y < |s.pc|
    requires forall z :: 0 <= z < |s.pc| ==> ThreadOk(z, s.pc[z], s.sem[z], s.cs, s.m, Waiting(aux, z))
    requires s.pc[t].BcTest? && Waiting(aux, x) && s.sem[x] == 0 && (Waiting(aux', y) <==> Waiting(aux, y) && y != x)
    ensures ThreadOk(y, s.pc[t := BcNext(x)][y], s.sem[x := 1][y], s.cs, s.m, Waiting(aux', y))
  {
    assert ThreadOk(y, s.pc[y], s.sem[y], s.cs, s.m, Waiting(aux, y));
    assert ThreadOk(x, s.pc[x], s.sem[x], s.cs, s.m, Waiting(aux, x));
  }

  lemma RestStep(aux: Aux, k: nat)
    requires k < |aux.q| && RestFrom(aux, k) && Distinct(aux.q)
    ensures aux.rest[1..] == aux.q[k + 1..] && aux.rest[0] !in aux.rest[1..]
    ensures forall y :: y in aux.rest <==> y == aux.rest[0] || y in aux.rest[1..]
    ensures Left(aux.(rest := aux.rest[1..])) == k + 1 && RestFrom(aux.(rest := aux.rest[1..]), k + 1)
  {
  }

  lemma RestElems(rest: seq<Tid>)
    requires rest != []
    ensures Elems(rest) == Elems(rest[1..]) + {rest[0]}
  {
    forall x | x in Elems(rest) ensures x in Elems(rest[1..]) + {rest[0]} {
      var k :| 0 <= k < |rest| && rest[k] == x;
      if k > 0 { assert rest[1..][k - 1] == x; }
    }
  }

  lemma BcNextStep(s: State, aux: Aux, t: Tid)
    requires Inv(s, aux) && Enabled(s, t, Continue) && s.pc[t].BcNext?
    ensures !Enabled(s, t, Continue) || StepOk(s, aux, t, Continue, aux)
  {
    BcNextKeeps(s, aux, t);
    assert Do(s, t, Continue) == s.(pc := s.pc[t := BcTest(s.next[s.pc[t].at])]) && EventOf(s, t, Continue) == Silent;
  }

  lemma BcNextKeeps(s: State, aux: Aux, t: Tid)
    requires Inv(s, aux) && t < |s.pc| && s.pc[t].BcNext?
    ensures Inv(s.(pc := s.pc[t := BcTest(s.next[s.pc[t].at])]), aux)
  {
    assert ThreadOk(t, s.pc[t], s.sem[t], s.cs, s.m, Waiting(aux, t));
    var k := Left(aux);
    assert aux.q[k - 1] == s.pc[t].at && s.next[aux.q[k - 1]] == Nth(aux.q, k);
    BcThreads(s, aux, t, BcTest(s.next[s.pc[t].at]));
  }

  /** Inside its critical section a broadcast only moves on. */
  lemma BcThreads(s: State, aux: Aux, t: Tid, to: PC)
    requires s.Shaped() && t < |s.pc| && (s.pc[t] == BcFirst || s.pc[t].BcNext? || s.pc[t].BcTest?) && (to.BcTest? || to == BcClear)
    requires forall z :: 0 <= z < |s.pc| ==> ThreadOk(z, s.pc[z], s.sem[z], s.cs, s.m, Waiting(aux, z))
    ensures var pc := s.pc[t := to];
            forall z :: 0 <= z < |pc| ==> ThreadOk(z, pc[z], s.sem[z], s.cs, s.m, Waiting(aux, z))
  {
  }

  lemma BcClearStep(s: State, aux: Aux, t: Tid)
    requires Inv(s, aux) && Enabled(s, t, Continue) && s.pc[t] == BcClear
    ensures !Enabled(s, t, Continue) || StepOk(s, aux, t, Continue, Aux([], [], []))
  {
  }

  // ---------- every step, every run ----------

  /** Every step of every thread keeps the invariant and is an operation of the abstract condition variable. */
  lemma StepRefines(s: State, aux: Aux, t: Tid, a: Action) returns (aux': Aux)
    requires Inv(s, aux) && Enabled(s, t, a)
    ensures StepOk(s, aux, t, a, aux')
  {
    aux' := aux;
    match a
    case LockM => MutexStep(s, aux, t, a);
    case UnlockM => MutexStep(s, aux, t, a);
    case CallWait => CallStep(s, aux, t, a);
    case CallSignal => CallStep(s, aux, t, a);
    case CallBroadcast => CallStep(s, aux, t, a);
    case Continue => aux' := ContinueRefines(s, aux, t);
  }

  lemma ContinueRefines(s: State, aux: Aux, t: Tid) returns (aux': Aux)
    requires Inv(s, aux) && Enabled(s, t, Continue)
    ensures StepOk(s, aux, t, Continue, aux')
  {
    aux' := aux;
    match s.pc[t]
    case WaitEnter => EnterStep(s, aux, t);
    case SigEnter => EnterStep(s, aux, t);
    case BcEnter => EnterStep(s, aux, t);
    case WaitLink => LinkStep(s, aux, t);
    case WaitPush => PushStep(s, aux, t); aux' := Aux([t] + aux.q, [t] + aux.q, []);
    case WaitLeave => LeaveStep(s, aux, t);
    case SigLeave => LeaveStep(s, aux, t);
    case BcLeave => LeaveStep(s, aux, t);
    case WaitUnlock => MutexStep(s, aux, t, Continue);
    case WaitRelock => MutexStep(s, aux, t, Continue);
    case WaitBlock => WakeStep(s, aux, t);
    case SigTest => SigTestStep(s, aux, t);
    case SigRelease => SigReleaseStep(s, aux, t); aux' := aux.(asleep := aux.q[1..]);
    case SigPop => SigPopStep(s, aux, t); aux' := Aux(aux.q[1..], aux.q[1..], []);
    case BcFirst => BcFirstStep(s, aux, t); aux' := Aux(aux.q, [], aux.q);
    case BcTest(tmp) =>
      if tmp == None {
        BcDoneStep(s, aux, t);
      } else {
        BcReleaseStep(s, aux, t);
        aux' := aux.(rest := aux.rest[1..]);
      }
    case BcNext(_) => BcNextStep(s, aux, t);
    case BcClear => BcClearStep(s, aux, t); aux' := Aux([], [], []);
  }

  datatype Step = Step(t: Tid, a: Action)

  /** The states of a run, from `s` on. */
  ghost predicate IsRun(s: State, steps: seq<Step>, t: State)
    decreases |steps|
  {
    if steps == [] then s == t
    else s.Shaped() && Enabled(s, steps[0].t, steps[0].a) && IsRun(Do(s, steps[0].t, steps[0].a), steps[1..], t)
  }

  /** A sequence of events leads from one abstract state to another. */
  ghost predicate Performs(a: Abstract, events: seq<Event>, b: Abstract)
    decreases |events|
  {
    if events == [] then a == b
    else Can(a, events[0]) && Performs(Perform(a, events[0]), events[1..], b)
  }

  ghost function EventsOf(s: State, steps: seq<Step>): seq<Event>
    decreases |steps|
  {
    if steps == [] || !s.Shaped() || !Enabled(s, steps[0].t, steps[0].a) then []
    else [EventOf(s, steps[0].t, steps[0].a)] + EventsOf(Do(s, steps[0].t, steps[0].a), steps[1..])
  }

  lemma {:induction false} RunRefines(s: State, aux: Aux, steps: seq<Step>, t: State) returns (aux': Aux)
    requires Inv(s, aux) && IsRun(s, steps, t)
    ensures Inv(t, aux') && Performs(AbstractOf(s, aux), EventsOf(s, steps), AbstractOf(t, aux'))
    decreases |steps|
  {
    if steps == [] {
      aux' := aux;
    } else {
      var u := Do(s, steps[0].t, steps[0].a);
      var mid := StepRefines(s, aux, steps[0].t, steps[0].a);
      aux' := RunRefines(u, mid, steps[1..], t);
      var events := EventsOf(s, steps);
      assert events[0] == EventOf(s, steps[0].t, steps[0].a) && events[1..] == EventsOf(u, steps[1..]);
    }
  }

  /** Every state of every run: the list is well formed, and the run is one of the abstract condition variable. */
  lemma EveryRun(s: State, steps: seq<Step>, t: State) returns (aux: Aux)
    requires Init(s) && IsRun(s, steps, t)
    ensures Inv(t, aux) && Performs(Abstract([], {}, None), EventsOf(s, steps), AbstractOf(t, aux))
  {
    var start := Aux([], [], []);
    assert Inv(s, start) && AbstractOf(s, start) == Abstract([], {}, None);
    aux := RunRefines(s, start, steps, t);
  }

  // ---------- what the abstract condition variable promises ----------

  /** No thread is asleep twice, or both asleep and released. */
  ghost predicate AbstractOk(a: Abstract) {
    Distinct(a.asleep) && forall k :: 0 <= k < |a.asleep| ==> a.asleep[k] !in a.released
  }

  lemma PerformKeepsOk(a: Abstract, e: Event)
    requires AbstractOk(a) && Can(a, e)
    ensures AbstractOk(Perform(a, e))
  {
  }

  /** In wait: slept and not yet woken. */
  function InWait(asleep: seq<Tid>, released: set<Tid>, t: Tid): nat {
    if t in asleep || t in released then 1 else 0
  }

  function Count(events: seq<Event>, e: Event): nat {
    if events == [] then 0 else (if events[0] == e then 1 else 0) + Count(events[1..], e)
  }

  /** A thread wakes as often as it went to sleep, one less while it is still in wait. */
  lemma {:induction false} SleepsMatchWakes(a: Abstract, events: seq<Event>, b: Abstract, t: Tid)
    requires AbstractOk(a) && Performs(a, events, b)
    ensures AbstractOk(b)
    ensures Count(events, Sleep(t)) + InWait(a.asleep, a.released, t) == Count(events, Wake(t)) + InWait(b.asleep, b.released, t)
    decreases |events|
  {
    if events != [] {
      var c := Perform(a, events[0]);
      PerformKeepsOk(a, events[0]);
      PerformBalance(a, events[0], t);
      SleepsMatchWakes(c, events[1..], b, t);
    }
  }

  lemma PerformBalance(a: Abstract, e: Event, t: Tid)
    requires AbstractOk(a) && Can(a, e)
    ensures var c := Perform(a, e);
            (if e == Sleep(t) then 1 else 0) + InWait(a.asleep, a.released, t)
            == (if e == Wake(t) then 1 else 0) + InWait(c.asleep, c.released, t)
  {
    if e == Signal && a.asleep != [] {
      assert t in a.asleep <==> t == a.asleep[0] || t in a.asleep[1..];
    }
  }

  /** Every wake-up in a run of the code was owed to its thread, and no thread has two of them pending. */
  lemma WakesAreOwed(s: State, steps: seq<Step>, u: State, t: Tid)
    requires Init(s) && IsRun(s, steps, u) && t < |u.pc|
    ensures Count(EventsOf(s, steps), Wake(t)) <= Count(EventsOf(s, steps), Sleep(t)) <= Count(EventsOf(s, steps), Wake(t)) + 1
    ensures u.Shaped() && u.sem[t] <= 1
    ensures u.sem[t] == 1 ==> Count(EventsOf(s, steps), Sleep(t)) == Count(EventsOf(s, steps), Wake(t)) + 1
  {
    var aux := EveryRun(s, steps, u);
    SleepsMatchWakes(Abstract([], {}, None), EventsOf(s, steps), AbstractOf(u, aux), t);
    assert ThreadOk(t, u.pc[t], u.sem[t], u.cs, u.m, Waiting(aux, t));
  }
}
