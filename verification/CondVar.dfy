/**
 The condition variable built from critical sections and per-thread semaphores: one step
 for each statement of wait, signal and broadcast, threads interleaved at will.
 */
module CondVar {
  import opened Sequences
  import opened Wrappers

  type Tid = nat

  /** Where a thread is; each value names the statement it will execute next. */
  datatype PC =
    | Idle
    | WaitEnter | WaitLink | WaitPush | WaitLeave | WaitUnlock | WaitBlock | WaitRelock
    | SigEnter | SigTest | SigRelease | SigPop | SigLeave
    | BcEnter | BcFirst | BcTest(tmp: Option<Tid>) | BcNext(at: Tid) | BcClear | BcLeave

  /**
   Thread t owns the waiter record t.  `cs` is the holder of the variable's critical section,
   `m` that of the mutex.
   */
  datatype State = State(pc: seq<PC>, next: seq<Option<Tid>>, sem: seq<nat>,
                         waiters: Option<Tid>, cs: Option<Tid>, m: Option<Tid>) {
    ghost predicate Shaped() {
      |next| == |sem| == |pc| && (waiters.Some? ==> waiters.value < |pc|)
      && (forall t :: 0 <= t < |pc| ==> (next[t].Some? ==> next[t].value < |pc|))
      && (forall t :: 0 <= t < |pc| && pc[t].BcTest? && pc[t].tmp.Some? ==> pc[t].tmp.value < |pc|)
      && (forall t :: 0 <= t < |pc| && pc[t].BcNext? ==> pc[t].at < |pc|)
    }
  }

  ghost predicate Init(s: State) {
    && |s.next| == |s.sem| == |s.pc| && s.waiters == None && s.cs == None && s.m == None
    && forall t :: 0 <= t < |s.pc| ==> s.pc[t] == Idle && s.next[t] == None && s.sem[t] == 0
  }

  /** What an idle thread does next; Continue is the next statement of the macro it is in. */
  datatype Action = LockM | UnlockM | CallWait | CallSignal | CallBroadcast | Continue

  /** wait is called with the mutex held; a critical section is entered when it is free. */
  ghost predicate Enabled(s: State, t: Tid, a: Action)
    requires s.Shaped()
  {
    t < |s.pc| &&
    match a
    case LockM => s.pc[t] == Idle && s.m == None
    case UnlockM => s.pc[t] == Idle && s.m == Some(t)
    case CallWait => s.pc[t] == Idle && s.m == Some(t)
    case CallSignal => s.pc[t] == Idle
    case CallBroadcast => s.pc[t] == Idle
    case Continue =>
      match s.pc[t]
      case Idle => false
      case WaitEnter => s.cs == None
      case SigEnter => s.cs == None
      case BcEnter => s.cs == None
      case WaitBlock => s.sem[t] > 0
      case WaitRelock => s.m == None
      case _ => true
  }

  const MAX_COUNT: nat := 1

  /** ReleaseSemaphore fails without effect when the count is at its maximum. */
  ghost function Release(sem: seq<nat>, t: Tid): seq<nat>
    requires t < |sem|
  {
    if sem[t] < MAX_COUNT then sem[t := sem[t] + 1] else sem
  }

  ghost function Goto(s: State, t: Tid, pc: PC): State
    requires t < |s.pc|
  {
    s.(pc := s.pc[t := pc])
  }

  ghost function Do(s: State, t: Tid, a: Action): State
    requires s.Shaped() && Enabled(s, t, a)
  {
    match a
    case LockM => s.(m := Some(t))
    case UnlockM => s.(m := None)
    case CallWait => Goto(s, t, WaitEnter)
    case CallSignal => Goto(s, t, SigEnter)
    case CallBroadcast => Goto(s, t, BcEnter)
    case Continue =>
      match s.pc[t]
      case WaitEnter => Goto(s.(cs := Some(t)), t, WaitLink)
      case WaitLink => Goto(s.(next := s.next[t := s.waiters]), t, WaitPush)
      case WaitPush => Goto(s.(waiters := Some(t)), t, WaitLeave)
      case WaitLeave => Goto(s.(cs := None), t, WaitUnlock)
      case WaitUnlock => Goto(s.(m := None), t, WaitBlock)
      case WaitBlock => Goto(s.(sem := s.sem[t := s.sem[t] - 1]), t, WaitRelock)
      case WaitRelock => Goto(s.(m := Some(t)), t, Idle)
      case SigEnter => Goto(s.(cs := Some(t)), t, SigTest)
      case SigTest => Goto(s, t, if s.waiters == None then SigLeave else SigRelease)
      case SigRelease =>
        if s.waiters == None then s else Goto(s.(sem := Release(s.sem, s.waiters.value)), t, SigPop)
      case SigPop =>
        if s.waiters == None then s else Goto(s.(waiters := s.next[s.waiters.value]), t, SigLeave)
      case SigLeave => Goto(s.(cs := None), t, Idle)
      case BcEnter => Goto(s.(cs := Some(t)), t, BcFirst)
      case BcFirst => Goto(s, t, BcTest(s.waiters))
      case BcTest(tmp) =>
        if tmp == None then Goto(s, t, BcClear)
        else Goto(s.(sem := Release(s.sem, tmp.value)), t, BcNext(tmp.value))
      case BcNext(at) => Goto(s, t, BcTest(s.next[at]))
      case BcClear => Goto(s.(waiters := None), t, BcLeave)
      case BcLeave => Goto(s.(cs := None), t, Idle)
  }

  // ---------- the abstract condition variable ----------

  /** Threads asleep, most recent first; threads told to wake up; the holder of the mutex. */
  datatype Abstract = Abstract(asleep: seq<Tid>, released: set<Tid>, m: Option<Tid>)

  datatype Event = Silent | Lock(t: Tid) | Unlock(t: Tid) | Sleep(t: Tid) | Signal | Broadcast | Wake(t: Tid)

  ghost predicate Can(a: Abstract, e: Event) {
    match e
    case Lock(t) => a.m == None
    case Unlock(t) => a.m == Some(t)
    case Sleep(t) => a.m == Some(t) && t !in a.asleep && t !in a.released
    case Wake(t) => t in a.released
    case _ => true
  }

  ghost function Perform(a: Abstract, e: Event): Abstract
    requires Can(a, e)
  {
    match e
    case Silent => a
    case Lock(t) => a.(m := Some(t))
    case Unlock(t) => a.(m := None)
    case Sleep(t) => a.(asleep := [t] + a.asleep)
    case Signal => if a.asleep == [] then a else a.(asleep := a.asleep[1..], released := a.released + {a.asleep[0]})
    case Broadcast => a.(asleep := [], released := a.released + set k | 0 <= k < |a.asleep| :: a.asleep[k])
    case Wake(t) => a.(released := a.released - {t})
  }

  /** The statement at which each operation takes effect. */
  ghost function EventOf(s: State, t: Tid, a: Action): Event
    requires s.Shaped() && Enabled(s, t, a)
  {
    match a
    case LockM => Lock(t)
    case UnlockM => Unlock(t)
    case Continue =>
      (match s.pc[t]
       case WaitPush => Sleep(t)
       case WaitUnlock => Unlock(t)
       case WaitBlock => Wake(t)
       case WaitRelock => Lock(t)
       case SigRelease => Signal
       case SigTest => if s.waiters == None then Signal else Silent
       case BcFirst => Broadcast
       case _ => Silent)
    case _ => Silent
  }

  // ---------- the invariant ----------

  /**
   The waiter list `q`; the threads on it that no signal or broadcast has chosen yet; and those that
   a running broadcast has chosen and still has to release.
   */
  datatype Aux = Aux(q: seq<Tid>, asleep: seq<Tid>, rest: seq<Tid>)

  predicate InCs(pc: PC) {
    match pc
    case WaitLink => true
    case WaitPush => true
    case WaitLeave => true
    case SigTest => true
    case SigRelease => true
    case SigPop => true
    case SigLeave => true
    case BcFirst => true
    case BcTest(_) => true
    case BcNext(_) => true
    case BcClear => true
    case BcLeave => true
    case _ => false
  }

  /** Inside wait and in the list, as far as the thread itself knows. */
  predicate Enqueued(pc: PC) { pc == WaitLeave || pc == WaitUnlock || pc == WaitBlock }

  predicate HoldsMutexInWait(pc: PC) {
    pc == WaitEnter || pc == WaitLink || pc == WaitPush || pc == WaitLeave || pc == WaitUnlock
  }

  function Nth(q: seq<Tid>, k: nat): Option<Tid> { if k < |q| then Some(q[k]) else None }

  /** Following `next` from `waiters` gives exactly the threads of q: the list ends, without repeats. */
  ghost predicate IsList(waiters: Option<Tid>, next: seq<Option<Tid>>, q: seq<Tid>) {
    && waiters == Nth(q, 0) && Distinct(q)
    && (forall k :: 0 <= k < |q| ==> q[k] < |next| && next[q[k]] == Nth(q, k + 1))
  }

  /** `rest` is the part of q from its k-th thread on. */
  predicate RestFrom(aux: Aux, k: nat) { k <= |aux.q| && aux.rest == aux.q[k..] }

  predicate Settled(aux: Aux) { aux.asleep == aux.q && aux.rest == [] }

  /** What the holder of the critical section, at `pc`, has already done to the list. */
  ghost predicate HolderOk(pc: PC, next: Option<Tid>, waiters: Option<Tid>, aux: Aux) {
    match pc
    case WaitPush => Settled(aux) && next == waiters
    case SigRelease => Settled(aux) && aux.q != []
    case SigPop => aux.q != [] && aux.asleep == aux.q[1..] && aux.rest == []
    case BcTest(tmp) => aux.asleep == [] && RestFrom(aux, Left(aux)) && tmp == Nth(aux.q, Left(aux))
    case BcNext(at) => aux.asleep == [] && Left(aux) > 0 && RestFrom(aux, Left(aux)) && at == aux.q[Left(aux) - 1]
    case BcClear => aux.asleep == [] && aux.rest == []
    case _ => Settled(aux)
  }

  /** How many threads of the list a running broadcast is past. */
  function Left(aux: Aux): nat { if |aux.rest| <= |aux.q| then |aux.q| - |aux.rest| else 0 }

  /** `waiting`: on the list and not released. */
  predicate ThreadOk(t: Tid, pc: PC, sem: nat, cs: Option<Tid>, m: Option<Tid>, waiting: bool) {
    && (InCs(pc) <==> cs == Some(t))
    && (HoldsMutexInWait(pc) ==> m == Some(t))
    && sem <= MAX_COUNT
    && (sem > 0 ==> pc == WaitUnlock || pc == WaitBlock)
    && (Enqueued(pc) && sem == 0 <==> waiting)
  }

  predicate Waiting(aux: Aux, t: Tid) { t in aux.asleep || t in aux.rest }

  ghost predicate Inv(s: State, aux: Aux) {
    && s.Shaped()
    && (if s.cs == None then Settled(aux)
        else s.cs.value < |s.pc| && HolderOk(s.pc[s.cs.value], s.next[s.cs.value], s.waiters, aux))
    && IsList(s.waiters, s.next, aux.q)
    && (forall t :: 0 <= t < |s.pc| ==> ThreadOk(t, s.pc[t], s.sem[t], s.cs, s.m, Waiting(aux, t)))
  }

  ghost function Elems(q: seq<Tid>): set<Tid> { set k | 0 <= k < |q| :: q[k] }

  ghost function Signaled(sem: seq<nat>): set<Tid> { set t: nat {:trigger sem[t]} | t < |sem| && sem[t] > 0 }

  ghost function AbstractOf(s: State, aux: Aux): Abstract {
    Abstract(aux.asleep, Elems(aux.rest) + Signaled(s.sem), s.m)
  }
}
