/**
 The try-lock of trylock, as a state machine whose steps are the mutex-protected
 sections of its methods and the channel operations between them. Any number of
 callers take steps in any order.
 */
module TryLock {
  import opened Wrappers

  type Chan = nat

  /** Where a caller of Mutex is. A waiter holds the channel that tryLock gave it. */
  datatype Caller = Idle | Waiting(on: Chan) | Retrying | Holding

  /** c is the lock's channel field; channels 0..made-1 have been made so far. */
  datatype State = State(c: Option<Chan>, made: nat, closed: set<Chan>, callers: seq<Caller>)

  /** The steps of caller t. */
  datatype Action =
    | Lock(t: nat)       // tryLock inside Lock
    | TryLock(t: nat)    // tryLock inside TryLock
    | Wake(t: nat)       // the receive from the wait channel returns
    | Unlock(t: nat)

  predicate Enabled(s: State, a: Action) {
    && a.t < |s.callers|
    && match a
       case Lock(t) => s.callers[t].Idle? || s.callers[t].Retrying?
       case TryLock(t) => s.callers[t].Idle?
       case Wake(t) => s.callers[t].Waiting? && s.callers[t].on in s.closed
       case Unlock(t) => s.callers[t].Holding?
  }

  /** Unlock closes the channel in c: Go panics if there is none or it is closed. */
  predicate Panics(s: State, a: Action) {
    a.Unlock? && (s.c.None? || s.c.value in s.closed)
  }

  function Do(s: State, a: Action): State
    requires Enabled(s, a) && !Panics(s, a)
  {
    match a
    case Lock(t) =>
      if s.c.None? then Take(s, t)
      else s.(callers := s.callers[t := Waiting(s.c.value)])
    case TryLock(t) =>
      if s.c.None? then Take(s, t) else s
    case Wake(t) =>
      s.(callers := s.callers[t := Retrying])
    case Unlock(t) =>
      s.(c := None, closed := s.closed + {s.c.value}, callers := s.callers[t := Idle])
  }

  function Take(s: State, t: nat): State
    requires t < |s.callers|
  {
    s.(c := Some(s.made), made := s.made + 1, callers := s.callers[t := Holding])
  }

  predicate Init(s: State) {
    s.c.None? && s.made == 0 && s.closed == {} && forall t :: 0 <= t < |s.callers| ==> s.callers[t].Idle?
  }

  ghost predicate Inv(s: State) {
    && (s.c.Some? ==> s.c.value < s.made)
    && (forall ch: Chan :: ch in s.closed <==> ch < s.made && s.c != Some(ch))
    && (forall t :: 0 <= t < |s.callers| && s.callers[t].Waiting? ==> s.callers[t].on < s.made)
    && (forall t :: 0 <= t < |s.callers| && s.callers[t].Holding? ==> s.c.Some?)
    && (forall t, u :: 0 <= t < u < |s.callers| ==> !(s.callers[t].Holding? && s.callers[u].Holding?))
    && (s.c.Some? ==> exists t :: 0 <= t < |s.callers| && s.callers[t].Holding?)
  }

  /** A run: its states and the actions between them. */
  ghost predicate Run(states: seq<State>, actions: seq<Action>) {
    && |states| == |actions| + 1
    && Init(states[0])
    && forall i :: 0 <= i < |actions| ==>
         Enabled(states[i], actions[i]) && !Panics(states[i], actions[i]) && states[i + 1] == Do(states[i], actions[i])
  }

  lemma StepKeepsInv(s: State, a: Action)
    requires Inv(s) && Enabled(s, a)
    ensures !Panics(s, a) && Inv(Do(s, a))
  {
    var s' := Do(s, a);
    if s'.c.Some? && s.c.Some? {
      var h :| 0 <= h < |s.callers| && s.callers[h].Holding?;
      assert s'.callers[h].Holding?;
    } else if s'.c.Some? {
      assert s'.callers[a.t].Holding?;
    }
  }

  /** The invariant holds in every state of every run, and no step of a run can panic. */
  lemma {:induction false} RunKeepsInv(states: seq<State>, actions: seq<Action>, i: nat)
    requires Run(states, actions) && i < |states|
    ensures Inv(states[i])
    ensures forall a :: Enabled(states[i], a) ==> !Panics(states[i], a)
    decreases i
  {
    if i > 0 {
      RunKeepsInv(states, actions, i - 1);
      StepKeepsInv(states[i - 1], actions[i - 1]);
    }
    forall a | Enabled(states[i], a) ensures !Panics(states[i], a) {
      StepKeepsInv(states[i], a);
    }
  }

  /** At most one caller holds the lock, in every state of every run. */
  lemma MutualExclusion(states: seq<State>, actions: seq<Action>, i: nat, t: nat, u: nat)
    requires Run(states, actions) && i < |states|
    requires t < |states[i].callers| && u < |states[i].callers|
    requires states[i].callers[t].Holding? && states[i].callers[u].Holding?
    ensures t == u
  {
    RunKeepsInv(states, actions, i);
  }

  /** The channel that an action closes, if any. */
  function Closes(s: State, a: Action): Option<Chan> {
    if a.Unlock? then s.c else None
  }

  lemma {:induction false} ClosedGrows(states: seq<State>, actions: seq<Action>, i: nat, j: nat)
    requires Run(states, actions) && i <= j < |states|
    ensures states[i].closed <= states[j].closed
    decreases j
  {
    if i < j {
      ClosedGrows(states, actions, i, j - 1);
      assert states[j - 1 + 1] == Do(states[j - 1], actions[j - 1]);
    }
  }

  /** No run closes a channel twice. */
  lemma ClosedOnce(states: seq<State>, actions: seq<Action>, i: nat, j: nat)
    requires Run(states, actions) && i < j < |actions|
    requires Closes(states[i], actions[i]).Some?
    ensures Closes(states[i], actions[i]) != Closes(states[j], actions[j])
  {
    assert states[i + 1] == Do(states[i], actions[i]);
    ClosedGrows(states, actions, i + 1, j);
    RunKeepsInv(states, actions, j);
  }

  /**
   No wake-up is lost. A waiter's channel is closed already, or it is the
   channel of the one holder, whose Unlock lets the waiter through.
   */
  lemma WaiterIsWoken(states: seq<State>, actions: seq<Action>, i: nat, t: nat) returns (h: nat)
    requires Run(states, actions) && i < |states|
    requires t < |states[i].callers| && states[i].callers[t].Waiting?
    ensures Enabled(states[i], Wake(t)) ||
            (&& states[i].c == Some(states[i].callers[t].on)
             && Enabled(states[i], Unlock(h)) && !Panics(states[i], Unlock(h))
             && Enabled(Do(states[i], Unlock(h)), Wake(t)))
  {
    RunKeepsInv(states, actions, i);
    h := 0;
    if states[i].c == Some(states[i].callers[t].on) {
      h :| 0 <= h < |states[i].callers| && states[i].callers[h].Holding?;
      assert h != t;
    }
  }

  /** The lock is free exactly when nobody holds it, and then the next attempt gets it. */
  lemma FreeLockIsTaken(states: seq<State>, actions: seq<Action>, i: nat, t: nat)
    requires Run(states, actions) && i < |states|
    requires Enabled(states[i], Lock(t))
    ensures !Panics(states[i], Lock(t))
    ensures Do(states[i], Lock(t)).callers[t].Holding?
       <==> forall u :: 0 <= u < |states[i].callers| ==> !states[i].callers[u].Holding?
  {
    RunKeepsInv(states, actions, i);
    if states[i].c.Some? {
      var h :| 0 <= h < |states[i].callers| && states[i].callers[h].Holding?;
    }
  }

  /** The lock object itself. Each method is one mutex-protected section, so one step. */
  class Mutex {
    var c: Option<Chan>
    var made: nat
    var closed: set<Chan>

    constructor ()
      ensures forall callers :: (forall t :: 0 <= t < |callers| ==> callers[t] == Idle) ==> Init(With(callers))
    {
      c, made, closed := None, 0, {};
    }

    /** The state machine's state, given where the callers are. */
    function With(callers: seq<Caller>): State
      reads this
    {
      State(c, made, closed, callers)
    }

    /** tryLock, whose effect on the lock is that of the Lock step of any caller */
    method TryLockOnce() returns (busy: bool, wait: Option<Chan>)
      modifies this
      ensures busy <==> wait.Some?
      ensures forall callers, t :: Enabled(old(With(callers)), Lock(t)) ==>
                With(callers[t := if busy then Waiting(wait.value) else Holding]) == Do(old(With(callers)), Lock(t))
    {
      if c.None? {
        c := Some(made);
        made := made + 1;
        return false, None;
      }
      return true, c;
    }

    /** Unlock, by a caller that holds the lock */
    method Release()
      requires c.Some? && c.value !in closed
      modifies this
      ensures forall callers, t :: Enabled(old(With(callers)), Unlock(t)) ==>
                With(callers[t := Idle]) == Do(old(With(callers)), Unlock(t))
    {
      closed := closed + {c.value};
      c := None;
    }
  }
}
