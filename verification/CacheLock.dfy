/**
 The per-address lock of the address cache. Unlike Mutex, releasing takes two
 steps: the address is freed under the mutex, and the channel is closed after.
 */
module CacheLock {
  type Addr = string
  type Chan = nat

  /** Where one use of the lock is. `ch` is the channel it made or was given. */
  datatype User =
    | Idle
    | Waiting(addr: Addr, ch: Chan)
    | Holding(addr: Addr, ch: Chan)
    | Releasing(addr: Addr, ch: Chan)

  /** `made` lists, for each channel, the address it was made for. */
  datatype State = State(addrs: map<Addr, Chan>, made: seq<Addr>, closed: set<Chan>, users: seq<User>)

  datatype Action =
    | TryLock(t: nat, addr: Addr)
    | Free(t: nat)     // the first half of the done function: delete the address
    | Close(t: nat)    // the second half: close the channel
    | Wake(t: nat)

  predicate Enabled(s: State, a: Action) {
    && a.t < |s.users|
    && match a
       case TryLock(t, _) => s.users[t].Idle?
       case Free(t) => s.users[t].Holding?
       case Close(t) => s.users[t].Releasing?
       case Wake(t) => s.users[t].Waiting? && s.users[t].ch in s.closed
  }

  /** Go panics on closing a closed channel. */
  predicate Panics(s: State, a: Action)
    requires Enabled(s, a)
  {
    a.Close? && s.users[a.t].ch in s.closed
  }

  function Do(s: State, a: Action): State
    requires Enabled(s, a)
  {
    match a
    case TryLock(t, addr) =>
      if addr in s.addrs then s.(users := s.users[t := Waiting(addr, s.addrs[addr])])
      else
        var ch := |s.made|;
        s.(addrs := s.addrs[addr := ch], made := s.made + [addr], users := s.users[t := Holding(addr, ch)])
    case Free(t) =>
      var u := s.users[t];
      s.(addrs := s.addrs - {u.addr}, users := s.users[t := Releasing(u.addr, u.ch)])
    case Close(t) =>
      s.(closed := s.closed + {s.users[t].ch}, users := s.users[t := Idle])
    case Wake(t) =>
      s.(users := s.users[t := Idle])
  }

  predicate Init(s: State) {
    s.addrs == map[] && s.made == [] && s.closed == {} && forall t :: 0 <= t < |s.users| ==> s.users[t].Idle?
  }

  /** User t has made channel ch and not yet closed it. */
  predicate Owns(s: State, t: nat, ch: Chan) {
    t < |s.users| && (s.users[t].Holding? || s.users[t].Releasing?) && s.users[t].ch == ch
  }

  /** Every channel was made for the address its user names; the channels of owners are open and their own. */
  ghost predicate UsersOk(s: State) {
    && (forall t :: 0 <= t < |s.users| && !s.users[t].Idle? ==>
          s.users[t].ch < |s.made| && s.made[s.users[t].ch] == s.users[t].addr)
    && (forall t: nat, ch: Chan :: Owns(s, t, ch) ==> ch !in s.closed)
    && (forall t: nat, u: nat, ch: Chan :: Owns(s, t, ch) && Owns(s, u, ch) ==> t == u)
  }

  /** The locked addresses are those with a holder, and the map gives the holder's channel. */
  ghost predicate HoldersOk(s: State) {
    && (forall t :: 0 <= t < |s.users| && s.users[t].Holding? ==>
          s.users[t].addr in s.addrs && s.addrs[s.users[t].addr] == s.users[t].ch)
    && (forall addr :: addr in s.addrs ==> s.addrs[addr] < |s.made| && s.made[s.addrs[addr]] == addr)
    && (forall addr :: addr in s.addrs ==> exists t: nat :: t < |s.users| && s.users[t] == Holding(addr, s.addrs[addr]))
  }

  /** Every channel is closed or owned by a user that will close it. */
  ghost predicate ChansOk(s: State) {
    && (forall ch: Chan :: ch in s.closed ==> ch < |s.made|)
    && (forall ch: Chan :: ch < |s.made| && ch !in s.closed ==> exists t: nat :: Owns(s, t, ch))
  }

  ghost predicate Inv(s: State) {
    UsersOk(s) && HoldersOk(s) && ChansOk(s)
  }

  /** After a step the other users own what they owned. */
  lemma OwnsElsewhere(s: State, a: Action, t: nat, ch: Chan)
    requires Enabled(s, a) && t != a.t
    ensures Owns(Do(s, a), t, ch) <==> Owns(s, t, ch)
  {
  }

  lemma StepUsersOk(s: State, a: Action)
    requires Inv(s) && Enabled(s, a)
    ensures UsersOk(Do(s, a))
  {
    hide HoldersOk;
    var s' := Do(s, a);
    if a.TryLock? && a.addr in s.addrs {
      LockedChan(s, a.addr);
    }
    if a.Close? {
      assert Owns(s, a.t, s.users[a.t].ch);
    }
    forall t: nat, ch: Chan | Owns(s', t, ch)
      ensures ch !in s'.closed
      ensures Owns(s, t, ch) || (t == a.t && ch == |s.made|)
    {
      if t != a.t {
        OwnsElsewhere(s, a, t, ch);
      } else if a.Free? {
        assert Owns(s, t, ch);
      }
    }
  }

  lemma LockedChan(s: State, addr: Addr)
    requires HoldersOk(s) && addr in s.addrs
    ensures s.addrs[addr] < |s.made| && s.made[s.addrs[addr]] == addr
  {
  }

  lemma StepHoldersOk(s: State, a: Action)
    requires Inv(s) && Enabled(s, a)
    ensures HoldersOk(Do(s, a))
  {
    hide ChansOk;
    var s' := Do(s, a);
    if a.Free? {
      FreeKeepsOthers(s, a.t);
    }
    forall addr | addr in s'.addrs
      ensures exists t: nat :: t < |s'.users| && s'.users[t] == Holding(addr, s'.addrs[addr])
    {
      if addr in s.addrs {
        var t: nat :| t < |s.users| && s.users[t] == Holding(addr, s.addrs[addr]);
        assert t != a.t ==> s'.users[t] == s.users[t];
      } else {
        assert s'.users[a.t] == Holding(addr, s'.addrs[addr]);
      }
    }
  }

  /** Holders of one address are one user. */
  lemma FreeKeepsOthers(s: State, t: nat)
    requires UsersOk(s) && HoldersOk(s) && t < |s.users| && s.users[t].Holding?
    ensures forall u :: 0 <= u < |s.users| && u != t && s.users[u].Holding? ==> s.users[u].addr != s.users[t].addr
  {
    forall u | 0 <= u < |s.users| && u != t && s.users[u].Holding?
      ensures s.users[u].addr != s.users[t].addr
    {
      assert Owns(s, u, s.users[u].ch) && Owns(s, t, s.users[t].ch);
    }
  }

  lemma StepChansOk(s: State, a: Action)
    requires Inv(s) && Enabled(s, a)
    ensures ChansOk(Do(s, a))
  {
    hide HoldersOk;
    var s' := Do(s, a);
    forall ch: Chan | ch < |s'.made| && ch !in s'.closed
      ensures exists t: nat :: Owns(s', t, ch)
    {
      if ch < |s.made| {
        var t: nat :| Owns(s, t, ch);
        assert Owns(s', t, ch);
      } else {
        assert Owns(s', a.t, ch);
      }
    }
  }

  ghost predicate Run(states: seq<State>, actions: seq<Action>) {
    && |states| == |actions| + 1
    && Init(states[0])
    && forall i :: 0 <= i < |actions| ==>
         Enabled(states[i], actions[i]) && !Panics(states[i], actions[i]) && states[i + 1] == Do(states[i], actions[i])
  }

  /** The invariant holds in every state of every run, so no step of a run can panic. */
  lemma {:induction false} RunKeepsInv(states: seq<State>, actions: seq<Action>, i: nat)
    requires Run(states, actions) && i < |states|
    ensures Inv(states[i])
    ensures forall a :: Enabled(states[i], a) ==> !Panics(states[i], a)
    decreases i
  {
    if i > 0 {
      RunKeepsInv(states, actions, i - 1);
      StepUsersOk(states[i - 1], actions[i - 1]);
      StepHoldersOk(states[i - 1], actions[i - 1]);
      StepChansOk(states[i - 1], actions[i - 1]);
      assert states[i] == Do(states[i - 1], actions[i - 1]);
    }
    forall a | Enabled(states[i], a) ensures !Panics(states[i], a) {
      NoPanic(states[i], a);
    }
  }

  lemma NoPanic(s: State, a: Action)
    requires UsersOk(s) && Enabled(s, a)
    ensures !Panics(s, a)
  {
    if a.Close? {
      assert Owns(s, a.t, s.users[a.t].ch);
    }
  }

  /** At most one holder per address, in every state of every run. */
  lemma MutualExclusion(states: seq<State>, actions: seq<Action>, i: nat, t: nat, u: nat)
    requires Run(states, actions) && i < |states|
    requires t < |states[i].users| && u < |states[i].users|
    requires states[i].users[t].Holding? && states[i].users[u].Holding?
    requires states[i].users[t].addr == states[i].users[u].addr
    ensures t == u
  {
    RunKeepsInv(states, actions, i);
    if t != u {
      FreeKeepsOthers(states[i], t);
    }
  }

  /**
   A waiter's channel is closed already, or belongs to one user that holds the
   waiter's address, or that has freed it and is about to close the channel.
   */
  lemma WaiterIsWoken(states: seq<State>, actions: seq<Action>, i: nat, t: nat) returns (h: nat)
    requires Run(states, actions) && i < |states|
    requires t < |states[i].users| && states[i].users[t].Waiting?
    ensures var s := states[i];
            var w := s.users[t];
            || Enabled(s, Wake(t))
            || (h < |s.users| && (s.users[h] == Holding(w.addr, w.ch) || s.users[h] == Releasing(w.addr, w.ch)))
  {
    RunKeepsInv(states, actions, i);
    h := 0;
    var s := states[i];
    if s.users[t].ch !in s.closed {
      h :| Owns(s, h, s.users[t].ch);
    }
  }

  ghost predicate Holds(s: State, t: int, addr: Addr) {
    0 <= t < |s.users| && s.users[t].Holding? && s.users[t].addr == addr
  }

  /** An attempt takes the address if and only if nobody holds it; otherwise it waits on the holder's channel. */
  lemma FreeAddressIsTaken(states: seq<State>, actions: seq<Action>, i: nat, t: nat, addr: Addr)
    requires Run(states, actions) && i < |states| && Enabled(states[i], TryLock(t, addr))
    ensures var s, s' := states[i], Do(states[i], TryLock(t, addr));
            && (Holds(s', t, addr) <==> forall u :: !Holds(s, u, addr))
            && (forall u :: Holds(s, u, addr) ==> s'.users[t] == Waiting(addr, s.users[u].ch))
  {
    RunKeepsInv(states, actions, i);
    var s := states[i];
    if addr in s.addrs {
      var u: nat :| u < |s.users| && s.users[u] == Holding(addr, s.addrs[addr]);
      assert Holds(s, u, addr);
    }
  }

  lemma {:induction false} ClosedGrows(states: seq<State>, actions: seq<Action>, i: nat, j: nat)
    requires Run(states, actions) && i <= j < |states|
    ensures states[i].closed <= states[j].closed
    decreases j
  {
    if i < j {
      ClosedGrows(states, actions, i, j - 1);
      assert states[j - 1 + 1] == Do(states[j - 1], actions[j - 1]);
    }
  }

  /** No run closes a channel twice. */
  lemma ClosedOnce(states: seq<State>, actions: seq<Action>, i: nat, j: nat)
    requires Run(states, actions) && i < j < |actions|
    requires actions[i].Close? && actions[j].Close?
    ensures states[i].users[actions[i].t].ch != states[j].users[actions[j].t].ch
  {
    assert states[i + 1] == Do(states[i], actions[i]);
    ClosedGrows(states, actions, i + 1, j);
    assert !Panics(states[j], actions[j]);
  }
}
