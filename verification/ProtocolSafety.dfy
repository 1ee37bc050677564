/** What the invariant gives: no deadlock, no lost changes, a consistent registry. */
module ProtocolSafety {
  import opened Interface
  import opened Gate
  import opened Protocol
  import opened ProtocolFacts
  import opened ProtocolInvariant

  // ---------- No deadlock ----------

  ghost predicate WaitsFor(st: State, t: Thread, u: Thread) {
    exists m: Mutex :: st.At(t).Wants(m) && st.At(u).Holds(m)
  }

  /** Each thread of the cycle waits for a mutex that the next one holds. */
  ghost predicate Cycle(st: State, cyc: seq<Thread>) {
    && |cyc| > 0
    && (forall i :: 0 <= i < |cyc| - 1 ==> WaitsFor(st, cyc[i], cyc[i + 1]))
    && WaitsFor(st, cyc[|cyc| - 1], cyc[0])
  }

  /**
   How far a thread can be from one that waits for nothing.  Update takes a handle's mutex and then,
   through the comparator, the manager's; Remove takes the manager's and then a handle's.  The order
   is saved because Remove gets to handles only of a read-only structure, and a thread that calls
   the comparator under a handle's mutex is registered on its structure.
  */
  function Rank(a: Activity): nat {
    if !a.waiting || Entry(a.code) == None then 0
    else match Entry(a.code).value
      case HandlesMutex(_) => 1
      case TransactionMutex(_) => 1
      case HandleMutex(_) => if Outer(a.code) == Some(ManagerMutex) then 2 else 4
      case ManagerMutex => 3
  }

  // Who can hold which mutex.
  lemma HoldersOfInner(a: Activity, m: Mutex)
    requires a.Holds(m) && (m.HandlesMutex? || m.TransactionMutex?)
    ensures Rank(a) == 0
  {
  }

  lemma HoldersOfManager(a: Activity)
    requires a.Holds(ManagerMutex)
    ensures Rank(a) <= 2
  {
  }

  lemma HoldersOfHandle(a: Activity, h: Handle)
    requires a.Holds(HandleMutex(h))
    ensures Rank(a) <= 3
    ensures Rank(a) >= 2 ==> a.code.ModifyCompare? && a.code.h == h
  {
  }

  /** A handle that Remove is waiting for is held by a thread that cannot be waiting for the manager. */
  lemma RemoveWaitsShortly(st: State, t: Thread, u: Thread, h: Handle)
    requires Inv(st)
    requires st.At(t).code.RemoveMark? && st.At(t).code.h == h
    requires st.At(u).Holds(HandleMutex(h))
    ensures Rank(st.At(u)) <= 1
  {
    HoldersOfHandle(st.At(u), h);
    assert st.shared.GateOf(h.home).Sound();
    assert Local(st.shared, t, st.At(t).code) && Local(st.shared, u, st.At(u).code);
    assert st.At(u).code.ModifyCompare? && st.At(u).code.h == h ==> Registered(st.shared, h.home, Tid(u));
  }

  lemma WaitingDescends(st: State, t: Thread, u: Thread)
    requires Inv(st) && WaitsFor(st, t, u)
    ensures Rank(st.At(u)) < Rank(st.At(t))
  {
    var m: Mutex :| st.At(t).Wants(m) && st.At(u).Holds(m);
    match m
    case ManagerMutex => HoldersOfManager(st.At(u));
    case HandlesMutex(_) => HoldersOfInner(st.At(u), m);
    case TransactionMutex(_) => HoldersOfInner(st.At(u), m);
    case HandleMutex(h) =>
      HoldersOfHandle(st.At(u), h);
      if st.At(t).code.RemoveMark? { RemoveWaitsShortly(st, t, u, h); }
  }

  lemma {:induction false} RanksAlong(st: State, cyc: seq<Thread>, i: nat)
    requires Inv(st) && Cycle(st, cyc) && i < |cyc|
    ensures Rank(st.At(cyc[i])) + i <= Rank(st.At(cyc[0]))
  {
    if i > 0 {
      RanksAlong(st, cyc, i - 1);
      assert WaitsFor(st, cyc[i - 1], cyc[i - 1 + 1]);
      WaitingDescends(st, cyc[i - 1], cyc[i]);
    }
  }

  /** In no state of any run is there a cycle of threads that wait for each other's mutexes. */
  lemma NoDeadlock(states: seq<State>, i: nat, cyc: seq<Thread>)
    requires Run(states) && i < |states|
    ensures !Cycle(states[i], cyc)
  {
    RunInv(states, i);
    if Cycle(states[i], cyc) {
      RanksAlong(states[i], cyc, |cyc| - 1);
      WaitingDescends(states[i], cyc[|cyc| - 1], cyc[0]);
    }
  }

  // ---------- The comparator ----------

  /**
   A comparator that is called under a registered transaction finds the structure of the handle under
   the handle's name, so its assertion that Find returns one holds.
  */
  lemma ComparatorFindsStructure(states: seq<State>, i: nat, t: Thread)
    requires Run(states) && i < |states|
    requires var c := states[i].At(t).code; c.ModifyCompare? || (c.InsertCompare? && c.parent.Some?)
    ensures var sh, h := states[i].shared, states[i].At(t).code.h;
            h.name in sh.indices && sh.indices[h.name] == h.home
  {
    RunInv(states, i);
    var sh, c := states[i].shared, states[i].At(t).code;
    assert Local(sh, t, c);
    var x := if c.ModifyCompare? then Tid(t) else c.parent.value;
    assert Registered(sh, c.h.home, x) && sh.GateOf(c.h.home).Sound();
  }

  // ---------- Changes and deletion ----------

  /** Unresolved changes are owned by a registered transaction, so a read-only index has none. */
  lemma ChangesAreOwned(states: seq<State>, i: nat, s: Structure, x: Txn)
    requires Run(states) && i < |states|
    requires (s, x) in states[i].shared.changes
    ensures x in states[i].shared.GateOf(s).transactions
    ensures !states[i].shared.GateOf(s).readOnly
    ensures s in states[i].shared.indices.Values
    ensures x.Explicit? ==> x in states[i].shared.live
    ensures x.Nested? ==> NestedAt(states[i].At(x.thread).code) == Some(s)
  {
    RunInv(states, i);
    var sh := states[i].shared;
    assert Registered(sh, s, x);
    assert sh.GateOf(s).Sound();
  }

  /** Remove gets past MakeReadOnly only when nobody has unresolved changes on the index. */
  lemma RemoveSeesNoChanges(states: seq<State>, i: nat, t: Thread, x: Txn)
    requires Run(states) && i < |states|
    requires states[i].At(t).code.RemoveHandles? || states[i].At(t).code.RemoveMark? || states[i].At(t).code.RemoveUnregister?
    ensures (states[i].At(t).code.s, x) !in states[i].shared.changes
  {
    RunInv(states, i);
    assert Local(states[i].shared, t, states[i].At(t).code);
    if (states[i].At(t).code.s, x) in states[i].shared.changes {
      ChangesAreOwned(states, i, states[i].At(t).code.s, x);
    }
  }

  /** The ignored result of registering the parent in Update and Delete is always true. */
  lemma ParentIsAccepted(states: seq<State>, i: nat, t: Thread)
    requires Run(states) && i < |states|
    requires states[i].At(t).code.ModifyParent?
    ensures !states[i].shared.GateOf(states[i].At(t).code.h.home).readOnly
  {
    RunInv(states, i);
    var sh, s := states[i].shared, states[i].At(t).code.h.home;
    assert Local(sh, t, states[i].At(t).code);
    assert Registered(sh, s, Tid(t)) && sh.GateOf(s).Sound();
  }

  /** A structure once read-only stays so. */
  lemma {:induction false} ReadOnlyForEver(states: seq<State>, i: nat, j: nat, s: Structure)
    requires Run(states) && i <= j < |states|
    requires states[i].shared.GateOf(s).readOnly
    ensures states[j].shared.GateOf(s).readOnly
    decreases j - i
  {
    if i < j {
      RunReadOnly(states, i, s);
      ReadOnlyForEver(states, i + 1, j, s);
    }
  }

  lemma RunReadOnly(states: seq<State>, i: nat, s: Structure)
    requires Run(states) && i + 1 < |states|
    requires states[i].shared.GateOf(s).readOnly
    ensures states[i + 1].shared.GateOf(s).readOnly
  {
    assert NextAt(states, i);
    NextReadOnly(states[i], states[i + 1], s);
  }

  lemma NextReadOnly(st: State, st': State, s: Structure)
    requires Next(st, st') && st.shared.GateOf(s).readOnly
    ensures st'.shared.GateOf(s).readOnly
  {
    var t: Thread :| Step(st, t, st');
    if !Acquire(st, t, st') {
      var c: Code, e: Effect :| Moves(st, t, c, e) && st' == Goto(st, t, c, Apply(st.shared, e));
      ReadOnlyStays(st.shared, e, s);
    }
  }

  lemma ReadOnlyStays(sh: Shared, e: Effect, s: Structure)
    requires sh.GateOf(s).readOnly
    ensures Apply(sh, e).GateOf(s).readOnly
  {
  }

  // ---------- The registry ----------

  /** The thread is creating, respectively deleting, this database. */
  ghost predicate Creating(st: State, t: Thread, n: Name) {
    st.At(t).code == CreateInsert(n)
  }

  ghost predicate Deleting(st: State, t: Thread, n: Name) {
    st.At(t).code == RemoveDatabase(n)
  }

  /**
   Every existing database is registered, being created by one thread or being deleted by one
   thread, and no two of these at once; a registered name always has a database, and its structure
   is registered under no other name.
  */
  lemma RegistryConsistent(states: seq<State>, i: nat, n: Name)
    requires Run(states) && i < |states|
    ensures var st := states[i];
            n in st.shared.databases <==>
              n in st.shared.indices || exists t: Thread :: Creating(st, t, n) || Deleting(st, t, n)
    ensures var st := states[i];
            forall t: Thread, u: Thread ::
              (Creating(st, t, n) || Deleting(st, t, n)) ==>
                n !in st.shared.indices && ((Creating(st, u, n) || Deleting(st, u, n)) ==> t == u)
    ensures forall n' :: n in states[i].shared.indices && n' in states[i].shared.indices && n != n' ==>
              states[i].shared.indices[n] != states[i].shared.indices[n']
  {
    RunInv(states, i);
    var st := states[i];
    forall t: Thread | Creating(st, t, n) || Deleting(st, t, n)
      ensures n in st.shared.databases && n !in st.shared.indices
      ensures Claim(st.At(t).code) == Some(n)
    {
      assert Local(st.shared, t, st.At(t).code);
    }
    if n in st.shared.databases && n !in st.shared.indices {
      var t: Thread :| Claim(st.At(t).code) == Some(n);
      assert Creating(st, t, n) || Deleting(st, t, n);
    }
  }

  /** IndexManager::Insert never overwrites an entry. */
  lemma InsertNeverOverwrites(states: seq<State>, i: nat, t: Thread)
    requires Run(states) && i < |states|
    requires states[i].At(t).code.CreateInsert?
    ensures states[i].At(t).code.name !in states[i].shared.indices
  {
    RunInv(states, i);
    assert Local(states[i].shared, t, states[i].At(t).code);
  }

  // ---------- Quiescence ----------

  /** When every call has returned and every transaction was closed, nothing stays registered anywhere. */
  lemma NothingStaysRegistered(states: seq<State>, i: nat, s: Structure)
    requires Run(states) && i < |states|
    requires forall t: Thread :: states[i].At(t).code == Idle
    requires states[i].shared.live == {}
    ensures states[i].shared.GateOf(s).transactions == {}
    ensures states[i].shared.changes == {}
  {
    RunInv(states, i);
    Unregistered(states[i]);
    var sh := states[i].shared;
    if x :| x in sh.GateOf(s).transactions {
      assert Registered(sh, s, x);
    }
    if p :| p in sh.changes {
      ChangesAreOwned(states, i, p.0, p.1);
      assert Registered(sh, p.0, p.1);
    }
  }

  lemma Unregistered(st: State)
    requires Inv(st) && st.shared.live == {} && forall t: Thread :: st.At(t).code == Idle
    ensures forall r: Structure, x: Txn :: !Registered(st.shared, r, x)
  {
    forall r: Structure, t: Thread
      ensures !Registered(st.shared, r, Nested(t))
    {
      assert NestedAt(st.At(t).code) == None;
      assert Registered(st.shared, r, Nested(t)) ==> NestedAt(st.At(t).code) == Some(r);
    }
    forall r: Structure, x: Txn
      ensures !Registered(st.shared, r, x)
    {
      if x.Nested? {
        assert x == Nested(x.thread);
      }
    }
  }
}
