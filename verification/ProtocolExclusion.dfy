/** Which code the mutexes keep apart, and that both orders of the handle's and the manager's mutex occur. */
module ProtocolExclusion {
  import opened Interface
  import opened Protocol
  import opened ProtocolInvariant
  import opened ProtocolProgress

  lemma OneHolder(states: seq<State>, i: nat, t: Thread, u: Thread, m: Mutex)
    requires Run(states) && i < |states| && states[i].At(t).Holds(m) && states[i].At(u).Holds(m)
    ensures t == u
  {
    RunInv(states, i);
    SameHolder(states[i], t, u, m);
  }

  /** Inside a function of IndexManager. */
  predicate InRegistry(a: Activity) {
    var c := a.code;
    || (!a.waiting && (c.CreateInsert? || c.OpenFind? || c.InsertCompare? || c.ModifyCompare? || c.ReadCompare? || c.ResolveClose?
                       || c.RemoveFind?))
    || c.ResolveNext? || c.ResolveGate? || c.RemoveGate? || c.RemoveHandles? || c.RemoveMark? || c.RemoveUnregister?
  }

  /** Only one thread at a time reads or changes the registry, and a deletion or the end of a transaction is one visit. */
  lemma RegistryIsExclusive(states: seq<State>, i: nat, t: Thread, u: Thread)
    requires Run(states) && i < |states| && InRegistry(states[i].At(t)) && InRegistry(states[i].At(u))
    ensures t == u
  {
    OneHolder(states, i, t, u, ManagerMutex);
  }

  /** Inside start_transaction, end_transaction or MakeReadOnly of the structure. */
  predicate InGate(a: Activity, s: Structure) {
    var c := a.code;
    && !a.waiting
    && (((c.InsertGate? || c.ModifyGate? || c.ModifyParent? || c.ModifyEnd?) && c.h.home == s)
        || ((c.ResolveGate? || c.RemoveGate?) && c.s == s))
  }

  lemma GateIsExclusive(states: seq<State>, i: nat, t: Thread, u: Thread, s: Structure)
    requires Run(states) && i < |states| && InGate(states[i].At(t), s) && InGate(states[i].At(u), s)
    ensures t == u
  {
    OneHolder(states, i, t, u, TransactionMutex(s));
  }

  /** Inside register_handle or unregister_handle of the structure. */
  predicate InHandleSet(a: Activity, s: Structure) {
    var c := a.code;
    && !a.waiting
    && (((c.OpenRegister? || c.CloseUnregister?) && c.h.home == s) || (c.RemoveUnregister? && c.s == s))
  }

  lemma HandleSetIsExclusive(states: seq<State>, i: nat, t: Thread, u: Thread, s: Structure)
    requires Run(states) && i < |states| && InHandleSet(states[i].At(t), s) && InHandleSet(states[i].At(u), s)
    ensures t == u
  {
    OneHolder(states, i, t, u, HandlesMutex(s));
  }

  /** Inside Update on the handle, or in the locked part of Close. */
  predicate InHandle(a: Activity, h: Handle) {
    var c := a.code;
    || (!a.waiting && (c.ModifyLock? || c.CloseMark? || c.RemoveMark?) && c.h == h)
    || ((c.ModifyGate? || c.ModifyRun? || c.ModifyCompare? || c.ModifyParent? || c.ModifyEnd?) && c.update && c.h == h)
    || ((c.ModifyRefused? || c.ModifyReturn?) && c.h == h)
  }

  /** Updates through one handle do not overlap, and a handle is not closed during one. */
  lemma HandleIsExclusive(states: seq<State>, i: nat, t: Thread, u: Thread, h: Handle)
    requires Run(states) && i < |states| && InHandle(states[i].At(t), h) && InHandle(states[i].At(u), h)
    ensures t == u
  {
    OneHolder(states, i, t, u, HandleMutex(h));
  }

  // ---------- Both lock orders ----------

  /** An Update can come to wait for the manager's mutex, in the comparator, while it holds its handle's. */
  lemma UpdateWantsManager(run: seq<State>, t: Thread) returns (longer: seq<State>)
    requires Run(run)
    requires var c := Last(run).At(t).code; c.ModifyRun? && c.update
    ensures Run(longer) && run <= longer
    ensures forall u: Thread :: u != t ==> Last(longer).At(u) == Last(run).At(u)
    ensures Last(longer).At(t).Holds(HandleMutex(Last(run).At(t).code.h)) && Last(longer).At(t).Wants(ManagerMutex)
  {
    RunInv(run, |run| - 1);
    var c := Last(run).At(t).code;
    assert Entry(c) == None;
    longer := Does(run, t, ModifyCompare(true, c.h, c.parent, c.parented), Nothing);
  }

  /** A DeleteIndex comes to wait for the mutex of a handle while it holds the manager's. */
  lemma RemoveWantsHandle(run: seq<State>, t: Thread) returns (longer: seq<State>, h: Handle)
    requires Run(run)
    requires var c := Last(run).At(t).code; c.RemoveHandles? && !(Last(run).shared.HandlesOf(c.s) <= c.done)
    ensures Run(longer) && run <= longer
    ensures forall u: Thread :: u != t ==> Last(longer).At(u) == Last(run).At(u)
    ensures h in Last(run).shared.HandlesOf(Last(run).At(t).code.s)
    ensures Last(longer).At(t).Holds(ManagerMutex) && Last(longer).At(t).Wants(HandleMutex(h))
  {
    RunInv(run, |run| - 1);
    var c := Last(run).At(t).code;
    assert Entry(c) == None;
    h :| h in Last(run).shared.HandlesOf(c.s) && h !in c.done;
    longer := Does(run, t, RemoveMark(c.name, c.s, c.done, h), Nothing);
  }
}
