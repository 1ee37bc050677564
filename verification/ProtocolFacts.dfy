/** What holds in every state of the locking protocol. */
module ProtocolFacts {
  import opened Interface
  import opened Gate
  import opened Protocol

  // ---------- What a thread may rely on at each point ----------

  /** A structure that handles can refer to: registered, or read-only for ever. */
  predicate Published(sh: Shared, s: Structure) {
    s < sh.nextStructure && (s in sh.indices.Values || sh.GateOf(s).readOnly)
  }

  /** The structure existed and is not registered any more. */
  predicate Gone(sh: Shared, s: Structure) {
    s < sh.nextStructure && s !in sh.indices.Values
  }

  /** A handle belongs to the structure that is registered under its name, or to one that is gone. */
  predicate Known(sh: Shared, h: Handle) {
    h.home < sh.nextStructure && (Owns(sh, h.name, h.home) || (Gone(sh, h.home) && sh.GateOf(h.home).readOnly))
  }

  predicate LiveParent(sh: Shared, tx: Option<Txn>) {
    tx.Some? ==> tx.value.Explicit? && tx.value in sh.live
  }

  predicate Registered(sh: Shared, s: Structure, x: Txn) {
    x in sh.GateOf(s).transactions
  }

  predicate Owns(sh: Shared, name: Name, s: Structure) {
    name in sh.indices && sh.indices[name] == s
  }

  ghost predicate Local(sh: Shared, t: Thread, c: Code) {
    match c
    case CreateInsert(name) => name in sh.databases && name !in sh.indices
    case RemoveDatabase(name) => name in sh.databases && name !in sh.indices
    case OpenRegister(h) => Known(sh, h)
    case OpenDatabase(h) => Known(sh, h)
    case CloseMark(h) => Known(sh, h)
    case CloseUnregister(h) => Known(sh, h)
    case InsertGate(h, tx) => Known(sh, h) && LiveParent(sh, Some(tx))
    case InsertPut(h, tx) => Known(sh, h) && LiveParent(sh, tx) && (tx.Some? ==> Registered(sh, h.home, tx.value))
    case InsertCompare(h, tx) => Known(sh, h) && LiveParent(sh, tx) && (tx.Some? ==> Registered(sh, h.home, tx.value))
    case ModifyLock(h, tx) => Known(sh, h) && LiveParent(sh, tx)
    case ModifyGate(_, h, tx) => Known(sh, h) && LiveParent(sh, tx)
    case ModifyRun(_, h, tx, parented) =>
      && Known(sh, h) && LiveParent(sh, tx) && Registered(sh, h.home, Tid(t))
      && (parented && tx.Some? ==> Registered(sh, h.home, tx.value))
      && ((h.home, Tid(t)) in sh.changes && tx.Some? ==> parented)
    case ModifyCompare(_, h, tx, parented) =>
      && Known(sh, h) && LiveParent(sh, tx) && Registered(sh, h.home, Tid(t))
      && (parented && tx.Some? ==> Registered(sh, h.home, tx.value))
      && ((h.home, Tid(t)) in sh.changes && tx.Some? ==> parented)
    case ModifyParent(_, h, tx) => Known(sh, h) && LiveParent(sh, Some(tx)) && Registered(sh, h.home, Tid(t))
    case ModifyEnd(_, h) => Known(sh, h) && Registered(sh, h.home, Tid(t))
    case ResolveClose(tx) => LiveParent(sh, Some(tx)) && Resolved(sh, tx)
    case ResolveNext(tx, todo) =>
      LiveParent(sh, Some(tx)) && Resolved(sh, tx) && forall s: Structure :: Registered(sh, s, tx) ==> s in todo
    case ResolveGate(tx, todo, s0) =>
      LiveParent(sh, Some(tx)) && Resolved(sh, tx) && forall s: Structure :: Registered(sh, s, tx) ==> s in todo || s == s0
    case RemoveGate(name, s) => Owns(sh, name, s)
    case RemoveHandles(name, s, _) => Owns(sh, name, s) && sh.GateOf(s).readOnly
    case RemoveMark(name, s, _, h) => Owns(sh, name, s) && sh.GateOf(s).readOnly && h.home == s
    case RemoveUnregister(name, s, _, h) => Owns(sh, name, s) && sh.GateOf(s).readOnly && h.home == s
    case _ => true
  }

  ghost predicate Resolved(sh: Shared, tx: Txn) {
    forall s: Structure :: (s, tx) !in sh.changes
  }

  // ---------- What holds between all threads ----------

  /** Where the thread's nested transaction is registered. */
  function NestedAt(c: Code): Option<Structure> {
    match c
    case ModifyRun(_, h, _, _) => Some(h.home)
    case ModifyCompare(_, h, _, _) => Some(h.home)
    case ModifyParent(_, h, _) => Some(h.home)
    case ModifyEnd(_, h) => Some(h.home)
    case _ => None
  }

  /** The database that the thread is creating or deleting. */
  function Claim(c: Code): Option<Name> {
    match c
    case CreateInsert(name) => Some(name)
    case RemoveDatabase(name) => Some(name)
    case _ => None
  }

  ghost predicate Ownership(st: State) {
    forall t: Thread, m: Mutex :: st.At(t).Holds(m) <==> m in st.owner && st.owner[m] == t
  }

  /** A thread that waits does so for a mutex. */
  ghost predicate Waits(st: State) {
    forall t: Thread :: st.At(t).waiting ==> Entry(st.At(t).code).Some?
  }

  ghost predicate Structures(sh: Shared) {
    && (forall s: Structure :: sh.GateOf(s).Sound())
    && (forall s: Structure :: sh.GateOf(s).readOnly ==> s < sh.nextStructure)
    && (forall s: Structure, x: Txn :: Registered(sh, s, x) ==> s in sh.indices.Values)
    && (forall n :: n in sh.indices ==> sh.indices[n] < sh.nextStructure && n in sh.databases)
    && (forall n, n' :: n in sh.indices && n' in sh.indices && n != n' ==> sh.indices[n] != sh.indices[n'])
    && (forall h :: h in sh.issued ==> Known(sh, h))
    && sh.open <= sh.issued
    && (forall s: Structure, h: Handle :: h in sh.HandlesOf(s) ==> h.home == s)
  }

  ghost predicate Locals(st: State) {
    forall t: Thread :: Local(st.shared, t, st.At(t).code)
  }

  /** No two threads use one transaction, or create or delete one database. */
  ghost predicate Exclusive(st: State) {
    && (forall t: Thread, u: Thread :: t != u && TxUse(st.At(t).code).Some? ==> TxUse(st.At(t).code) != TxUse(st.At(u).code))
    && (forall t: Thread, u: Thread :: t != u && Claim(st.At(t).code).Some? ==> Claim(st.At(t).code) != Claim(st.At(u).code))
  }

  /** Registrations and changes belong to somebody. */
  ghost predicate Traced(st: State) {
    && (forall s: Structure, t: Thread :: Registered(st.shared, s, Nested(t)) ==> NestedAt(st.At(t).code) == Some(s))
    && (forall s: Structure, x: Txn :: Registered(st.shared, s, x) && x.Explicit? ==> x in st.shared.live)
    && (forall s: Structure, x: Txn :: (s, x) in st.shared.changes ==> Registered(st.shared, s, x))
    && (forall s: Structure, t: Thread :: (s, Nested(t)) in st.shared.changes ==> !st.At(t).code.ModifyEnd?)
  }

  /** Every database is registered, or some thread is creating or deleting it. */
  ghost predicate Accounted(st: State) {
    forall n :: n in st.shared.databases ==> n in st.shared.indices || exists t: Thread :: Claim(st.At(t).code) == Some(n)
  }

  ghost predicate Inv(st: State) {
    Ownership(st) && Waits(st) && Structures(st.shared) && Locals(st) && Exclusive(st) && Traced(st) && Accounted(st)
  }

  /** The thread's own nested transaction is registered and has changes only where it is working. */
  ghost predicate NestedTraced(sh: Shared, t: Thread, c: Code) {
    && (forall s: Structure :: Registered(sh, s, Tid(t)) ==> NestedAt(c) == Some(s))
    && (forall s: Structure :: (s, Tid(t)) in sh.changes ==> Registered(sh, s, Tid(t)) && !c.ModifyEnd?)
  }

  /** The part of Traced about transactions of callers. */
  ghost predicate CallersTraced(sh: Shared) {
    && (forall s: Structure, x: Txn :: Registered(sh, s, x) && x.Explicit? ==> x in sh.live)
    && (forall s: Structure, x: Txn :: (s, x) in sh.changes && x.Explicit? ==> Registered(sh, s, x))
  }
}
