/**
 The locking protocol as a step system: any number of threads run the operations of
 example/BDBImpl.cc, interleaved at every lock acquisition and between critical sections.
*/
module Protocol {
  import opened Interface
  import opened Gate

  type Thread = nat
  type Name = string
  type Structure = nat
  /** A handle, the name it was opened by, and the structure that Find returned for this name. */
  datatype Handle = Handle(id: nat, name: Name, home: Structure)

  // IndexManager::mutex_, Index::mutex_, IndexStructure::mutex_ and IndexStructure::transaction_mutex_.
  datatype Mutex =
    | ManagerMutex
    | HandleMutex(h: Handle)
    | HandlesMutex(s: Structure)
    | TransactionMutex(s: Structure)

  /** Where a thread is.  Comments name the function whose critical section or call comes next. */
  datatype Code =
    | Idle
    | CreateInsert(name: Name)                      // IndexManager::Insert, after the database was created
    | OpenFind(name: Name)                          // IndexManager::Find
    | OpenRegister(h: Handle)                       // register_handle
    | OpenDatabase(h: Handle)                       // Db::open, then closed_ = false
    | CloseMark(h: Handle)                          // Index::Close, its locked part
    | CloseUnregister(h: Handle)                    // unregister_handle
    | InsertGate(h: Handle, tx: Txn)                // start_transaction(tx)
    | InsertPut(h: Handle, parent: Option<Txn>)         // Db::put
    | InsertCompare(h: Handle, parent: Option<Txn>)     // its comparator's Find
    | ModifyLock(h: Handle, parent: Option<Txn>)        // Update only: the handle's mutex, kept to the end
    | ModifyGate(update: bool, h: Handle, parent: Option<Txn>)                   // start_transaction(tid)
    | ModifyRefused(h: Handle)                                               // Update: abort, then unlock
    | ModifyRun(update: bool, h: Handle, parent: Option<Txn>, parented: bool)    // cursor calls, then commit
    | ModifyCompare(update: bool, h: Handle, parent: Option<Txn>, parented: bool)// the comparator's Find
    | ModifyParent(update: bool, h: Handle, tx: Txn)                         // start_transaction(tx)
    | ModifyEnd(update: bool, h: Handle)                                     // end_transaction(tid)
    | ModifyReturn(h: Handle)                                                // Update: unlock
    | ReadCompare                                   // a cursor's comparator: Find
    | ResolveClose(tx: Txn)                         // CloseTransaction, after commit or abort
    | ResolveNext(tx: Txn, todo: set<Structure>)    // its loop
    | ResolveGate(tx: Txn, todo: set<Structure>, s: Structure)  // end_transaction(tx)
    | RemoveFind(name: Name)                        // IndexManager::Remove
    | RemoveGate(name: Name, s: Structure)          // MakeReadOnly
    | RemoveHandles(name: Name, s: Structure, done: set<Handle>)              // CloseHandles
    | RemoveMark(name: Name, s: Structure, done: set<Handle>, h: Handle)      // Index::Close, its locked part
    | RemoveUnregister(name: Name, s: Structure, done: set<Handle>, h: Handle)// unregister_handle
    | RemoveDatabase(name: Name)                    // DbEnv::dbremove

  /** The mutex that the next critical section locks. */
  function Entry(c: Code): Option<Mutex> {
    match c
    case CreateInsert(_) => Some(ManagerMutex)
    case OpenFind(_) => Some(ManagerMutex)
    case OpenRegister(h) => Some(HandlesMutex(h.home))
    case CloseMark(h) => Some(HandleMutex(h))
    case CloseUnregister(h) => Some(HandlesMutex(h.home))
    case InsertGate(h, _) => Some(TransactionMutex(h.home))
    case InsertCompare(_, _) => Some(ManagerMutex)
    case ModifyLock(h, _) => Some(HandleMutex(h))
    case ModifyGate(_, h, _) => Some(TransactionMutex(h.home))
    case ModifyCompare(_, _, _, _) => Some(ManagerMutex)
    case ModifyParent(_, h, _) => Some(TransactionMutex(h.home))
    case ModifyEnd(_, h) => Some(TransactionMutex(h.home))
    case ReadCompare => Some(ManagerMutex)
    case ResolveClose(_) => Some(ManagerMutex)
    case ResolveGate(_, _, s) => Some(TransactionMutex(s))
    case RemoveFind(_) => Some(ManagerMutex)
    case RemoveGate(_, s) => Some(TransactionMutex(s))
    case RemoveMark(_, _, _, h) => Some(HandleMutex(h))
    case RemoveUnregister(_, s, _, _) => Some(HandlesMutex(s))
    case _ => None
  }

  /** The mutex that is already held when the thread gets there. */
  function Outer(c: Code): Option<Mutex> {
    match c
    case ModifyGate(u, h, _) => if u then Some(HandleMutex(h)) else None
    case ModifyRefused(h) => Some(HandleMutex(h))
    case ModifyRun(u, h, _, _) => if u then Some(HandleMutex(h)) else None
    case ModifyCompare(u, h, _, _) => if u then Some(HandleMutex(h)) else None
    case ModifyParent(u, h, _) => if u then Some(HandleMutex(h)) else None
    case ModifyEnd(u, h) => if u then Some(HandleMutex(h)) else None
    case ModifyReturn(h) => Some(HandleMutex(h))
    case ResolveNext(_, _) => Some(ManagerMutex)
    case ResolveGate(_, _, _) => Some(ManagerMutex)
    case RemoveGate(_, _) => Some(ManagerMutex)
    case RemoveHandles(_, _, _) => Some(ManagerMutex)
    case RemoveMark(_, _, _, _) => Some(ManagerMutex)
    case RemoveUnregister(_, _, _, _) => Some(ManagerMutex)
    case _ => None
  }

  /** A thread waits for its next mutex, or is past it. */
  datatype Activity = Activity(code: Code, waiting: bool) {
    predicate Holds(m: Mutex) {
      Outer(code) == Some(m) || (!waiting && Entry(code) == Some(m))
    }

    predicate Wants(m: Mutex) {
      waiting && Entry(code) == Some(m)
    }
  }

  /** What the threads share besides the mutexes. */
  datatype Shared = Shared(
    indices: map<Name, Structure>,
    nextStructure: Structure,
    gates: map<Structure, Gate>,
    handles: map<Structure, set<Handle>>,
    issued: set<Handle>,                // handles that OpenIndex returned
    open: set<Handle>,                  // those with closed_ == false
    nextHandle: nat,
    databases: set<Name>,               // existing Berkeley DB databases
    live: set<Txn>,                     // transactions begun and not yet closed by the registry
    changes: set<(Structure, Txn)>      // which transactions have unresolved changes on which index
  ) {
    function GateOf(s: Structure): Gate {
      if s in gates then gates[s] else OPEN_GATE
    }

    function HandlesOf(s: Structure): set<Handle> {
      if s in handles then handles[s] else {}
    }
  }

  datatype State = State(owner: map<Mutex, Thread>, threads: map<Thread, Activity>, shared: Shared) {
    function At(t: Thread): Activity {
      if t in threads then threads[t] else Activity(Idle, false)
    }
  }

  // ---------- Steps ----------

  /** Moves a thread: it gives up the mutexes that it no longer holds there. */
  ghost function Goto(st: State, t: Thread, c: Code, shared: Shared): State {
    var a := Activity(c, Entry(c).Some?);
    State(map m | m in st.owner && (st.owner[m] == t ==> a.Holds(m)) :: st.owner[m], st.threads[t := a], shared)
  }

  /** pthread_mutex_lock returns. */
  ghost predicate Acquire(st: State, t: Thread, st': State) {
    var a := st.At(t);
    && a.waiting && Entry(a.code).Some?
    && Entry(a.code).value !in st.owner
    && st' == State(st.owner[Entry(a.code).value := t], st.threads[t := Activity(a.code, false)], st.shared)
  }

  function TxUse(c: Code): Option<Txn> {
    match c
    case InsertGate(_, tx) => Some(tx)
    case InsertPut(_, tx) => tx
    case InsertCompare(_, tx) => tx
    case ModifyLock(_, tx) => tx
    case ModifyGate(_, _, tx) => tx
    case ModifyRun(_, _, tx, _) => tx
    case ModifyCompare(_, _, tx, _) => tx
    case ModifyParent(_, _, tx) => Some(tx)
    case ResolveClose(tx) => Some(tx)
    case ResolveNext(tx, _) => Some(tx)
    case ResolveGate(tx, _, _) => Some(tx)
    case _ => None
  }

  /** A caller may pass a transaction that is live; no two calls use one at the same time. */
  ghost predicate Usable(st: State, tx: Option<Txn>) {
    tx.Some? ==> tx.value.Explicit? && tx.value in st.shared.live && forall u: Thread :: TxUse(st.At(u).code) != tx
  }

  // The nested transaction of a thread; it has at most one at a time.
  function Tid(t: Thread): Txn {
    Nested(t)
  }

  /** The one thing that a step does to the shared state. */
  datatype Effect =
    | Nothing
    | Begin(x: Txn)
    | CreateDatabase(name: Name)
    | InsertStructure(name: Name)
    | NewHandle
    | SetHandles(s: Structure, hs: set<Handle>)
    | OpenHandle(h: Handle)
    | ShutHandle(h: Handle)
    | Start(s: Structure, x: Txn)
    | End(s: Structure, x: Txn)
    | Freeze(s: Structure)
    | Change(s: Structure, x: Txn)
    | CommitNested(t: Thread, parent: Option<Txn>)
    | Resolve(x: Txn)
    | Finish(x: Txn)
    | EraseStructure(name: Name)
    | DropDatabase(name: Name)

  ghost function Apply(sh: Shared, e: Effect): Shared {
    match e
    case Nothing => sh
    case Begin(x) => sh.(live := sh.live + {x})
    case CreateDatabase(name) => sh.(databases := sh.databases + {name})
    case InsertStructure(name) => sh.(indices := sh.indices[name := sh.nextStructure], nextStructure := sh.nextStructure + 1)
    case NewHandle => sh.(nextHandle := sh.nextHandle + 1)
    case SetHandles(s, hs) => sh.(handles := sh.handles[s := hs])
    case OpenHandle(h) => sh.(issued := sh.issued + {h}, open := sh.open + {h})
    case ShutHandle(h) => sh.(open := sh.open - {h})
    case Start(s, x) => sh.(gates := sh.gates[s := sh.GateOf(s).Start(x)])
    case End(s, x) => sh.(gates := sh.gates[s := sh.GateOf(s).End(x)])
    case Freeze(s) => sh.(gates := sh.gates[s := sh.GateOf(s).Close()])
    case Change(s, x) => sh.(changes := sh.changes + {(s, x)})
    case CommitNested(t, parent) => sh.(changes := HandOver(sh.changes, t, parent))
    case Resolve(x) => sh.(changes := set p | p in sh.changes && p.1 != x)
    case Finish(x) => sh.(live := sh.live - {x})
    case EraseStructure(name) => sh.(indices := sh.indices - {name})
    case DropDatabase(name) => sh.(databases := sh.databases - {name})
  }

  /** Committing a nested transaction hands its changes to the parent, if there is one. */
  ghost function HandOver(changes: set<(Structure, Txn)>, t: Thread, parent: Option<Txn>): set<(Structure, Txn)> {
    (set p | p in changes && p.1 != Tid(t))
    + (if parent.Some? then set p | p in changes && p.1 == Tid(t) :: (p.0, parent.value) else {})
  }

  /** A thread that is idle calls one of the operations. */
  ghost predicate Call(st: State, c: Code, e: Effect) {
    var sh := st.shared;
    match c
    // BeginTransaction
    case Idle => e.Begin? && e.x.Explicit? && e.x !in sh.live
    // CreateIndex: creating the database fails if it exists
    case CreateInsert(name) => name !in sh.databases && e == CreateDatabase(name)
    case OpenFind(name) => e == Nothing
    case CloseMark(h) => h in sh.issued && e == Nothing
    // InsertRecord, with and without a transaction
    case InsertGate(h, tx) => h in sh.open && Usable(st, Some(tx)) && e == Nothing
    case InsertPut(h, tx) => h in sh.open && tx == None && e == Nothing
    // UpdateRecord and DeleteRecord
    case ModifyLock(h, tx) => h in sh.open && Usable(st, tx) && e == Nothing
    case ModifyGate(u, h, tx) => !u && h in sh.open && Usable(st, tx) && e == Nothing
    // GetRecords and GetNext
    case ReadCompare => e == Nothing
    // CommitTransaction and AbortTransaction: first the store resolves the changes
    case ResolveClose(tx) => Usable(st, Some(tx)) && e == Resolve(tx)
    // DeleteIndex
    case RemoveFind(name) => e == Nothing
    case _ => false
  }

  /** One critical section, or one step between two of them. */
  ghost predicate Work(sh: Shared, t: Thread, c: Code, c': Code, e: Effect) {
    match c
    case Idle => false
    case CreateInsert(name) => c' == Idle && e == InsertStructure(name)
    case OpenFind(name) =>
      if name in sh.indices then c' == OpenRegister(Handle(sh.nextHandle, name, sh.indices[name])) && e == NewHandle
      else c' == Idle && e == Nothing
    case OpenRegister(h) => c' == OpenDatabase(h) && e == SetHandles(h.home, sh.HandlesOf(h.home) + {h})
    // Db::open does not create a database; if there is none, OpenIndex returns kErrorUnknownIndex
    case OpenDatabase(h) => c' == Idle && e == (if h.name in sh.databases then OpenHandle(h) else Nothing)
    case CloseMark(h) =>
      if h in sh.open then c' == CloseUnregister(h) && e == ShutHandle(h) else c' == Idle && e == Nothing
    case CloseUnregister(h) => c' == Idle && e == SetHandles(h.home, sh.HandlesOf(h.home) - {h})
    case InsertGate(h, tx) =>
      c' == (if sh.GateOf(h.home).readOnly then Idle else InsertPut(h, Some(tx))) && e == Start(h.home, tx)
    case InsertPut(h, tx) =>
      || (c' == InsertCompare(h, tx) && e == Nothing)
      || (c' == Idle && e == Nothing)
      || (c' == Idle && tx.Some? && e == Change(h.home, tx.value))
    case InsertCompare(h, tx) => c' == InsertPut(h, tx) && e == Nothing
    case ModifyLock(h, tx) => c' == ModifyGate(true, h, tx) && e == Nothing
    case ModifyGate(u, h, tx) =>
      && c' == (if !sh.GateOf(h.home).readOnly then ModifyRun(u, h, tx, false) else if u then ModifyRefused(h) else Idle)
      && e == Start(h.home, Tid(t))
    case ModifyRefused(h) => c' == Idle && e == Nothing
    case ModifyRun(u, h, tx, parented) =>
      || (c' == ModifyCompare(u, h, tx, parented) && e == Nothing)
      // a put or del succeeds; the first one registers the parent
      || (c' == (if tx.Some? && !parented then ModifyParent(u, h, tx.value) else c) && e == Change(h.home, Tid(t)))
      // tid->commit
      || (c' == ModifyEnd(u, h) && e == CommitNested(t, tx))
    case ModifyCompare(u, h, tx, parented) => c' == ModifyRun(u, h, tx, parented) && e == Nothing
    case ModifyParent(u, h, tx) => c' == ModifyRun(u, h, Some(tx), true) && e == Start(h.home, tx)
    case ModifyEnd(u, h) => c' == (if u then ModifyReturn(h) else Idle) && e == End(h.home, Tid(t))
    case ModifyReturn(h) => c' == Idle && e == Nothing
    case ReadCompare => c' == Idle && e == Nothing
    case ResolveClose(tx) => c' == ResolveNext(tx, sh.indices.Values) && e == Nothing
    case ResolveNext(tx, todo) =>
      if todo == {} then c' == Idle && e == Finish(tx)
      else c'.ResolveGate? && c'.s in todo && c' == ResolveGate(tx, todo - {c'.s}, c'.s) && e == Nothing
    case ResolveGate(tx, todo, s) => c' == ResolveNext(tx, todo) && e == End(s, tx)
    case RemoveFind(name) => c' == (if name in sh.indices then RemoveGate(name, sh.indices[name]) else Idle) && e == Nothing
    case RemoveGate(name, s) =>
      c' == (if sh.GateOf(s).transactions == {} then RemoveHandles(name, s, {}) else Idle) && e == Freeze(s)
    case RemoveHandles(name, s, done) =>
      if sh.HandlesOf(s) <= done then c' == RemoveDatabase(name) && e == EraseStructure(name)
      else c'.RemoveMark? && c'.h in sh.HandlesOf(s) - done && c' == RemoveMark(name, s, done, c'.h) && e == Nothing
    case RemoveMark(name, s, done, h) =>
      if h in sh.open then c' == RemoveUnregister(name, s, done + {h}, h) && e == ShutHandle(h)
      else c' == RemoveHandles(name, s, done + {h}) && e == Nothing
    case RemoveUnregister(name, s, done, h) =>
      c' == RemoveHandles(name, s, done) && e == SetHandles(s, sh.HandlesOf(s) - {h})
    case RemoveDatabase(name) => c' == Idle && e == DropDatabase(name)
  }

  /** A step of a thread: a call, or work behind the mutex it needs. */
  ghost predicate Moves(st: State, t: Thread, c: Code, e: Effect) {
    || (st.At(t).code == Idle && Call(st, c, e))
    || (!st.At(t).waiting && Work(st.shared, t, st.At(t).code, c, e))
  }

  ghost predicate Step(st: State, t: Thread, st': State) {
    || Acquire(st, t, st')
    || exists c: Code, e: Effect :: Moves(st, t, c, e) && st' == Goto(st, t, c, Apply(st.shared, e))
  }

  ghost predicate Init(st: State) {
    st == State(map[], map[], Shared(map[], 0, map[], map[], {}, {}, 0, {}, {}, {}))
  }

  ghost predicate Next(st: State, st': State) {
    exists t: Thread :: Step(st, t, st')
  }

  /** A run: a sequence of states, each reached from the one before by a step of some thread. */
  ghost predicate Run(states: seq<State>) {
    && |states| > 0 && Init(states[0])
    && forall i: nat {:trigger NextAt(states, i)} :: i < |states| - 1 ==> NextAt(states, i)
  }

  ghost predicate NextAt(states: seq<State>, i: nat)
    requires i + 1 < |states|
  {
    Next(states[i], states[i + 1])
  }
}
