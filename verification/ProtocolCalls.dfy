/** What each operation of the protocol does when nobody interferes: it returns, with its whole effect. */
module ProtocolCalls {
  import opened Interface
  import opened Gate
  import opened Protocol
  import opened ProtocolFacts
  import opened ProtocolInvariant
  import opened ProtocolProgress
  import opened ProtocolAlone

  /** CreateIndex creates the database and registers a new structure under the name. */
  lemma Creates(run: seq<State>, t: Thread, name: Name) returns (longer: seq<State>)
    requires Ready(run, t) && name !in Last(run).shared.databases
    ensures var sh := Last(run).shared;
            Reaches(run, longer, t, Idle, sh.(databases := sh.databases + {name},
                                              indices := sh.indices[name := sh.nextStructure],
                                              nextStructure := sh.nextStructure + 1))
  {
    longer := Passage(run, t, CreateInsert(name), CreateDatabase(name));
    longer := Section(longer, t, Idle, InsertStructure(name));
  }

  /** OpenIndex gives a new open handle, which the structure of the name has registered. */
  lemma Opens(run: seq<State>, t: Thread, name: Name) returns (longer: seq<State>)
    requires Ready(run, t) && name in Last(run).shared.indices
    ensures var sh := Last(run).shared;
            var s := sh.indices[name];
            var h := Handle(sh.nextHandle, name, s);
            Reaches(run, longer, t, Idle, sh.(nextHandle := sh.nextHandle + 1,
                                              handles := sh.handles[s := sh.HandlesOf(s) + {h}],
                                              issued := sh.issued + {h},
                                              open := sh.open + {h}))
  {
    RunInv(run, |run| - 1);
    longer := Passage(run, t, OpenFind(name), Nothing);
    longer := Found(longer, t, name);
    longer := Registers(longer, t, Handle(Last(run).shared.nextHandle, name, Last(run).shared.indices[name]));
  }

  lemma Found(run: seq<State>, t: Thread, name: Name) returns (longer: seq<State>)
    requires Run(run) && Alone(Last(run), t) && Last(run).At(t) == Activity(OpenFind(name), true)
    requires name in Last(run).shared.indices
    ensures var sh := Last(run).shared;
            Reaches(run, longer, t, OpenRegister(Handle(sh.nextHandle, name, sh.indices[name])), Apply(sh, NewHandle))
           
  {
    longer := Section(run, t, OpenRegister(Handle(Last(run).shared.nextHandle, name, Last(run).shared.indices[name])), NewHandle);
  }

  lemma Registers(run: seq<State>, t: Thread, h: Handle) returns (longer: seq<State>)
    requires Run(run) && Alone(Last(run), t) && Last(run).At(t) == Activity(OpenRegister(h), true)
    requires h.name in Last(run).shared.databases
    ensures var sh := Last(run).shared;
            Reaches(run, longer, t, Idle, Apply(Apply(sh, SetHandles(h.home, sh.HandlesOf(h.home) + {h})), OpenHandle(h)))
  {
    longer := Section(run, t, OpenDatabase(h), SetHandles(h.home, Last(run).shared.HandlesOf(h.home) + {h}));
    longer := Passage(longer, t, Idle, OpenHandle(h));
  }

  /** OpenIndex of an unknown name changes nothing. */
  lemma OpensNothing(run: seq<State>, t: Thread, name: Name) returns (longer: seq<State>)
    requires Ready(run, t) && name !in Last(run).shared.indices
    ensures Reaches(run, longer, t, Idle, Last(run).shared)
  {
    longer := Passage(run, t, OpenFind(name), Nothing);
    longer := Section(longer, t, Idle, Nothing);
  }

  /** CloseIndex closes the handle and takes it out of the set of its structure. */
  lemma Closes(run: seq<State>, t: Thread, h: Handle) returns (longer: seq<State>)
    requires Ready(run, t) && h in Last(run).shared.open && h in Last(run).shared.issued
    ensures var sh := Last(run).shared;
            Reaches(run, longer, t, Idle, sh.(open := sh.open - {h}, handles := sh.handles[h.home := sh.HandlesOf(h.home) - {h}]))
  {
    var sh := Last(run).shared;
    longer := Passage(run, t, CloseMark(h), Nothing);
    longer := Section(longer, t, CloseUnregister(h), ShutHandle(h));
    longer := Section(longer, t, Idle, SetHandles(h.home, sh.HandlesOf(h.home) - {h}));
  }

  // The index with a change that the transaction owns, and with the transaction registered.
  ghost function Changed(sh: Shared, s: Structure, tx: Option<Txn>): Shared {
    sh.(gates := sh.gates[s := Gate(false, sh.GateOf(s).transactions + Users(tx))], changes := sh.changes + Marks(s, tx))
  }

  ghost function Users(tx: Option<Txn>): set<Txn> {
    if tx.Some? then {tx.value} else {}
  }

  ghost function Marks(s: Structure, tx: Option<Txn>): set<(Structure, Txn)> {
    if tx.Some? then {(s, tx.value)} else {}
  }

  /** CloseIndex of a closed handle changes nothing. */
  lemma ClosesNothing(run: seq<State>, t: Thread, h: Handle) returns (longer: seq<State>)
    requires Ready(run, t) && h !in Last(run).shared.open && h in Last(run).shared.issued
    ensures Reaches(run, longer, t, Idle, Last(run).shared)
  {
    longer := Passage(run, t, CloseMark(h), Nothing);
    longer := Section(longer, t, Idle, Nothing);
  }

  /** InsertRecord under a transaction registers it and leaves a change. */
  lemma Inserts(run: seq<State>, t: Thread, h: Handle, x: Txn) returns (longer: seq<State>)
    requires Ready(run, t) && h in Last(run).shared.open && Usable(Last(run), Some(x))
    requires !Last(run).shared.GateOf(h.home).readOnly
    ensures Reaches(run, longer, t, Idle, Changed(Last(run).shared, h.home, Some(x)))
  {
    longer := Passage(run, t, InsertGate(h, x), Nothing);
    longer := Section(longer, t, InsertPut(h, Some(x)), Start(h.home, x));
    longer := Puts(longer, t);
  }

  /** InsertRecord without a transaction passes no gate and leaves no change; the scans only compare. */
  lemma InsertsOrReads(run: seq<State>, t: Thread, c: Code) returns (longer: seq<State>)
    requires Ready(run, t)
    requires c == ReadCompare || (c.InsertPut? && c.h in Last(run).shared.open && c.parent == None)
    ensures Reaches(run, longer, t, Idle, Last(run).shared)
  {
    longer := Passage(run, t, c, Nothing);
    if c.InsertPut? {
      longer := Passage(longer, t, InsertCompare(c.h, None), Nothing);
      longer := Section(longer, t, c, Nothing);
      longer := Passage(longer, t, Idle, Nothing);
    } else {
      longer := Section(longer, t, Idle, Nothing);
    }
  }

  // A comparison, then the change.
  lemma Puts(run: seq<State>, t: Thread) returns (longer: seq<State>)
    requires Run(run) && Alone(Last(run), t) && Last(run).At(t).code.InsertPut? && !Last(run).At(t).waiting
    requires Last(run).At(t).code.parent.Some?
    ensures var c := Last(run).At(t).code;
            Reaches(run, longer, t, Idle, Apply(Last(run).shared, Change(c.h.home, c.parent.value)))
  {
    var c := Last(run).At(t).code;
    longer := Passage(run, t, InsertCompare(c.h, c.parent), Nothing);
    longer := Section(longer, t, c, Nothing);
    longer := Passage(longer, t, Idle, Change(c.h.home, c.parent.value));
  }

  /** On a structure that is read-only InsertRecord under a transaction changes nothing. */
  lemma InsertRefused(run: seq<State>, t: Thread, h: Handle, x: Txn) returns (longer: seq<State>)
    requires Ready(run, t) && h in Last(run).shared.open && Usable(Last(run), Some(x))
    requires Last(run).shared.GateOf(h.home).readOnly
    ensures var sh := Last(run).shared;
            Reaches(run, longer, t, Idle, sh.(gates := sh.gates[h.home := sh.GateOf(h.home)]))
  {
    longer := Passage(run, t, InsertGate(h, x), Nothing);
    longer := Section(longer, t, Idle, Start(h.home, x));
  }

  /** And so do UpdateRecord and DeleteRecord. */
  lemma Refused(run: seq<State>, t: Thread, update: bool, h: Handle, tx: Option<Txn>) returns (longer: seq<State>)
    requires Ready(run, t) && h in Last(run).shared.open && Usable(Last(run), tx)
    requires Last(run).shared.GateOf(h.home).readOnly
    ensures var sh := Last(run).shared;
            Reaches(run, longer, t, Idle, sh.(gates := sh.gates[h.home := sh.GateOf(h.home)]))
  {
    longer := Begins(run, t, update, h, tx);
    if update {
      longer := Section(longer, t, ModifyRefused(h), Start(h.home, Tid(t)));
      longer := Passage(longer, t, Idle, Nothing);
    } else {
      longer := Section(longer, t, Idle, Start(h.home, Tid(t)));
    }
  }

  // Up to the gate: Update takes the mutex of the handle first.
  lemma Begins(run: seq<State>, t: Thread, update: bool, h: Handle, tx: Option<Txn>) returns (longer: seq<State>)
    requires Ready(run, t) && h in Last(run).shared.open && Usable(Last(run), tx)
    ensures Reaches(run, longer, t, ModifyGate(update, h, tx), Last(run).shared)
  {
    if update {
      longer := Passage(run, t, ModifyLock(h, tx), Nothing);
      longer := Section(longer, t, ModifyGate(true, h, tx), Nothing);
    } else {
      longer := Passage(run, t, ModifyGate(false, h, tx), Nothing);
    }
  }

  // From the gate through a comparison.
  lemma Compares(run: seq<State>, t: Thread, update: bool, h: Handle, tx: Option<Txn>) returns (longer: seq<State>)
    requires Ready(run, t) && h in Last(run).shared.open && Usable(Last(run), tx)
    requires !Last(run).shared.GateOf(h.home).readOnly
    ensures var sh := Last(run).shared;
            Reaches(run, longer, t, ModifyRun(update, h, tx, false), Apply(sh, Start(h.home, Tid(t))))
  {
    longer := Begins(run, t, update, h, tx);
    longer := Section(longer, t, ModifyRun(update, h, tx, false), Start(h.home, Tid(t)));
    longer := Passage(longer, t, ModifyCompare(update, h, tx, false), Nothing);
    longer := Section(longer, t, ModifyRun(update, h, tx, false), Nothing);
  }

  // The first change, and the registration of the parent.
  lemma Modifies(run: seq<State>, t: Thread) returns (longer: seq<State>)
    requires Run(run) && Alone(Last(run), t) && Last(run).At(t).code.ModifyRun? && !Last(run).At(t).waiting
    requires !Last(run).At(t).code.parented
    ensures var c, sh := Last(run).At(t).code, Last(run).shared;
            var changed := Apply(sh, Change(c.h.home, Tid(t)));
            Reaches(run, longer, t, ModifyRun(c.update, c.h, c.parent, c.parent.Some?),
                       if c.parent.Some? then Apply(changed, Start(c.h.home, c.parent.value)) else changed)
           
  {
    var c := Last(run).At(t).code;
    if c.parent.Some? {
      longer := Passage(run, t, ModifyParent(c.update, c.h, c.parent.value), Change(c.h.home, Tid(t)));
      longer := Section(longer, t, ModifyRun(c.update, c.h, c.parent, true), Start(c.h.home, c.parent.value));
    } else {
      longer := Passage(run, t, c, Change(c.h.home, Tid(t)));
    }
  }

  // Commit, end_transaction and, in Update, the unlocking of the handle.
  lemma Commits(run: seq<State>, t: Thread) returns (longer: seq<State>)
    requires Run(run) && Alone(Last(run), t) && Last(run).At(t).code.ModifyRun? && !Last(run).At(t).waiting
    ensures var c, sh := Last(run).At(t).code, Last(run).shared;
            Reaches(run, longer, t, Idle, Apply(Apply(sh, CommitNested(t, c.parent)), End(c.h.home, Tid(t))))
  {
    var c := Last(run).At(t).code;
    longer := Passage(run, t, ModifyEnd(c.update, c.h), CommitNested(t, c.parent));
    if c.update {
      longer := Section(longer, t, ModifyReturn(c.h), End(c.h.home, Tid(t)));
      longer := Passage(longer, t, Idle, Nothing);
    } else {
      longer := Section(longer, t, Idle, End(c.h.home, Tid(t)));
    }
  }

  // The effects of the steps of Update and Delete.
  ghost function Effects(sh: Shared, t: Thread, s: Structure, tx: Option<Txn>): Shared {
    var changed := Apply(Apply(sh, Start(s, Tid(t))), Change(s, Tid(t)));
    var parented := if tx.Some? then Apply(changed, Start(s, tx.value)) else changed;
    Apply(Apply(parented, CommitNested(t, tx)), End(s, Tid(t)))
  }

  /**
   UpdateRecord and DeleteRecord that change the index: afterwards the caller's transaction, if there
   is one, is registered and owns the change, and nothing of the nested transaction is left.
  */
  lemma Changes(run: seq<State>, t: Thread, update: bool, h: Handle, tx: Option<Txn>) returns (longer: seq<State>)
    requires Ready(run, t) && h in Last(run).shared.open && Usable(Last(run), tx)
    requires !Last(run).shared.GateOf(h.home).readOnly
    ensures Reaches(run, longer, t, Idle, Changed(Last(run).shared, h.home, tx))
  {
    RunInv(run, |run| - 1);
    OwnTraced(Last(run), t);
    NetEffect(Last(run).shared, t, h.home, tx);
    longer := AllSteps(run, t, update, h, tx);
  }

  lemma AllSteps(run: seq<State>, t: Thread, update: bool, h: Handle, tx: Option<Txn>) returns (longer: seq<State>)
    requires Ready(run, t) && h in Last(run).shared.open && Usable(Last(run), tx)
    requires !Last(run).shared.GateOf(h.home).readOnly
    ensures Reaches(run, longer, t, Idle, Effects(Last(run).shared, t, h.home, tx))
  {
    longer := Compares(run, t, update, h, tx);
    longer := Modifies(longer, t);
    longer := Commits(longer, t);
  }

  lemma NetEffect(sh: Shared, t: Thread, s: Structure, tx: Option<Txn>)
    requires NestedTraced(sh, t, Idle) && !sh.GateOf(s).readOnly && (tx.Some? ==> tx.value.Explicit?)
    ensures Effects(sh, t, s, tx) == Changed(sh, s, tx)
  {
    NetGate(sh, t, s, tx);
    NetChange(sh, t, s, tx);
    TwoParts(sh, t, s, tx);
  }

  // Only the gate and the changes are touched.
  lemma TwoParts(sh: Shared, t: Thread, s: Structure, tx: Option<Txn>)
    ensures var sh' := Effects(sh, t, s, tx);
            sh' == sh.(gates := sh'.gates, changes := HandOver(sh.changes + {(s, Tid(t))}, t, tx))
  {
  }

  lemma NetGate(sh: Shared, t: Thread, s: Structure, tx: Option<Txn>)
    requires NestedTraced(sh, t, Idle) && !sh.GateOf(s).readOnly && (tx.Some? ==> tx.value.Explicit?)
    ensures Effects(sh, t, s, tx).gates == Changed(sh, s, tx).gates
  {
    assert !Registered(sh, s, Tid(t));
    assert tx.Some? ==> tx.value != Tid(t);
    var g := sh.GateOf(s).Start(Tid(t));
    var g' := if tx.Some? then g.Start(tx.value) else g;
    assert g'.End(Tid(t)).transactions == sh.GateOf(s).transactions + Users(tx);
    assert Effects(sh, t, s, tx).gates == sh.gates[s := g'.End(Tid(t))];
  }

  lemma NetChange(sh: Shared, t: Thread, s: Structure, tx: Option<Txn>)
    requires NestedTraced(sh, t, Idle)
    ensures HandOver(sh.changes + {(s, Tid(t))}, t, tx) == sh.changes + Marks(s, tx)
  {
    var before := sh.changes + {(s, Tid(t))};
    forall p | p in before && p.1 == Tid(t)
      ensures p == (s, Tid(t))
    {
      assert p in sh.changes ==> Registered(sh, p.0, Tid(t));
    }
    assert (s, Tid(t)) in before;
  }

  // ---------- CommitTransaction and AbortTransaction ----------

  // The transaction taken off these structures.
  ghost function Ended(sh: Shared, todo: set<Structure>, x: Txn): Shared {
    sh.(gates := map s | s in sh.gates.Keys + todo :: if s in todo then sh.GateOf(s).End(x) else sh.gates[s])
  }

  lemma EndedOneByOne(sh: Shared, todo: set<Structure>, x: Txn, s: Structure)
    requires s in todo
    ensures Ended(Apply(sh, End(s, x)), todo - {s}, x) == Ended(sh, todo, x)
  {
    assert Ended(Apply(sh, End(s, x)), todo - {s}, x).gates == Ended(sh, todo, x).gates;
  }

  lemma EndsOne(run: seq<State>, t: Thread, x: Txn, todo: set<Structure>, s: Structure) returns (longer: seq<State>)
    requires Run(run) && Alone(Last(run), t) && Last(run).At(t) == Activity(ResolveNext(x, todo), false) && s in todo
    ensures Reaches(run, longer, t, ResolveNext(x, todo - {s}), Apply(Last(run).shared, End(s, x)))
  {
    longer := Passage(run, t, ResolveGate(x, todo - {s}, s), Nothing);
    longer := Section(longer, t, ResolveNext(x, todo - {s}), End(s, x));
  }

  // The loop of CloseTransaction.
  lemma EndsAll(run: seq<State>, t: Thread, x: Txn, todo: set<Structure>) returns (longer: seq<State>)
    requires Run(run) && Alone(Last(run), t) && Last(run).At(t) == Activity(ResolveNext(x, todo), false)
    ensures Reaches(run, longer, t, Idle, Apply(Ended(Last(run).shared, todo, x), Finish(x)))
    decreases |todo|
  {
    if todo == {} {
      assert Ended(Last(run).shared, todo, x).gates == Last(run).shared.gates;
      longer := Passage(run, t, Idle, Finish(x));
    } else {
      var s :| s in todo;
      longer := EndsOne(run, t, x, todo, s);
      EndedOneByOne(Last(run).shared, todo, x, s);
      longer := EndsAll(longer, t, x, todo - {s});
    }
  }

  // What the end of a transaction leaves.
  ghost function Resolved(sh: Shared, x: Txn): Shared {
    Ended(sh, sh.indices.Values, x).(live := sh.live - {x}, changes := set p | p in sh.changes && p.1 != x)
  }

  lemma ResolvedMeans(sh: Shared, x: Txn)
    ensures Apply(Ended(Apply(sh, Resolve(x)), sh.indices.Values, x), Finish(x)) == Resolved(sh, x)
  {
    assert Ended(Apply(sh, Resolve(x)), sh.indices.Values, x).gates == Resolved(sh, x).gates;
  }

  /** CommitTransaction resolves every change of the transaction and takes it off every registered structure. */
  lemma Resolves(run: seq<State>, t: Thread, x: Txn) returns (longer: seq<State>)
    requires Ready(run, t) && Usable(Last(run), Some(x))
    ensures Reaches(run, longer, t, Idle, Resolved(Last(run).shared, x))
  {
    var todo := Last(run).shared.indices.Values;
    ResolvedMeans(Last(run).shared, x);
    longer := Collects(run, t, x);
    longer := EndsAll(longer, t, x, todo);
  }

  lemma Collects(run: seq<State>, t: Thread, x: Txn) returns (longer: seq<State>)
    requires Ready(run, t) && Usable(Last(run), Some(x))
    ensures var sh := Last(run).shared;
            Reaches(run, longer, t, ResolveNext(x, sh.indices.Values), Apply(sh, Resolve(x)))
  {
    longer := Passage(run, t, ResolveClose(x), Resolve(x));
    longer := Section(longer, t, ResolveNext(x, Last(run).shared.indices.Values), Nothing);
  }

  // ---------- DeleteIndex ----------

  // What the loop of CloseHandles and the removal from the map leave.
  ghost predicate Emptied(sh: Shared, sh': Shared, name: Name, s: Structure) {
    && sh' == sh.(indices := sh.indices - {name}, open := sh.open - sh.HandlesOf(s), handles := sh'.handles)
    && (forall r: Structure :: sh'.HandlesOf(r) == if r == s then sh.HandlesOf(s) - sh.open else sh.HandlesOf(r))
  }

  lemma Empties(run: seq<State>, t: Thread, name: Name, s: Structure, done: set<Handle>) returns (longer: seq<State>)
    requires Run(run) && Alone(Last(run), t) && Last(run).At(t) == Activity(RemoveHandles(name, s, done), false)
    requires done * Last(run).shared.HandlesOf(s) !! Last(run).shared.open
    ensures |longer| > 0 && Reaches(run, longer, t, RemoveDatabase(name), Last(longer).shared)
    ensures Emptied(Last(run).shared, Last(longer).shared, name, s)
    decreases |Last(run).shared.HandlesOf(s) - done|
  {
    var sh := Last(run).shared;
    if sh.HandlesOf(s) <= done {
      longer := LastTurn(run, t, name, s, done);
    } else {
      var h :| h in sh.HandlesOf(s) && h !in done;
      FewerLeft(sh, s, done, h);
      var next := OneHandle(run, t, name, s, done, h);
      longer := Empties(next, t, name, s, done + {h});
      OneMore(sh, Last(next).shared, Last(longer).shared, name, s, h);
    }
  }

  lemma LastTurn(run: seq<State>, t: Thread, name: Name, s: Structure, done: set<Handle>) returns (longer: seq<State>)
    requires Run(run) && Alone(Last(run), t) && Last(run).At(t) == Activity(RemoveHandles(name, s, done), false)
    requires Last(run).shared.HandlesOf(s) <= done && Last(run).shared.HandlesOf(s) !! Last(run).shared.open
    ensures |longer| > 0 && Reaches(run, longer, t, RemoveDatabase(name), Last(longer).shared)
    ensures Emptied(Last(run).shared, Last(longer).shared, name, s)
  {
    var sh := Last(run).shared;
    longer := Passage(run, t, RemoveDatabase(name), EraseStructure(name));
    assert sh.open - sh.HandlesOf(s) == sh.open;
    assert sh.HandlesOf(s) - sh.open == sh.HandlesOf(s);
  }

  // One turn of the loop: an open handle is closed and taken out, a closed one stays.
  ghost function Turned(sh: Shared, s: Structure, h: Handle): Shared {
    if h in sh.open then Apply(Apply(sh, ShutHandle(h)), SetHandles(s, sh.HandlesOf(s) - {h})) else sh
  }

  lemma FewerLeft(sh: Shared, s: Structure, done: set<Handle>, h: Handle)
    requires h in sh.HandlesOf(s) && h !in done
    requires done * sh.HandlesOf(s) !! sh.open
    ensures var next := Turned(sh, s, h);
            && |next.HandlesOf(s) - (done + {h})| < |sh.HandlesOf(s) - done|
            && (done + {h}) * next.HandlesOf(s) !! next.open
  {
    assert Turned(sh, s, h).HandlesOf(s) - (done + {h}) == sh.HandlesOf(s) - done - {h};
  }

  lemma OneHandle(run: seq<State>, t: Thread, name: Name, s: Structure, done: set<Handle>, h: Handle)
    returns (longer: seq<State>)
    requires Run(run) && Alone(Last(run), t) && Last(run).At(t) == Activity(RemoveHandles(name, s, done), false)
    requires h in Last(run).shared.HandlesOf(s) && h !in done
    ensures Reaches(run, longer, t, RemoveHandles(name, s, done + {h}), Turned(Last(run).shared, s, h))
  {
    longer := Passage(run, t, RemoveMark(name, s, done, h), Nothing);
    if h in Last(run).shared.open {
      longer := Shuts(longer, t, name, s, done, h);
    } else {
      longer := Section(longer, t, RemoveHandles(name, s, done + {h}), Nothing);
    }
  }

  lemma Shuts(run: seq<State>, t: Thread, name: Name, s: Structure, done: set<Handle>, h: Handle)
    returns (longer: seq<State>)
    requires Run(run) && Alone(Last(run), t) && Last(run).At(t) == Activity(RemoveMark(name, s, done, h), true)
    requires h in Last(run).shared.open
    ensures Reaches(run, longer, t, RemoveHandles(name, s, done + {h}), Turned(Last(run).shared, s, h))
  {
    longer := Section(run, t, RemoveUnregister(name, s, done + {h}, h), ShutHandle(h));
    longer := Section(longer, t, RemoveHandles(name, s, done + {h}), SetHandles(s, Last(run).shared.HandlesOf(s) - {h}));
  }

  lemma OneMore(sh: Shared, next: Shared, sh': Shared, name: Name, s: Structure, h: Handle)
    requires h in sh.HandlesOf(s) && next == Turned(sh, s, h) && Emptied(next, sh', name, s)
    ensures Emptied(sh, sh', name, s)
  {
    assert next.open - next.HandlesOf(s) == sh.open - sh.HandlesOf(s);
    assert next.HandlesOf(s) - next.open == sh.HandlesOf(s) - sh.open;
  }

  lemma Freezes(run: seq<State>, t: Thread, name: Name, s: Structure) returns (longer: seq<State>)
    requires Ready(run, t) && name in Last(run).shared.indices && Last(run).shared.indices[name] == s
    requires Last(run).shared.GateOf(s).transactions == {}
    ensures Reaches(run, longer, t, RemoveHandles(name, s, {}), Apply(Last(run).shared, Freeze(s)))
  {
    longer := Passage(run, t, RemoveFind(name), Nothing);
    longer := Section(longer, t, RemoveGate(name, s), Nothing);
    longer := Section(longer, t, RemoveHandles(name, s, {}), Freeze(s));
  }

  // What a DeleteIndex leaves.
  ghost predicate Removed(sh: Shared, sh': Shared, name: Name, s: Structure) {
    && sh' == sh.(gates := sh.gates[s := Gate(true, {})], handles := sh'.handles, open := sh.open - sh.HandlesOf(s),
                  indices := sh.indices - {name}, databases := sh.databases - {name})
    && (forall r: Structure :: sh'.HandlesOf(r) == if r == s then sh.HandlesOf(s) - sh.open else sh.HandlesOf(r))
  }

  lemma ThenDropped(sh: Shared, emptied: Shared, name: Name, s: Structure)
    requires sh.GateOf(s).transactions == {} && Emptied(Apply(sh, Freeze(s)), emptied, name, s)
    ensures Removed(sh, Apply(emptied, DropDatabase(name)), name, s)
  {
    var frozen := Apply(sh, Freeze(s));
    assert frozen.gates == sh.gates[s := Gate(true, {})];
    assert forall r: Structure :: frozen.HandlesOf(r) == sh.HandlesOf(r);
  }

  /** DeleteIndex without modifying transactions closes every open handle, unregisters the index and drops the database. */
  lemma Removes(run: seq<State>, t: Thread, name: Name) returns (longer: seq<State>)
    requires Ready(run, t) && name in Last(run).shared.indices
    requires Last(run).shared.GateOf(Last(run).shared.indices[name]).transactions == {}
    ensures |longer| > 0 && Reaches(run, longer, t, Idle, Last(longer).shared)
    ensures Removed(Last(run).shared, Last(longer).shared, name, Last(run).shared.indices[name])
  {
    var s := Last(run).shared.indices[name];
    var frozen := Freezes(run, t, name, s);
    var emptied := Empties(frozen, t, name, s, {});
    ThenDropped(Last(run).shared, Last(emptied).shared, name, s);
    longer := Passage(emptied, t, Idle, DropDatabase(name));
  }

  /** DeleteIndex of an unknown name changes nothing. */
  lemma RemovesNothing(run: seq<State>, t: Thread, name: Name) returns (longer: seq<State>)
    requires Ready(run, t) && name !in Last(run).shared.indices
    ensures Reaches(run, longer, t, Idle, Last(run).shared)
  {
    longer := Passage(run, t, RemoveFind(name), Nothing);
    longer := Section(longer, t, Idle, Nothing);
  }

  /** DeleteIndex of an index with a registered transaction changes nothing. */
  lemma RemoveRefused(run: seq<State>, t: Thread, name: Name) returns (longer: seq<State>)
    requires Ready(run, t) && name in Last(run).shared.indices
    requires Last(run).shared.GateOf(Last(run).shared.indices[name]).transactions != {}
    ensures Reaches(run, longer, t, Idle, Last(run).shared)
  {
    var sh := Last(run).shared;
    var s := sh.indices[name];
    assert s in sh.gates && Apply(sh, Freeze(s)).gates == sh.gates;
    longer := Passage(run, t, RemoveFind(name), Nothing);
    longer := Section(longer, t, RemoveGate(name, s), Nothing);
    longer := Section(longer, t, Idle, Freeze(s));
  }

  // ---------- From the beginning ----------

  /** BeginTransaction makes a new transaction usable. */
  lemma Begun(run: seq<State>, t: Thread, x: Txn) returns (longer: seq<State>)
    requires Ready(run, t) && x.Explicit? && x !in Last(run).shared.live
    ensures var sh := Last(run).shared; Reaches(run, longer, t, Idle, sh.(live := sh.live + {x}))
    ensures Usable(Last(longer), Some(x))
  {
    RunInv(run, |run| - 1);
    longer := Passage(run, t, Idle, Begin(x));
    RunInv(longer, |longer| - 1);
    forall u: Thread
      ensures TxUse(Last(longer).At(u).code) != Some(x)
    {
      assert u != t ==> TxUse(Last(run).At(u).code) != Some(x);
    }
  }

  const NO_SHARED := Shared(map[], 0, map[], map[], {}, {}, 0, {}, {}, {})

  // BeginTransaction, CreateIndex and OpenIndex at the very beginning.
  lemma Opening(t: Thread, name: Name, x: Txn) returns (run: seq<State>)
    requires x.Explicit?
    ensures Ready(run, t) && Usable(Last(run), Some(x))
    ensures var h := Handle(0, name, 0);
            Last(run).shared == NO_SHARED.(indices := map[name := 0], nextStructure := 1, handles := map[0 := {h}], issued := {h},
                                           open := {h}, nextHandle := 1, databases := {name}, live := {x})
  {
    var start := [State(map[], map[], NO_SHARED)];
    var next := Creates(start, t, name);
    var last := Opens(next, t, name);
    run := Begun(last, t, x);
    ghost var sh, h := Last(run).shared, Handle(0, name, 0);
    assert Last(next).shared.HandlesOf(0) + {h} == {h};
    assert sh.indices == map[name := 0] && sh.handles == map[0 := {h}] && sh.open == {h} && sh.issued == {h};
    assert sh.databases == {name} && sh.live == {x} && sh.gates == map[] && sh.changes == {};
  }

  /**
   A whole life of an index: behind an insertion the change is outstanding, behind the commit nothing is,
   and behind DeleteIndex there is no index, no database and no open handle.
  */
  lemma WholeLife(t: Thread, name: Name, x: Txn) returns (inserted: seq<State>, committed: seq<State>, deleted: seq<State>)
    requires x.Explicit?
    ensures Ready(inserted, t) && Ready(committed, t) && Ready(deleted, t) && inserted <= committed <= deleted
    ensures Last(inserted).shared.changes == {(0, x)} && Last(inserted).shared.GateOf(0) == Gate(false, {x})
    ensures Last(committed).shared.changes == {} && Last(committed).shared.GateOf(0) == Gate(false, {})
    ensures Last(committed).shared.live == {} && Last(committed).shared.indices == map[name := 0]
    ensures Last(deleted).shared.indices == map[] && Last(deleted).shared.databases == {}
    ensures Last(deleted).shared.open == {} && Last(deleted).shared.GateOf(0) == Gate(true, {})
  {
    var run := Opening(t, name, x);
    inserted := Inserts(run, t, Handle(0, name, 0), x);
    committed := Resolves(inserted, t, x);
    deleted := Removes(committed, t, name);
  }
}
