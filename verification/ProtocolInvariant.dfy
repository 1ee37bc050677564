/** The invariant of the locking protocol and its proof, kind of step by kind of step. */
module ProtocolInvariant {
  import opened Interface
  import opened Gate
  import opened Protocol
  import opened ProtocolFacts

  lemma InitInv(st: State)
    requires Init(st)
    ensures Inv(st)
  {
  }

  // ---------- Ownership ----------

  lemma AcquireOwnership(st: State, t: Thread, st': State)
    requires Ownership(st) && Acquire(st, t, st')
    ensures Ownership(st')
  {
    var a, mine := st.At(t), Entry(st.At(t).code).value;
    forall u: Thread, m: Mutex
      ensures st'.At(u).Holds(m) <==> m in st'.owner && st'.owner[m] == u
    {
      assert st'.At(u) == if u == t then Activity(a.code, false) else st.At(u);
      assert st.At(u).Holds(m) <==> m in st.owner && st.owner[m] == u;
    }
  }

  lemma GotoOwnership(st: State, t: Thread, c: Code, sh: Shared)
    requires Ownership(st)
    requires Outer(c).Some? ==> st.At(t).Holds(Outer(c).value)
    ensures Ownership(Goto(st, t, c, sh))
  {
    var st' := Goto(st, t, c, sh);
    forall u: Thread, m: Mutex
      ensures st'.At(u).Holds(m) <==> m in st'.owner && st'.owner[m] == u
    {
      assert st'.At(u) == if u == t then Activity(c, Entry(c).Some?) else st.At(u);
      assert st.At(u).Holds(m) <==> m in st.owner && st.owner[m] == u;
      assert st.At(t).Holds(m) <==> m in st.owner && st.owner[m] == t;
    }
  }

  /** A step never needs a mutex that the thread does not hold. */
  lemma WorkOuter(sh: Shared, t: Thread, c: Code, c': Code, e: Effect)
    requires Work(sh, t, c, c', e) && Outer(c').Some?
    ensures Outer(c) == Outer(c') || Entry(c) == Outer(c')
  {
  }

  // ---------- What an effect needs ----------

  ghost predicate Allowed(sh: Shared, e: Effect) {
    match e
    case InsertStructure(name) => name in sh.databases && name !in sh.indices
    case SetHandles(s, hs) => forall h: Handle :: h in hs ==> h.home == s
    case OpenHandle(h) => Known(sh, h)
    case Start(s, _) => Published(sh, s)
    case Freeze(s) => s in sh.indices.Values
    case EraseStructure(name) => name in sh.indices && sh.GateOf(sh.indices[name]).readOnly
    case DropDatabase(name) => name !in sh.indices
    case Finish(x) => forall s: Structure :: !Registered(sh, s, x)
    case Change(s, x) => Registered(sh, s, x)
    case _ => true
  }

  lemma WorkAllowed(sh: Shared, t: Thread, c: Code, c': Code, e: Effect)
    requires Structures(sh) && Local(sh, t, c) && Work(sh, t, c, c', e)
    ensures Allowed(sh, e)
  {
    if e.SetHandles? {
      WorkSetsHandles(sh, t, c, c', e);
    } else if e.Start? || e.Change? {
      WorkRegisters(sh, t, c, c', e);
    } else if e.Freeze? || e.EraseStructure? {
      WorkRemoves(sh, t, c, c', e);
    } else {
      WorkRegistry(sh, t, c, c', e);
    }
  }

  lemma WorkSetsHandles(sh: Shared, t: Thread, c: Code, c': Code, e: Effect)
    requires Structures(sh) && Local(sh, t, c) && Work(sh, t, c, c', e) && e.SetHandles?
    ensures Allowed(sh, e)
  {
  }

  lemma WorkRegisters(sh: Shared, t: Thread, c: Code, c': Code, e: Effect)
    requires Local(sh, t, c) && Work(sh, t, c, c', e) && (e.Start? || e.Change?)
    ensures Allowed(sh, e)
  {
  }

  lemma WorkRemoves(sh: Shared, t: Thread, c: Code, c': Code, e: Effect)
    requires Local(sh, t, c) && Work(sh, t, c, c', e) && (e.Freeze? || e.EraseStructure?)
    ensures Allowed(sh, e)
  {
  }

  lemma WorkRegistry(sh: Shared, t: Thread, c: Code, c': Code, e: Effect)
    requires Local(sh, t, c) && Work(sh, t, c, c', e)
    requires !e.SetHandles? && !e.Start? && !e.Change? && !e.Freeze? && !e.EraseStructure?
    ensures Allowed(sh, e)
  {
  }

  // ---------- Structures ----------

  lemma GateStructures(sh: Shared, s: Structure, g: Gate)
    requires Structures(sh) && g.Sound()
    requires g.readOnly ==> s < sh.nextStructure
    requires g.transactions != {} ==> s in sh.indices.Values
    requires sh.GateOf(s).readOnly ==> g.readOnly
    ensures Structures(sh.(gates := sh.gates[s := g]))
  {
    var sh' := sh.(gates := sh.gates[s := g]);
    assert forall r: Structure :: sh'.GateOf(r) == if r == s then g else sh.GateOf(r);
    assert forall r: Structure :: sh'.HandlesOf(r) == sh.HandlesOf(r);
    forall r: Structure, y: Txn | Registered(sh', r, y)
      ensures r in sh'.indices.Values
    {
      assert r == s || Registered(sh, r, y);
    }
  }

  lemma EffectStructures(sh: Shared, e: Effect)
    requires Structures(sh) && Allowed(sh, e)
    ensures Structures(Apply(sh, e))
  {
    match e
    case Start(s, x) => GateStructures(sh, s, sh.GateOf(s).Start(x));
    case End(s, x) => EndStructures(sh, s, x);
    case Freeze(s) => GateStructures(sh, s, sh.GateOf(s).Close());
    case InsertStructure(name) => InsertStructures(sh, name);
    case EraseStructure(name) => EraseStructures(sh, name);
    case SetHandles(s, hs) => HandlesStructures(sh, s, hs);
    case _ => PlainStructures(sh, e);
  }

  lemma EndStructures(sh: Shared, s: Structure, x: Txn)
    requires Structures(sh)
    ensures Structures(Apply(sh, End(s, x)))
  {
    var g := sh.GateOf(s);
    assert g.Sound();
    if g.End(x).transactions != {} {
      var y :| y in g.End(x).transactions;
      assert Registered(sh, s, y);
    }
    GateStructures(sh, s, g.End(x));
  }

  lemma InsertStructures(sh: Shared, name: Name)
    requires Structures(sh) && Allowed(sh, InsertStructure(name))
    ensures Structures(Apply(sh, InsertStructure(name)))
  {
    var sh' := Apply(sh, InsertStructure(name));
    SameGates(sh, sh');
    forall s: Structure | s in sh.indices.Values
      ensures s in sh'.indices.Values
    {
      var n :| n in sh.indices && sh.indices[n] == s;
      assert sh'.indices[n] == s;
    }
  }

  lemma EraseStructures(sh: Shared, name: Name)
    requires Structures(sh) && Allowed(sh, EraseStructure(name))
    ensures Structures(Apply(sh, EraseStructure(name)))
  {
    var sh', s := Apply(sh, EraseStructure(name)), sh.indices[name];
    SameGates(sh, sh');
    assert sh.GateOf(s).Sound();
    forall r: Structure | r in sh.indices.Values && r != s
      ensures r in sh'.indices.Values
    {
      var n :| n in sh.indices && sh.indices[n] == r;
      assert sh'.indices[n] == r;
    }
  }

  lemma HandlesStructures(sh: Shared, s: Structure, hs: set<Handle>)
    requires Structures(sh) && Allowed(sh, SetHandles(s, hs))
    ensures Structures(Apply(sh, SetHandles(s, hs)))
  {
    var sh' := Apply(sh, SetHandles(s, hs));
    assert forall r: Structure :: sh'.GateOf(r) == sh.GateOf(r);
    assert forall r: Structure :: sh'.HandlesOf(r) == if r == s then hs else sh.HandlesOf(r);
    assert forall r: Structure, x: Txn :: Registered(sh', r, x) ==> Registered(sh, r, x);
  }

  lemma SameGates(sh: Shared, sh': Shared)
    requires sh'.gates == sh.gates && sh'.handles == sh.handles
    ensures forall s: Structure :: sh'.GateOf(s) == sh.GateOf(s)
    ensures forall s: Structure :: sh'.HandlesOf(s) == sh.HandlesOf(s)
    ensures forall s: Structure, x: Txn :: Registered(sh', s, x) <==> Registered(sh, s, x)
  {
  }

  // Effects that leave the registry, the gates and the handle sets alone.
  lemma PlainStructures(sh: Shared, e: Effect)
    requires Structures(sh) && Allowed(sh, e)
    requires !e.Start? && !e.End? && !e.Freeze? && !e.InsertStructure? && !e.EraseStructure? && !e.SetHandles?
    ensures Structures(Apply(sh, e))
  {
    var sh' := Apply(sh, e);
    SameGates(sh, sh');
    assert forall h: Handle :: Known(sh, h) ==> Known(sh', h);
  }

  // ---------- What a thread relies on, under a step of another thread ----------

  /** The effect does not interfere with the transactions, the database or the lock of this thread. */
  ghost predicate NoClash(e: Effect, u: Thread, d: Code) {
    match e
    case InsertStructure(name) => Claim(d) != Some(name)
    case DropDatabase(name) => Claim(d) != Some(name)
    case EraseStructure(_) => Outer(d) != Some(ManagerMutex)
    case Start(_, x) => TxUse(d) != Some(x) && x != Tid(u)
    case End(_, x) => TxUse(d) != Some(x) && x != Tid(u)
    case Change(_, x) => TxUse(d) != Some(x) && x != Tid(u)
    case CommitNested(t, parent) => t != u && (parent.Some? ==> TxUse(d) != parent && parent != Some(Tid(u)))
    case Resolve(x) => x != Tid(u)
    case Finish(x) => TxUse(d) != Some(x)
    case _ => true
  }

  lemma GateLocal(sh: Shared, s: Structure, g: Gate, u: Thread, d: Code)
    requires Local(sh, u, d)
    requires sh.GateOf(s).readOnly ==> g.readOnly
    requires forall y: Txn :: y == Tid(u) || TxUse(d) == Some(y) ==> (y in g.transactions <==> Registered(sh, s, y))
    ensures Local(sh.(gates := sh.gates[s := g]), u, d)
  {
    var sh' := sh.(gates := sh.gates[s := g]);
    assert forall r: Structure :: sh'.GateOf(r) == if r == s then g else sh.GateOf(r);
    assert forall h: Handle :: Known(sh, h) ==> Known(sh', h);
    assert forall r: Structure, y: Txn :: y == Tid(u) || TxUse(d) == Some(y) ==> (Registered(sh', r, y) <==> Registered(sh, r, y));
  }

  lemma ChangesLocal(sh: Shared, changes: set<(Structure, Txn)>, u: Thread, d: Code)
    requires Local(sh, u, d)
    requires forall r: Structure :: (r, Tid(u)) in changes <==> (r, Tid(u)) in sh.changes
    requires forall r: Structure, y: Txn :: TxUse(d) == Some(y) && (r, y) in changes ==> (r, y) in sh.changes
    ensures Local(sh.(changes := changes), u, d)
  {
    var sh' := sh.(changes := changes);
    SameGates(sh, sh');
    assert forall h: Handle :: Known(sh, h) <==> Known(sh', h);
  }

  /** A structure that is gone does not come back. */
  lemma GoneStays(sh: Shared, e: Effect, s: Structure)
    requires Gone(sh, s)
    ensures Gone(Apply(sh, e), s)
  {
  }

  lemma RegistryKnown(sh: Shared, e: Effect, h: Handle)
    requires Structures(sh) && Allowed(sh, e) && (e.InsertStructure? || e.EraseStructure?)
    requires Known(sh, h)
    ensures Known(Apply(sh, e), h)
  {
    SameGates(sh, Apply(sh, e));
    if Gone(sh, h.home) {
      GoneStays(sh, e, h.home);
    }
  }

  lemma InsertLocal(sh: Shared, e: Effect, u: Thread, d: Code)
    requires Structures(sh) && Local(sh, u, d) && Allowed(sh, e) && NoClash(e, u, d) && e.InsertStructure?
    ensures Local(Apply(sh, e), u, d)
  {
    SameGates(sh, Apply(sh, e));
    forall h: Handle | Known(sh, h) ensures Known(Apply(sh, e), h) { RegistryKnown(sh, e, h); }
  }

  lemma EraseLocal(sh: Shared, e: Effect, u: Thread, d: Code)
    requires Structures(sh) && Local(sh, u, d) && Allowed(sh, e) && NoClash(e, u, d) && e.EraseStructure?
    ensures Local(Apply(sh, e), u, d)
  {
    SameGates(sh, Apply(sh, e));
    forall h: Handle | Known(sh, h) ensures Known(Apply(sh, e), h) { RegistryKnown(sh, e, h); }
  }

  lemma HandlesLocal(sh: Shared, e: Effect, u: Thread, d: Code)
    requires Local(sh, u, d)
    requires e.Nothing? || e.Begin? || e.NewHandle? || e.SetHandles? || e.OpenHandle? || e.ShutHandle?
    ensures Local(Apply(sh, e), u, d)
  {
    var sh' := Apply(sh, e);
    assert sh'.gates == sh.gates;
    assert forall r: Structure :: sh'.GateOf(r) == sh.GateOf(r);
    assert forall h: Handle :: Known(sh, h) <==> Known(sh', h);
  }

  lemma PlainLocal(sh: Shared, e: Effect, u: Thread, d: Code)
    requires Local(sh, u, d) && NoClash(e, u, d)
    requires e.CreateDatabase? || e.Finish? || e.DropDatabase?
    ensures Local(Apply(sh, e), u, d)
  {
    var sh' := Apply(sh, e);
    assert sh'.gates == sh.gates;
    assert forall r: Structure :: sh'.GateOf(r) == sh.GateOf(r);
    assert forall h: Handle :: Known(sh, h) <==> Known(sh', h);
  }

  lemma EffectLocal(sh: Shared, e: Effect, u: Thread, d: Code)
    requires Structures(sh) && Local(sh, u, d) && Allowed(sh, e) && NoClash(e, u, d)
    ensures Local(Apply(sh, e), u, d)
  {
    if e.Start? || e.End? || e.Freeze? {
      GateEffectLocal(sh, e, u, d);
    } else if e.InsertStructure? {
      InsertLocal(sh, e, u, d);
    } else if e.EraseStructure? {
      EraseLocal(sh, e, u, d);
    } else if e.Change? || e.CommitNested? || e.Resolve? {
      ChangeEffectLocal(sh, e, u, d);
    } else if e.Nothing? || e.Begin? || e.NewHandle? || e.SetHandles? || e.OpenHandle? || e.ShutHandle? {
      HandlesLocal(sh, e, u, d);
    } else {
      PlainLocal(sh, e, u, d);
    }
  }

  lemma GateEffectLocal(sh: Shared, e: Effect, u: Thread, d: Code)
    requires Local(sh, u, d) && NoClash(e, u, d) && (e.Start? || e.End? || e.Freeze?)
    ensures Local(Apply(sh, e), u, d)
  {
    match e
    case Start(s, x) => GateLocal(sh, s, sh.GateOf(s).Start(x), u, d);
    case End(s, x) => GateLocal(sh, s, sh.GateOf(s).End(x), u, d);
    case Freeze(s) => GateLocal(sh, s, sh.GateOf(s).Close(), u, d);
  }

  lemma ChangeEffectLocal(sh: Shared, e: Effect, u: Thread, d: Code)
    requires Local(sh, u, d) && NoClash(e, u, d)
    requires e.Change? || e.CommitNested? || e.Resolve?
    ensures Local(Apply(sh, e), u, d)
  {
    ChangesLocal(sh, Apply(sh, e).changes, u, d);
  }

  // ---------- What a thread relies on, after its own step ----------

  lemma WorkLocal(sh: Shared, t: Thread, c: Code, c': Code, e: Effect)
    requires Structures(sh) && Local(sh, t, c) && NestedTraced(sh, t, c) && Work(sh, t, c, c', e)
    ensures Local(Apply(sh, e), t, c')
  {
    if e.Start? {
      StartLocal(sh, t, c, c', e);
    } else if e.End? {
      EndLocal(sh, t, c, c', e);
    } else if e.Freeze? {
      FreezeLocal(sh, t, c, c', e);
    } else if c.ModifyRun? {
      RunLocal(sh, t, c, c', e);
    } else {
      OwnPlain(sh, t, c, c', e);
    }
  }

  lemma GateOnly(sh: Shared, s: Structure, g: Gate)
    requires sh.GateOf(s).readOnly ==> g.readOnly
    ensures var sh' := sh.(gates := sh.gates[s := g]);
            && (forall r: Structure :: sh'.GateOf(r) == if r == s then g else sh.GateOf(r))
            && (forall h: Handle :: Known(sh, h) ==> Known(sh', h))
            && (forall r: Structure, y: Txn :: Registered(sh', r, y) <==> if r == s then y in g.transactions else Registered(sh, r, y))
  {
  }

  lemma StartLocal(sh: Shared, t: Thread, c: Code, c': Code, e: Effect)
    requires Structures(sh) && Local(sh, t, c) && NestedTraced(sh, t, c) && Work(sh, t, c, c', e) && e.Start?
    ensures Local(Apply(sh, e), t, c')
  {
    GateOnly(sh, e.s, sh.GateOf(e.s).Start(e.x));
    assert sh.GateOf(e.s).Sound();
  }

  lemma EndLocal(sh: Shared, t: Thread, c: Code, c': Code, e: Effect)
    requires Local(sh, t, c) && Work(sh, t, c, c', e) && e.End?
    ensures Local(Apply(sh, e), t, c')
  {
    GateOnly(sh, e.s, sh.GateOf(e.s).End(e.x));
  }

  lemma FreezeLocal(sh: Shared, t: Thread, c: Code, c': Code, e: Effect)
    requires Local(sh, t, c) && Work(sh, t, c, c', e) && e.Freeze?
    ensures Local(Apply(sh, e), t, c')
  {
    GateOnly(sh, e.s, sh.GateOf(e.s).Close());
  }

  lemma RunLocal(sh: Shared, t: Thread, c: Code, c': Code, e: Effect)
    requires Local(sh, t, c) && Work(sh, t, c, c', e) && c.ModifyRun?
    ensures Local(Apply(sh, e), t, c')
  {
    var sh' := Apply(sh, e);
    SameGates(sh, sh');
    assert forall h: Handle :: Known(sh, h) ==> Known(sh', h);
  }

  lemma OwnPlain(sh: Shared, t: Thread, c: Code, c': Code, e: Effect)
    requires Structures(sh) && Local(sh, t, c) && Work(sh, t, c, c', e)
    requires !e.Start? && !e.End? && !e.Freeze? && !c.ModifyRun?
    ensures Local(Apply(sh, e), t, c')
  {
    if InRemove(c) {
      OwnRemove(sh, t, c, c', e);
    } else if Outer(c) == Some(ManagerMutex) || Entry(c) == Some(ManagerMutex) {
      OwnManaged(sh, t, c, c', e);
    } else {
      OwnUnmanaged(sh, t, c, c', e);
    }
  }

  predicate InRemove(c: Code) {
    c.RemoveFind? || c.RemoveGate? || c.RemoveHandles? || c.RemoveMark? || c.RemoveUnregister?
  }

  lemma OwnManaged(sh: Shared, t: Thread, c: Code, c': Code, e: Effect)
    requires Structures(sh) && Local(sh, t, c) && Work(sh, t, c, c', e)
    requires !e.Start? && !e.End? && !e.Freeze?
    requires (Outer(c) == Some(ManagerMutex) || Entry(c) == Some(ManagerMutex)) && !InRemove(c)
    ensures Local(Apply(sh, e), t, c')
  {
    var sh' := Apply(sh, e);
    assert sh'.gates == sh.gates;
    assert forall r: Structure :: sh'.GateOf(r) == sh.GateOf(r);
  }

  lemma OwnRemove(sh: Shared, t: Thread, c: Code, c': Code, e: Effect)
    requires Structures(sh) && Local(sh, t, c) && Work(sh, t, c, c', e)
    requires !e.Freeze? && InRemove(c)
    ensures Local(Apply(sh, e), t, c')
  {
    var sh' := Apply(sh, e);
    assert sh'.gates == sh.gates;
    assert forall r: Structure :: sh'.GateOf(r) == sh.GateOf(r);
  }

  lemma OwnUnmanaged(sh: Shared, t: Thread, c: Code, c': Code, e: Effect)
    requires Local(sh, t, c) && Work(sh, t, c, c', e)
    requires !e.Start? && !e.End? && !e.Freeze? && !c.ModifyRun?
    requires Outer(c) != Some(ManagerMutex) && Entry(c) != Some(ManagerMutex)
    ensures Local(Apply(sh, e), t, c')
  {
    var sh' := Apply(sh, e);
    assert sh'.gates == sh.gates;
    assert forall r: Structure :: sh'.GateOf(r) == sh.GateOf(r);
  }

  // ---------- Calls ----------

  lemma CallAllowed(st: State, c: Code, e: Effect)
    requires Call(st, c, e)
    ensures Allowed(st.shared, e) && Outer(c) == None
  {
  }

  lemma CallLocal(st: State, t: Thread, c: Code, e: Effect)
    requires Structures(st.shared) && Call(st, c, e)
    ensures Local(Apply(st.shared, e), t, c)
  {
    var sh, sh' := st.shared, Apply(st.shared, e);
    SameGates(sh, sh');
    assert forall h: Handle :: Known(sh, h) ==> Known(sh', h);
  }

  // ---------- Interference ----------

  lemma UsesExplicit(sh: Shared, u: Thread, d: Code)
    requires Local(sh, u, d) && TxUse(d).Some?
    ensures TxUse(d).value.Explicit? && TxUse(d).value in sh.live
  {
  }

  lemma WorkNoClash(st: State, t: Thread, c': Code, e: Effect, u: Thread)
    requires Inv(st) && u != t
    requires !st.At(t).waiting && Work(st.shared, t, st.At(t).code, c', e)
    ensures NoClash(e, u, st.At(u).code)
  {
    var c, d := st.At(t).code, st.At(u).code;
    assert Local(st.shared, t, c) && Local(st.shared, u, d);
    if TxUse(c).Some? { UsesExplicit(st.shared, t, c); }
    if TxUse(d).Some? { UsesExplicit(st.shared, u, d); }
    WorkUses(st.shared, t, c, c', e);
    if e.EraseStructure? && Outer(d) == Some(ManagerMutex) {
      SameHolder(st, t, u, ManagerMutex);
    }
  }

  lemma SameHolder(st: State, t: Thread, u: Thread, m: Mutex)
    requires Ownership(st) && st.At(t).Holds(m) && st.At(u).Holds(m)
    ensures t == u
  {
    assert st.owner[m] == t && st.owner[m] == u;
  }

  // The transactions and names in an effect are the thread's own.
  lemma WorkUses(sh: Shared, t: Thread, c: Code, c': Code, e: Effect)
    requires Work(sh, t, c, c', e)
    ensures e.Start? || e.Change? || e.End? ==> e.x == Tid(t) || TxUse(c) == Some(e.x)
    ensures e.CommitNested? ==> e.t == t && (e.parent.Some? ==> TxUse(c) == e.parent)
    ensures e.Finish? ==> TxUse(c) == Some(e.x)
    ensures e.InsertStructure? || e.DropDatabase? ==> Claim(c) == Some(e.name)
    ensures e.EraseStructure? ==> c.RemoveHandles? && c.name == e.name
    ensures !e.Begin? && !e.Resolve? && !e.CreateDatabase?
  {
  }

  // What a thread uses afterwards.
  lemma WorkKeeps(sh: Shared, t: Thread, c: Code, c': Code, e: Effect)
    requires Work(sh, t, c, c', e)
    ensures TxUse(c') == None || TxUse(c') == TxUse(c)
  {
  }

  // A database is claimed by its creation, until it is registered, and by its deletion, until it is dropped.
  lemma WorkClaims(sh: Shared, t: Thread, c: Code, c': Code, e: Effect)
    requires Work(sh, t, c, c', e)
    ensures Claim(c').Some? <==> e.EraseStructure?
    ensures e.EraseStructure? ==> Claim(c') == Some(e.name) && c.RemoveHandles? && c.name == e.name
    ensures Claim(c).Some? ==> e == InsertStructure(Claim(c).value) || e == DropDatabase(Claim(c).value)
  {
  }

  lemma CallNoClash(st: State, t: Thread, c: Code, e: Effect, u: Thread)
    requires Inv(st) && u != t && Call(st, c, e)
    ensures NoClash(e, u, st.At(u).code)
  {
  }

  lemma OthersLocal(st: State, t: Thread, e: Effect)
    requires Inv(st) && Allowed(st.shared, e)
    requires forall u: Thread :: u != t ==> NoClash(e, u, st.At(u).code)
    ensures forall u: Thread :: u != t ==> Local(Apply(st.shared, e), u, st.At(u).code)
  {
    forall u: Thread | u != t
      ensures Local(Apply(st.shared, e), u, st.At(u).code)
    {
      EffectLocal(st.shared, e, u, st.At(u).code);
    }
  }

  // ---------- Exclusive use ----------

  lemma AtGoto(st: State, t: Thread, c: Code, sh: Shared)
    ensures forall u: Thread :: Goto(st, t, c, sh).At(u).code == if u == t then c else st.At(u).code
  {
  }

  lemma GotoExclusive(st: State, t: Thread, c: Code, sh: Shared)
    requires Exclusive(st)
    requires TxUse(c).Some? ==> forall u: Thread :: u != t ==> TxUse(st.At(u).code) != TxUse(c)
    requires Claim(c).Some? ==> forall u: Thread :: u != t ==> Claim(st.At(u).code) != Claim(c)
    ensures Exclusive(Goto(st, t, c, sh))
  {
    AtGoto(st, t, c, sh);
  }

  lemma WorkExclusive(st: State, t: Thread, c: Code, e: Effect)
    requires Inv(st) && !st.At(t).waiting && Work(st.shared, t, st.At(t).code, c, e)
    ensures Exclusive(Goto(st, t, c, Apply(st.shared, e)))
  {
    WorkKeeps(st.shared, t, st.At(t).code, c, e);
    WorkClaims(st.shared, t, st.At(t).code, c, e);
    forall u: Thread | u != t && Claim(c).Some?
      ensures Claim(st.At(u).code) != Claim(c)
    {
      assert Local(st.shared, t, st.At(t).code) && Local(st.shared, u, st.At(u).code);
    }
    GotoExclusive(st, t, c, Apply(st.shared, e));
  }

  lemma CallExclusive(st: State, t: Thread, c: Code, e: Effect)
    requires Inv(st) && Call(st, c, e)
    ensures Exclusive(Goto(st, t, c, Apply(st.shared, e)))
  {
    forall u: Thread | u != t && Claim(c).Some?
      ensures Claim(st.At(u).code) != Claim(c)
    {
      assert Local(st.shared, u, st.At(u).code);
    }
    GotoExclusive(st, t, c, Apply(st.shared, e));
  }

  // ---------- Every existing database is accounted for ----------

  lemma AccountedAfter(st: State, t: Thread, c: Code, e: Effect)
    requires Accounted(st) && !e.CreateDatabase?
    requires e.EraseStructure? ==> Claim(c) == Some(e.name)
    requires var n := Claim(st.At(t).code); n.Some? ==> e == InsertStructure(n.value) || e == DropDatabase(n.value)
    ensures Accounted(Goto(st, t, c, Apply(st.shared, e)))
  {
    var sh, sh' := st.shared, Apply(st.shared, e);
    var st' := Goto(st, t, c, sh');
    AtGoto(st, t, c, sh');
    forall n | n in sh'.databases && n !in sh'.indices
      ensures exists u: Thread :: Claim(st'.At(u).code) == Some(n)
    {
      if n in sh.indices {
        assert Claim(st'.At(t).code) == Some(n);
      } else {
        var u: Thread :| Claim(st.At(u).code) == Some(n);
        assert u != t;
        assert Claim(st'.At(u).code) == Some(n);
      }
    }
  }

  lemma WorkAccounted(st: State, t: Thread, c: Code, e: Effect)
    requires Inv(st) && Work(st.shared, t, st.At(t).code, c, e)
    ensures Accounted(Goto(st, t, c, Apply(st.shared, e)))
  {
    WorkUses(st.shared, t, st.At(t).code, c, e);
    WorkClaims(st.shared, t, st.At(t).code, c, e);
    AccountedAfter(st, t, c, e);
  }

  lemma CallAccounted(st: State, t: Thread, c: Code, e: Effect)
    requires Inv(st) && st.At(t).code == Idle && Call(st, c, e)
    ensures Accounted(Goto(st, t, c, Apply(st.shared, e)))
  {
    var sh, sh' := st.shared, Apply(st.shared, e);
    var st' := Goto(st, t, c, sh');
    AtGoto(st, t, c, sh');
    forall n | n in sh'.databases && n !in sh'.indices
      ensures exists u: Thread :: Claim(st'.At(u).code) == Some(n)
    {
      if n in sh.databases {
        var u: Thread :| Claim(st.At(u).code) == Some(n);
        assert Claim(st'.At(u).code) == Some(n);
      } else {
        assert Claim(st'.At(t).code) == Some(n);
      }
    }
  }

  // ---------- Registrations and changes belong to somebody ----------

  lemma OwnTraced(st: State, t: Thread)
    requires Inv(st)
    ensures NestedTraced(st.shared, t, st.At(t).code)
  {
  }

  /** How an effect may change the registrations. */
  lemma EffectRegistered(sh: Shared, e: Effect, s: Structure, x: Txn)
    ensures Registered(Apply(sh, e), s, x) ==> Registered(sh, s, x) || (e == Start(s, x) && !sh.GateOf(s).readOnly)
    ensures Registered(sh, s, x) ==> Registered(Apply(sh, e), s, x) || e == End(s, x)
    ensures e == End(s, x) ==> !Registered(Apply(sh, e), s, x)
  {
  }

  lemma WorkNestedRegistration(sh: Shared, t: Thread, c: Code, c': Code, e: Effect, s: Structure)
    requires Registered(sh, s, Tid(t)) ==> NestedAt(c) == Some(s)
    requires TxUse(c).Some? ==> TxUse(c).value.Explicit?
    requires Work(sh, t, c, c', e)
    ensures Registered(Apply(sh, e), s, Tid(t)) ==> NestedAt(c') == Some(s)
    ensures Registered(sh, s, Tid(t)) && !c.ModifyEnd? ==> Registered(Apply(sh, e), s, Tid(t))
  {
    EffectRegistered(sh, e, s, Tid(t));
  }

  lemma WorkNestedChanges(sh: Shared, t: Thread, c: Code, c': Code, e: Effect, s: Structure)
    requires Local(sh, t, c) && Work(sh, t, c, c', e)
    ensures (s, Tid(t)) in Apply(sh, e).changes ==> !c'.ModifyEnd?
    ensures (s, Tid(t)) in Apply(sh, e).changes ==> (s, Tid(t)) in sh.changes || (c.ModifyRun? && c.h.home == s)
  {
    if TxUse(c).Some? { UsesExplicit(sh, t, c); }
  }

  lemma WorkNested(sh: Shared, t: Thread, c: Code, c': Code, e: Effect)
    requires Local(sh, t, c) && NestedTraced(sh, t, c) && Work(sh, t, c, c', e)
    ensures NestedTraced(Apply(sh, e), t, c')
  {
    var sh' := Apply(sh, e);
    if TxUse(c).Some? { UsesExplicit(sh, t, c); }
    forall s: Structure
      ensures Registered(sh', s, Tid(t)) ==> NestedAt(c') == Some(s)
      ensures (s, Tid(t)) in sh'.changes ==> Registered(sh', s, Tid(t)) && !c'.ModifyEnd?
    {
      WorkNestedRegistration(sh, t, c, c', e, s);
      WorkNestedChanges(sh, t, c, c', e, s);
      assert c.ModifyRun? && c.h.home == s ==> Registered(sh, s, Tid(t));
    }
  }

  lemma OtherNested(sh: Shared, e: Effect, u: Thread, d: Code)
    requires NestedTraced(sh, u, d) && NoClash(e, u, d) && Allowed(sh, e)
    ensures NestedTraced(Apply(sh, e), u, d)
  {
    var sh' := Apply(sh, e);
    forall s: Structure
      ensures Registered(sh', s, Tid(u)) ==> NestedAt(d) == Some(s)
      ensures (s, Tid(u)) in sh'.changes ==> Registered(sh', s, Tid(u)) && !d.ModifyEnd?
    {
      EffectRegistered(sh, e, s, Tid(u));
    }
  }

  /** The effect uses live transactions, ends only those without changes, and hands changes to registered ones. */
  ghost predicate CallerSafe(sh: Shared, e: Effect) {
    match e
    case Start(_, x) => x.Explicit? ==> x in sh.live
    case End(s, x) => x.Explicit? ==> (s, x) !in sh.changes
    case CommitNested(t, parent) =>
      parent.Some? ==> forall s: Structure :: (s, Tid(t)) in sh.changes ==> Registered(sh, s, parent.value)
    case _ => true
  }

  lemma WorkCallerSafe(sh: Shared, t: Thread, c: Code, c': Code, e: Effect)
    requires Local(sh, t, c) && NestedTraced(sh, t, c) && Work(sh, t, c, c', e)
    ensures CallerSafe(sh, e)
  {
    if TxUse(c).Some? { UsesExplicit(sh, t, c); }
  }

  lemma CallersAfter(sh: Shared, e: Effect)
    requires CallersTraced(sh) && Allowed(sh, e) && CallerSafe(sh, e)
    ensures CallersTraced(Apply(sh, e))
  {
    var sh' := Apply(sh, e);
    forall s: Structure, x: Txn | x.Explicit?
      ensures Registered(sh', s, x) ==> x in sh'.live
      ensures (s, x) in sh'.changes ==> Registered(sh', s, x)
    {
      EffectRegistered(sh, e, s, x);
    }
  }

  lemma WorkCallers(sh: Shared, t: Thread, c: Code, c': Code, e: Effect)
    requires Structures(sh) && CallersTraced(sh) && Local(sh, t, c) && NestedTraced(sh, t, c) && Work(sh, t, c, c', e)
    ensures CallersTraced(Apply(sh, e))
  {
    WorkAllowed(sh, t, c, c', e);
    WorkCallerSafe(sh, t, c, c', e);
    CallersAfter(sh, e);
  }

  lemma CallCallers(st: State, c: Code, e: Effect)
    requires CallersTraced(st.shared) && Call(st, c, e)
    ensures CallersTraced(Apply(st.shared, e))
  {
    CallAllowed(st, c, e);
    CallersAfter(st.shared, e);
  }

  lemma TracedByParts(st: State)
    requires CallersTraced(st.shared)
    requires forall u: Thread :: NestedTraced(st.shared, u, st.At(u).code)
    ensures Traced(st)
  {
    forall s: Structure, t: Thread | (s, Nested(t)) in st.shared.changes
      ensures !st.At(t).code.ModifyEnd?
    {
      assert Nested(t) == Tid(t) && NestedTraced(st.shared, t, st.At(t).code);
    }
    forall s: Structure, x: Txn | (s, x) in st.shared.changes
      ensures Registered(st.shared, s, x)
    {
      if x.Nested? {
        assert x == Tid(x.thread) && NestedTraced(st.shared, x.thread, st.At(x.thread).code);
      }
    }
  }

  lemma GotoTraced(st: State, t: Thread, c: Code, e: Effect)
    requires Inv(st) && Allowed(st.shared, e)
    requires forall u: Thread :: u != t ==> NoClash(e, u, st.At(u).code)
    requires NestedTraced(Apply(st.shared, e), t, c) && CallersTraced(Apply(st.shared, e))
    ensures Traced(Goto(st, t, c, Apply(st.shared, e)))
  {
    var sh' := Apply(st.shared, e);
    var st' := Goto(st, t, c, sh');
    forall u: Thread
      ensures NestedTraced(sh', u, st'.At(u).code)
    {
      if u != t {
        OwnTraced(st, u);
        OtherNested(st.shared, e, u, st.At(u).code);
      }
    }
    TracedByParts(st');
  }

  // ---------- Every step keeps the invariant ----------

  // The parts that do not depend on whether the step is a call or work.
  lemma GotoInv(st: State, t: Thread, c: Code, e: Effect)
    requires Inv(st) && Allowed(st.shared, e)
    requires Outer(c).Some? ==> st.At(t).Holds(Outer(c).value)
    requires forall u: Thread :: u != t ==> NoClash(e, u, st.At(u).code)
    requires Local(Apply(st.shared, e), t, c)
    requires NestedTraced(Apply(st.shared, e), t, c) && CallersTraced(Apply(st.shared, e))
    requires Exclusive(Goto(st, t, c, Apply(st.shared, e))) && Accounted(Goto(st, t, c, Apply(st.shared, e)))
    ensures Inv(Goto(st, t, c, Apply(st.shared, e)))
  {
    GotoOwnership(st, t, c, Apply(st.shared, e));
    EffectStructures(st.shared, e);
    OthersLocal(st, t, e);
    AtGoto(st, t, c, Apply(st.shared, e));
    GotoTraced(st, t, c, e);
  }

  lemma WorkInv(st: State, t: Thread, c: Code, e: Effect)
    requires Inv(st) && !st.At(t).waiting && Work(st.shared, t, st.At(t).code, c, e)
    ensures Inv(Goto(st, t, c, Apply(st.shared, e)))
  {
    WorkParts(st, t, c, e);
    WorkExclusive(st, t, c, e);
    WorkAccounted(st, t, c, e);
    GotoInv(st, t, c, e);
  }

  lemma WorkParts(st: State, t: Thread, c: Code, e: Effect)
    requires Inv(st) && !st.At(t).waiting && Work(st.shared, t, st.At(t).code, c, e)
    ensures Allowed(st.shared, e)
    ensures Outer(c).Some? ==> st.At(t).Holds(Outer(c).value)
    ensures forall u: Thread :: u != t ==> NoClash(e, u, st.At(u).code)
    ensures Local(Apply(st.shared, e), t, c)
    ensures NestedTraced(Apply(st.shared, e), t, c) && CallersTraced(Apply(st.shared, e))
  {
    var sh, d := st.shared, st.At(t).code;
    OwnTraced(st, t);
    WorkAllowed(sh, t, d, c, e);
    forall u: Thread | u != t
      ensures NoClash(e, u, st.At(u).code)
    {
      WorkNoClash(st, t, c, e, u);
    }
    if Outer(c).Some? { WorkOuter(sh, t, d, c, e); }
    WorkLocal(sh, t, d, c, e);
    WorkNested(sh, t, d, c, e);
    WorkCallers(sh, t, d, c, e);
  }

  lemma CallInv(st: State, t: Thread, c: Code, e: Effect)
    requires Inv(st) && st.At(t).code == Idle && Call(st, c, e)
    ensures Inv(Goto(st, t, c, Apply(st.shared, e)))
  {
    OwnTraced(st, t);
    CallAllowed(st, c, e);
    forall u: Thread | u != t
      ensures NoClash(e, u, st.At(u).code)
    {
      CallNoClash(st, t, c, e, u);
    }
    CallLocal(st, t, c, e);
    CallExclusive(st, t, c, e);
    CallNested(st, t, c, e);
    CallCallers(st, c, e);
    CallAccounted(st, t, c, e);
    GotoInv(st, t, c, e);
  }

  lemma CallNested(st: State, t: Thread, c: Code, e: Effect)
    requires NestedTraced(st.shared, t, Idle) && Call(st, c, e)
    ensures NestedTraced(Apply(st.shared, e), t, c)
  {
    var sh' := Apply(st.shared, e);
    forall s: Structure
      ensures Registered(sh', s, Tid(t)) ==> NestedAt(c) == Some(s)
      ensures (s, Tid(t)) in sh'.changes ==> Registered(sh', s, Tid(t)) && !c.ModifyEnd?
    {
      EffectRegistered(st.shared, e, s, Tid(t));
    }
  }

  lemma AcquireInv(st: State, t: Thread, st': State)
    requires Inv(st) && Acquire(st, t, st')
    ensures Inv(st')
  {
    AcquireOwnership(st, t, st');
    assert forall u: Thread :: st'.At(u).code == st.At(u).code;
    forall n | n in st'.shared.databases && n !in st'.shared.indices
      ensures exists u: Thread :: Claim(st'.At(u).code) == Some(n)
    {
      var u: Thread :| Claim(st.At(u).code) == Some(n);
      assert Claim(st'.At(u).code) == Some(n);
    }
  }

  lemma StepInv(st: State, t: Thread, st': State)
    requires Inv(st) && Step(st, t, st')
    ensures Inv(st')
  {
    if Acquire(st, t, st') {
      AcquireInv(st, t, st');
    } else {
      var c: Code, e: Effect :| Moves(st, t, c, e) && st' == Goto(st, t, c, Apply(st.shared, e));
      if st.At(t).code == Idle {
        CallInv(st, t, c, e);
      } else {
        WorkInv(st, t, c, e);
      }
    }
  }

  /** Every state of every run satisfies the invariant. */
  lemma {:induction false} RunInv(states: seq<State>, i: nat)
    requires Run(states) && i < |states|
    ensures Inv(states[i])
  {
    if i == 0 {
      InitInv(states[0]);
    } else {
      RunInv(states, i - 1);
      assert NextAt(states, i - 1);
      var t: Thread :| Step(states[i - 1], t, states[i]);
      StepInv(states[i - 1], t, states[i]);
    }
  }
}
