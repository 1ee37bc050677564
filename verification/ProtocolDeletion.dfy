/**
 When deleting an index leaves no open handle behind, exactly: the runs that continue from a state
 are followed to a handle that is opened late.
*/
module ProtocolDeletion {
  import opened Interface
  import opened Protocol
  import opened ProtocolFacts
  import opened ProtocolInvariant
  import opened ProtocolProgress
  import opened ProtocolRemoval

  // ---------- Mutexes that are held for one step ----------

  predicate Inner(m: Mutex) {
    m.HandlesMutex? || m.TransactionMutex?
  }

  // What the continuations below leave alone: the remover, the opener and the handles of the structure.
  ghost predicate Frame(st: State, st': State, t: Thread, u: Thread, s: Structure) {
    && st'.At(t) == st.At(t)
    && (OpeningOn(st.At(u).code, s) ==> OpeningOn(st'.At(u).code, s))
    && (forall m: Mutex :: m in st'.owner ==> m in st.owner && st'.owner[m] == st.owner[m])
  }

  lemma HoldsInner(a: Activity, m: Mutex)
    requires a.Holds(m) && Inner(m)
    ensures !a.waiting && Entry(a.code) == Some(m)
  {
  }

  // Who owns such a mutex is past it.
  lemma InnerOwner(run: seq<State>, m: Mutex)
    requires Run(run) && Inner(m) && m in Last(run).owner
    ensures var a := Last(run).At(Last(run).owner[m]); !a.waiting && Entry(a.code) == Some(m)
  {
    RunInv(run, |run| - 1);
    assert Last(run).At(Last(run).owner[m]).Holds(m);
    HoldsInner(Last(run).At(Last(run).owner[m]), m);
  }

  predicate OnlyGates(sh: Shared, sh': Shared) {
    sh' == sh.(gates := sh'.gates)
  }

  lemma OpenerStep(sh: Shared, v: Thread, c: Code, c': Code, e: Effect, s: Structure)
    requires Work(sh, v, c, c', e) && Entry(c).Some? && OpeningOn(c, s)
    ensures OpeningOn(c', s)
  {
  }

  lemma GateStep(sh: Shared, v: Thread, c: Code, c': Code, e: Effect, s: Structure)
    requires Work(sh, v, c, c', e) && Entry(c) == Some(TransactionMutex(s))
    ensures OnlyGates(sh, Apply(sh, e))
  {
  }

  lemma NotInner(c: Code, m: Mutex)
    requires Inner(m)
    ensures !Activity(c, Entry(c).Some?).Holds(m)
  {
  }

  /** The owner of an inner mutex gives it up in its next step. */
  lemma FreeInner(run: seq<State>, m: Mutex, s: Structure, t: Thread, u: Thread) returns (longer: seq<State>)
    requires Run(run) && Inner(m) && m in Last(run).owner && Last(run).owner[m] != t
    requires m.TransactionMutex? ==> Last(run).owner[m] != u
    ensures Run(longer) && run <= longer && Frame(Last(run), Last(longer), t, u, s)
    ensures m !in Last(longer).owner
    ensures forall x: Thread :: x != Last(run).owner[m] ==> Last(longer).At(x) == Last(run).At(x)
    ensures forall n: Mutex :: n in Last(run).owner && Last(run).owner[n] != Last(run).owner[m] ==> n in Last(longer).owner
    ensures m.TransactionMutex? ==> OnlyGates(Last(run).shared, Last(longer).shared)
    ensures Gone(Last(run).shared, s) ==> Gone(Last(longer).shared, s)
  {
    var st := Last(run);
    var v := st.owner[m];
    InnerOwner(run, m);
    var c, e := WorkIsTotal(st.shared, v, st.At(v).code);
    if OpeningOn(st.At(v).code, s) { OpenerStep(st.shared, v, st.At(v).code, c, e, s); }
    if m.TransactionMutex? { GateStep(st.shared, v, st.At(v).code, c, e, m.s); }
    NotInner(c, m);
    longer := Does(run, v, c, e);
    if Gone(st.shared, s) {
      GoneStays(st.shared, e, s);
    }
  }

  // ---------- Opening late ----------

  lemma {:induction false} Above(ts: set<Thread>) returns (w: Thread)
    ensures forall t :: t in ts ==> t < w
  {
    if ts == {} {
      w := 0;
    } else {
      var t :| t in ts;
      var v := Above(ts - {t});
      w := if v <= t then t + 1 else v;
      assert forall x :: x in ts ==> x == t || x in ts - {t};
    }
  }

  /** There are threads that have not made a call yet. */
  lemma IdleThread(st: State) returns (w: Thread)
    ensures w !in st.threads && st.At(w) == Activity(Idle, false)
  {
    w := Above(st.threads.Keys);
    assert w !in st.threads.Keys;
  }

  /** A registered handle is opened; if the name has no database any more, somebody creates it anew. */
  lemma OpensRegistered(run: seq<State>, u: Thread, s: Structure) returns (longer: seq<State>)
    requires Run(run) && Gone(Last(run).shared, s)
    requires Last(run).At(u).code.OpenDatabase? && Last(run).At(u).code.h.home == s
    ensures Run(longer) && run <= longer && Gone(Last(longer).shared, s) && !NoneOpen(Last(longer).shared, s)
  {
    RunInv(run, |run| - 1);
    var h := Last(run).At(u).code.h;
    assert Entry(Last(run).At(u).code) == None && !Last(run).At(u).waiting;
    longer := run;
    if h.name !in Last(run).shared.databases {
      var w := IdleThread(Last(run));
      longer := Does(longer, w, CreateInsert(h.name), CreateDatabase(h.name));
    }
    longer := Does(longer, u, Idle, OpenHandle(h));
    assert h in Last(longer).shared.open;
  }

  /** The handle is registered first, once the mutex of the set is free. */
  lemma Registers(run: seq<State>, u: Thread, s: Structure) returns (longer: seq<State>)
    requires Run(run) && Gone(Last(run).shared, s)
    requires Last(run).At(u).code.OpenRegister? && Last(run).At(u).code.h.home == s
    ensures Run(longer) && run <= longer && Gone(Last(longer).shared, s)
    ensures Last(longer).At(u).code.OpenDatabase? && Last(longer).At(u).code.h.home == s
  {
    var h := Last(run).At(u).code.h;
    longer := run;
    if Last(run).At(u).waiting {
      if HandlesMutex(s) in Last(run).owner {
        var w := IdleThread(Last(run));
        InnerOwner(run, HandlesMutex(s));
        longer := FreeInner(longer, HandlesMutex(s), s, u, w);
      }
      longer := Takes(longer, u);
    }
    longer := Does(longer, u, OpenDatabase(h), SetHandles(s, Last(longer).shared.HandlesOf(s) + {h}));
  }

  /** A thread that is opening the index when it is gone can get an open handle of it. */
  lemma OpensLate(run: seq<State>, u: Thread, s: Structure) returns (longer: seq<State>)
    requires Run(run) && Gone(Last(run).shared, s) && OpeningOn(Last(run).At(u).code, s)
    ensures Run(longer) && run <= longer && Gone(Last(longer).shared, s) && !NoneOpen(Last(longer).shared, s)
  {
    longer := run;
    if Last(run).At(u).code.OpenRegister? {
      longer := Registers(longer, u, s);
    }
    longer := OpensRegistered(longer, u, s);
  }

  /**
   Once an index is gone, all its handles are closed and stay so in every continuation, if and only
   if they are closed and no thread is opening one now.
  */
  lemma GoneStaysClosedExactly(run: seq<State>, s: Structure)
    requires Run(run) && Gone(Last(run).shared, s)
    ensures (forall longer: seq<State> :: Run(longer) && run <= longer ==> NoneOpen(Last(longer).shared, s)) <==>
            NoneOpen(Last(run).shared, s) && Undisturbed(Last(run), s)
  {
    if NoneOpen(Last(run).shared, s) && Undisturbed(Last(run), s) {
      forall longer: seq<State> | Run(longer) && run <= longer
        ensures NoneOpen(Last(longer).shared, s)
      {
        StaysClosed(run, longer, s);
      }
    } else if u: Thread :| OpeningOn(Last(run).At(u).code, s) {
      var longer := OpensLate(run, u, s);
    }
  }

  lemma StaysClosed(run: seq<State>, longer: seq<State>, s: Structure)
    requires Run(run) && Run(longer) && run <= longer
    requires Gone(Last(run).shared, s) && NoneOpen(Last(run).shared, s) && Undisturbed(Last(run), s)
    ensures NoneOpen(Last(longer).shared, s)
  {
    var i, j := |run| - 1, |longer| - 1;
    assert longer[i] == run[i];
    assert Phase(longer[i], 0, s);
    RunPhase(longer, i, j, 0, s);
    // A remover would still have the structure registered.
    RunGone(longer, i, j, s);
    RunInv(longer, j);
    assert Local(longer[j].shared, 0, longer[j].At(0).code);
  }

  lemma {:induction false} RunGone(states: seq<State>, i: nat, j: nat, s: Structure)
    requires Run(states) && i <= j < |states| && Gone(states[i].shared, s)
    ensures Gone(states[j].shared, s)
    decreases j - i
  {
    if i < j {
      NextGone(states, i, s);
      RunGone(states, i + 1, j, s);
    }
  }

  lemma NextGone(states: seq<State>, i: nat, s: Structure)
    requires Run(states) && i + 1 < |states| && Gone(states[i].shared, s)
    ensures Gone(states[i + 1].shared, s)
  {
    assert NextAt(states, i);
    var t: Thread :| Step(states[i], t, states[i + 1]);
    if !Acquire(states[i], t, states[i + 1]) {
      var c: Code, e: Effect :| Moves(states[i], t, c, e) && states[i + 1] == Goto(states[i], t, c, Apply(states[i].shared, e));
      GoneStays(states[i].shared, e, s);
    }
  }

  // ---------- From MakeReadOnly to the end of the removal ----------

  /** The remover is past MakeReadOnly, another thread is opening the index, and no third one changes its handle set. */
  ghost predicate Racing(st: State, t: Thread, u: Thread, s: Structure) {
    && Removing(st.At(t).code, s) && OpeningOn(st.At(u).code, s)
    && (HandlesMutex(s) in st.owner ==> st.owner[HandlesMutex(s)] == t)
  }

  // How long a thread still holds the mutex of a handle whose structure is read-only.
  function Held(a: Activity): nat {
    if a.code.ModifyLock? then 4 else if a.code.ModifyGate? && a.waiting then 3 else if a.code.ModifyGate? then 2 else 1
  }

  predicate ShortHolder(c: Code) {
    c.CloseMark? || c.ModifyLock? || c.ModifyGate? || c.ModifyRefused? || c.ModifyReturn?
  }

  /** Once the structure is read-only, the thread that holds the handle's mutex is not working on the index. */
  lemma HolderIsShort(st: State, t: Thread, v: Thread, h: Handle)
    requires Inv(st) && Removing(st.At(t).code, h.home) && v != t
    requires st.At(v).Holds(HandleMutex(h))
    ensures ShortHolder(st.At(v).code) && st.At(v).code.h == h && (st.At(v).code.ModifyGate? ==> st.At(v).code.update)
    ensures st.At(v).waiting ==> st.At(v).code.ModifyGate?
    ensures st.shared.GateOf(h.home).readOnly
  {
    assert Local(st.shared, t, st.At(t).code) && Local(st.shared, v, st.At(v).code);
    assert st.shared.GateOf(h.home).Sound();
    assert Outer(st.At(t).code) == Some(ManagerMutex) && st.At(t).Holds(ManagerMutex);
    assert st.owner[ManagerMutex] == t;
    assert st.At(v).Holds(ManagerMutex) ==> v == t;
    assert !Registered(st.shared, h.home, Tid(v));
  }

  lemma ShortStep(sh: Shared, v: Thread, c: Code, c': Code, e: Effect)
    requires Work(sh, v, c, c', e) && ShortHolder(c) && sh.GateOf(c.h.home).readOnly
    ensures Apply(sh, e).handles == sh.handles
    ensures c.ModifyLock? ==> c'.ModifyGate?
    ensures !c.ModifyLock? ==> c'.ModifyRefused? || Outer(c') == None
    ensures c.ModifyRefused? ==> c' == Idle
  {
  }

  /** The mutex of a handle gets free without a step of the remover or of the opener. */
  lemma {:induction false} FreeHandle(run: seq<State>, h: Handle, t: Thread, u: Thread) returns (longer: seq<State>)
    requires Run(run) && Racing(Last(run), t, u, h.home)
    requires HandleMutex(h) in Last(run).owner && Last(run).owner[HandleMutex(h)] != t
    ensures Run(longer) && run <= longer && Racing(Last(longer), t, u, h.home)
    ensures Last(longer).At(t) == Last(run).At(t) && Last(longer).shared.handles == Last(run).shared.handles
    ensures HandleMutex(h) !in Last(longer).owner
    decreases Held(Last(run).At(Last(run).owner[HandleMutex(h)]))
  {
    RunInv(run, |run| - 1);
    var st, v := Last(run), Last(run).owner[HandleMutex(h)];
    assert st.At(v).Holds(HandleMutex(h));
    HolderIsShort(st, t, v, h);
    if st.At(v).waiting {
      longer := AtGateOf(run, h, t, u);
      longer := FreeHandle(longer, h, t, u);
    } else {
      longer := HolderSteps(run, h, t, u);
      if HandleMutex(h) in Last(longer).owner {
        longer := FreeHandle(longer, h, t, u);
      }
    }
  }

  // The transaction mutex gets free; its owner is none of the threads that matter here.
  lemma FreeGate(run: seq<State>, h: Handle, v: Thread, t: Thread, u: Thread) returns (longer: seq<State>)
    requires Run(run) && Racing(Last(run), t, u, h.home)
    requires Last(run).At(v).waiting && Last(run).At(v).code.ModifyGate?
    ensures Run(longer) && run <= longer && Racing(Last(longer), t, u, h.home)
    ensures Last(longer).At(t) == Last(run).At(t) && Last(longer).shared.handles == Last(run).shared.handles
    ensures Last(longer).At(v) == Last(run).At(v)
    ensures forall n: Mutex :: n in Last(run).owner && Last(run).owner[n] == v ==>
              n in Last(longer).owner && Last(longer).owner[n] == v
    ensures TransactionMutex(h.home) !in Last(longer).owner
  {
    var m := TransactionMutex(h.home);
    longer := run;
    if m in Last(run).owner {
      InnerOwner(run, m);
      longer := FreeInner(run, m, h.home, t, u);
    }
  }

  // The holder gets the transaction mutex that it waits for.
  lemma AtGateOf(run: seq<State>, h: Handle, t: Thread, u: Thread) returns (longer: seq<State>)
    requires Run(run) && Racing(Last(run), t, u, h.home)
    requires HandleMutex(h) in Last(run).owner && Last(run).owner[HandleMutex(h)] != t
    requires var a := Last(run).At(Last(run).owner[HandleMutex(h)]); a.waiting && a.code.ModifyGate? && a.code.h == h
    ensures Run(longer) && run <= longer && Racing(Last(longer), t, u, h.home)
    ensures Last(longer).At(t) == Last(run).At(t) && Last(longer).shared.handles == Last(run).shared.handles
    ensures HandleMutex(h) in Last(longer).owner && Last(longer).owner[HandleMutex(h)] == Last(run).owner[HandleMutex(h)]
    ensures var v := Last(run).owner[HandleMutex(h)]; Last(longer).At(v) == Activity(Last(run).At(v).code, false)
  {
    var v := Last(run).owner[HandleMutex(h)];
    longer := FreeGate(run, h, v, t, u);
    longer := Takes(longer, v);
  }

  // The holder makes a step, which is one of the few behind which it gives the mutex up.
  lemma HolderSteps(run: seq<State>, h: Handle, t: Thread, u: Thread) returns (longer: seq<State>)
    requires Run(run) && Racing(Last(run), t, u, h.home)
    requires HandleMutex(h) in Last(run).owner && Last(run).owner[HandleMutex(h)] != t
    requires !Last(run).At(Last(run).owner[HandleMutex(h)]).waiting
    ensures Run(longer) && run <= longer && Racing(Last(longer), t, u, h.home)
    ensures Last(longer).At(t) == Last(run).At(t) && Last(longer).shared.handles == Last(run).shared.handles
    ensures HandleMutex(h) in Last(longer).owner ==>
              var v := Last(run).owner[HandleMutex(h)];
              Last(longer).owner[HandleMutex(h)] == v && Held(Last(longer).At(v)) < Held(Last(run).At(v))
  {
    RunInv(run, |run| - 1);
    var st, v := Last(run), Last(run).owner[HandleMutex(h)];
    assert st.At(v).Holds(HandleMutex(h));
    HolderIsShort(st, t, v, h);
    var c, e := WorkIsTotal(st.shared, v, st.At(v).code);
    ShortStep(st.shared, v, st.At(v).code, c, e);
    longer := Does(run, v, c, e);
  }

  // ---------- The remover goes on alone ----------

  // The handles that the remover has still to look at, and how far it is with the current one.
  function Left(st: State, t: Thread, s: Structure): set<Handle>
    requires Removing(st.At(t).code, s)
  {
    var c := st.At(t).code;
    st.shared.HandlesOf(s) - c.done - (if c.RemoveMark? then {c.h} else {})
  }

  function Stage(a: Activity): nat {
    (if a.code.RemoveMark? then 4 else if a.code.RemoveUnregister? then 2 else 0) + if a.waiting then 1 else 0
  }

  // One step of the remover, or of those it waits for.
  ghost predicate Nearer(st: State, st': State, t: Thread, u: Thread, s: Structure)
    requires Removing(st.At(t).code, s)
  {
    || (Gone(st'.shared, s) && OpeningOn(st'.At(u).code, s))
    || (&& Racing(st', t, u, s)
        && (Left(st', t, s) < Left(st, t, s)
            || (Left(st', t, s) == Left(st, t, s) && Stage(st'.At(t)) < Stage(st.At(t)))))
  }

  lemma RemoverTakes(run: seq<State>, t: Thread, u: Thread, s: Structure) returns (longer: seq<State>)
    requires Run(run) && Racing(Last(run), t, u, s) && Last(run).At(t).waiting
    ensures Run(longer) && run <= longer && Nearer(Last(run), Last(longer), t, u, s)
  {
    RunInv(run, |run| - 1);
    assert Local(Last(run).shared, t, Last(run).At(t).code);
    var m := Entry(Last(run).At(t).code).value;
    longer := run;
    if m in Last(run).owner {
      assert !Last(run).At(t).Holds(m);
      longer := FreeHandle(run, Last(run).At(t).code.h, t, u);
    }
    longer := Takes(longer, t);
  }

  lemma RemoverMoves(sh: Shared, t: Thread, c: Code, c': Code, e: Effect, s: Structure)
    requires Structures(sh) && Local(sh, t, c) && Removing(c, s) && Work(sh, t, c, c', e)
    ensures Gone(Apply(sh, e), s) || Removing(c', s)
    ensures Removing(c', s) ==>
              var hs, hs' := sh.HandlesOf(s), Apply(sh, e).HandlesOf(s);
              && hs' <= hs
              && (c.RemoveHandles? ==> c'.RemoveMark? && c'.done == c.done && c'.h in hs && c'.h !in c.done && hs' == hs)
              && (c.RemoveMark? ==> !c'.RemoveMark? && c'.done == c.done + {c.h})
              && (c.RemoveUnregister? ==> c'.RemoveHandles? && c'.done == c.done)
  {
    if e.EraseStructure? {
      RemoverErases(sh, t, c, c', e, s);
    }
  }

  lemma RemoverSteps(run: seq<State>, t: Thread, u: Thread, s: Structure) returns (longer: seq<State>)
    requires Run(run) && Racing(Last(run), t, u, s) && !Last(run).At(t).waiting
    ensures Run(longer) && run <= longer && Nearer(Last(run), Last(longer), t, u, s)
  {
    RunInv(run, |run| - 1);
    var st := Last(run);
    assert Local(st.shared, t, st.At(t).code);
    var c, e := WorkIsTotal(st.shared, t, st.At(t).code);
    RemoverMoves(st.shared, t, st.At(t).code, c, e, s);
    longer := Does(run, t, c, e);
  }

  lemma {:induction false} RemovalFinishes(run: seq<State>, t: Thread, u: Thread, s: Structure) returns (longer: seq<State>)
    requires Run(run) && Racing(Last(run), t, u, s)
    ensures Run(longer) && run <= longer && Gone(Last(longer).shared, s) && OpeningOn(Last(longer).At(u).code, s)
    decreases Left(Last(run), t, s), Stage(Last(run).At(t))
  {
    if Last(run).At(t).waiting {
      longer := RemoverTakes(run, t, u, s);
    } else {
      longer := RemoverSteps(run, t, u, s);
    }
    if !(Gone(Last(longer).shared, s) && OpeningOn(Last(longer).At(u).code, s)) {
      longer := RemovalFinishes(longer, t, u, s);
    }
  }

  /**
   Deleting an index leaves no handle of it open, in whatever interleaving, if and only if no thread
   is opening the index when MakeReadOnly succeeds.
  */
  lemma DeletionClosesExactly(run: seq<State>, t: Thread, s: Structure)
    requires Run(run)
    requires var c := Last(run).At(t).code; c.RemoveHandles? && c.s == s && c.done == {}
    ensures (forall longer: seq<State> :: Run(longer) && run <= longer && Gone(Last(longer).shared, s) ==>
               NoneOpen(Last(longer).shared, s)) <==>
            Undisturbed(Last(run), s)
  {
    if Undisturbed(Last(run), s) {
      forall longer: seq<State> | Run(longer) && run <= longer && Gone(Last(longer).shared, s)
        ensures NoneOpen(Last(longer).shared, s)
      {
        assert longer[|run| - 1] == Last(run);
        RemovedHandlesStayClosed(longer, |run| - 1, |longer| - 1, t, s);
      }
    } else {
      var u: Thread :| OpeningOn(Last(run).At(u).code, s);
      var longer := Races(run, t, u, s);
      longer := RemovalFinishes(longer, t, u, s);
      longer := OpensLate(longer, u, s);
      assert run <= longer;
    }
  }

  // Whoever holds the mutex of the handle set gives it up.
  lemma Races(run: seq<State>, t: Thread, u: Thread, s: Structure) returns (longer: seq<State>)
    requires Run(run) && Removing(Last(run).At(t).code, s) && OpeningOn(Last(run).At(u).code, s)
    ensures Run(longer) && run <= longer && Racing(Last(longer), t, u, s)
  {
    longer := run;
    if HandlesMutex(s) in Last(run).owner && Last(run).owner[HandlesMutex(s)] != t {
      longer := FreeInner(run, HandlesMutex(s), s, t, u);
    }
  }
}
