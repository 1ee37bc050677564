/** What becomes of the handles of an index that is deleted while other threads open and close handles. */
module ProtocolRemoval {
  import opened Interface
  import opened Protocol
  import opened ProtocolFacts
  import opened ProtocolInvariant
  import opened ProtocolHandles

  /** The thread has found the structure and its new handle is not open yet. */
  predicate OpeningOn(c: Code, s: Structure) {
    (c.OpenRegister? || c.OpenDatabase?) && c.h.home == s
  }

  ghost predicate Undisturbed(st: State, s: Structure) {
    forall u: Thread :: !OpeningOn(st.At(u).code, s)
  }

  ghost predicate NoneOpen(sh: Shared, s: Structure) {
    forall h: Handle :: h in sh.open ==> h.home != s
  }

  /** The thread is in IndexManager::Remove, past MakeReadOnly. */
  predicate Removing(c: Code, s: Structure) {
    (c.RemoveHandles? || c.RemoveMark? || c.RemoveUnregister?) && c.s == s
  }

  ghost predicate DoneClosed(sh: Shared, c: Code, s: Structure)
    requires Removing(c, s)
  {
    forall h: Handle :: h in c.done ==> h !in sh.open && h.home == s
  }

  /** The two phases of an undisturbed removal. */
  ghost predicate Phase(st: State, t: Thread, s: Structure) {
    && Undisturbed(st, s)
    && ((Removing(st.At(t).code, s) && DoneClosed(st.shared, st.At(t).code, s))
        || (Gone(st.shared, s) && NoneOpen(st.shared, s)))
  }

  // ---------- No thread can begin to open a handle ----------

  lemma WorkOpening(sh: Shared, u: Thread, c: Code, c': Code, e: Effect, s: Structure)
    requires Work(sh, u, c, c', e) && OpeningOn(c', s)
    ensures OpeningOn(c, s) || (c.OpenFind? && s in sh.indices.Values)
  {
  }

  lemma CallOpening(st: State, c: Code, e: Effect, s: Structure)
    requires Call(st, c, e)
    ensures !OpeningOn(c, s) && !Removing(c, s)
  {
  }

  /** Remove keeps the manager's mutex, so no other thread can be in Find. */
  lemma RemovingExcludesFind(st: State, t: Thread, u: Thread, s: Structure)
    requires Inv(st) && Removing(st.At(t).code, s)
    ensures !(st.At(u).code.OpenFind? && !st.At(u).waiting)
  {
    assert Outer(st.At(t).code) == Some(ManagerMutex) && st.At(t).Holds(ManagerMutex);
    assert ManagerMutex in st.owner && st.owner[ManagerMutex] == t;
    assert st.At(u).Holds(ManagerMutex) ==> u == t;
  }

  lemma WorkUndisturbed(st: State, t: Thread, u: Thread, c: Code, e: Effect, s: Structure)
    requires Inv(st) && Phase(st, t, s)
    requires !st.At(u).waiting && Work(st.shared, u, st.At(u).code, c, e)
    ensures Undisturbed(Goto(st, u, c, Apply(st.shared, e)), s)
  {
    AtGoto(st, u, c, Apply(st.shared, e));
    if OpeningOn(c, s) {
      WorkOpening(st.shared, u, st.At(u).code, c, e, s);
      if Removing(st.At(t).code, s) {
        RemovingExcludesFind(st, t, u, s);
      }
    }
  }

  // ---------- Handles that were closed stay closed ----------

  lemma WorkOpens(st: State, u: Thread, c: Code, e: Effect, s: Structure, h: Handle)
    requires Undisturbed(st, s) && Work(st.shared, u, st.At(u).code, c, e)
    requires h.home == s && h in Apply(st.shared, e).open
    ensures h in st.shared.open
  {
    OpenAfter(st.shared, e);
    if e == OpenHandle(h) {
      OnlyOpenDatabase(st.shared, u, st.At(u).code, c, e);
      assert OpeningOn(st.At(u).code, s);
    }
  }

  lemma AllClosed(st: State, t: Thread, s: Structure)
    requires HandleInv(st) && Removing(st.At(t).code, s) && DoneClosed(st.shared, st.At(t).code, s)
    requires st.shared.HandlesOf(s) <= st.At(t).code.done
    ensures NoneOpen(st.shared, s)
  {
    forall h: Handle | h in st.shared.open
      ensures h.home != s
    {
      assert h in st.shared.HandlesOf(h.home);
    }
  }

  // With every handle seen, the remover unregisters the structure, which no other name refers to.
  lemma RemoverErases(sh: Shared, t: Thread, c: Code, c': Code, e: Effect, s: Structure)
    requires Structures(sh) && Local(sh, t, c) && Removing(c, s) && Work(sh, t, c, c', e) && e.EraseStructure?
    ensures sh.HandlesOf(s) <= c.done
    ensures Gone(Apply(sh, e), s) && Apply(sh, e).open == sh.open
  {
  }

  lemma RemoverCloses(sh: Shared, t: Thread, c: Code, c': Code, e: Effect, s: Structure)
    requires Structures(sh) && Local(sh, t, c) && Removing(c, s) && Work(sh, t, c, c', e) && !e.EraseStructure?
    requires DoneClosed(sh, c, s)
    ensures Removing(c', s) && DoneClosed(Apply(sh, e), c', s)
  {
    OpenAfter(sh, e);
  }

  /** The remover's own step closes one more handle, or finds all closed and unregisters the structure. */
  lemma RemoverStep(st: State, t: Thread, c: Code, e: Effect, s: Structure)
    requires Inv(st) && HandleInv(st)
    requires Removing(st.At(t).code, s) && DoneClosed(st.shared, st.At(t).code, s)
    requires Work(st.shared, t, st.At(t).code, c, e)
    ensures var sh' := Apply(st.shared, e);
            (Removing(c, s) && DoneClosed(sh', c, s)) || (Gone(sh', s) && NoneOpen(sh', s))
  {
    assert Local(st.shared, t, st.At(t).code);
    if e.EraseStructure? {
      RemoverErases(st.shared, t, st.At(t).code, c, e, s);
      AllClosed(st, t, s);
    } else {
      RemoverCloses(st.shared, t, st.At(t).code, c, e, s);
    }
  }

  lemma GonePhase(st: State, u: Thread, c: Code, e: Effect, s: Structure)
    requires Undisturbed(st, s) && Gone(st.shared, s) && NoneOpen(st.shared, s)
    requires Work(st.shared, u, st.At(u).code, c, e)
    ensures Gone(Apply(st.shared, e), s) && NoneOpen(Apply(st.shared, e), s)
  {
    GoneStays(st.shared, e, s);
    forall h: Handle | h in Apply(st.shared, e).open
      ensures h.home != s
    {
      if h.home == s {
        WorkOpens(st, u, c, e, s, h);
      }
    }
  }

  lemma OtherStep(st: State, u: Thread, c: Code, e: Effect, s: Structure, mine: Code)
    requires Undisturbed(st, s) && Removing(mine, s) && DoneClosed(st.shared, mine, s)
    requires Work(st.shared, u, st.At(u).code, c, e)
    ensures DoneClosed(Apply(st.shared, e), mine, s)
  {
    forall h: Handle | h in mine.done
      ensures h !in Apply(st.shared, e).open
    {
      if h in Apply(st.shared, e).open {
        WorkOpens(st, u, c, e, s, h);
      }
    }
  }

  lemma WorkPhase(st: State, t: Thread, u: Thread, c: Code, e: Effect, s: Structure)
    requires Inv(st) && HandleInv(st) && Phase(st, t, s)
    requires !st.At(u).waiting && Work(st.shared, u, st.At(u).code, c, e)
    ensures Phase(Goto(st, u, c, Apply(st.shared, e)), t, s)
  {
    WorkUndisturbed(st, t, u, c, e, s);
    AtGoto(st, u, c, Apply(st.shared, e));
    if Gone(st.shared, s) && NoneOpen(st.shared, s) {
      GonePhase(st, u, c, e, s);
    } else if u == t {
      RemoverStep(st, t, c, e, s);
    } else {
      OtherStep(st, u, c, e, s, st.At(t).code);
    }
  }

  lemma CallPhase(st: State, t: Thread, u: Thread, c: Code, e: Effect, s: Structure)
    requires Phase(st, t, s) && st.At(u).code == Idle && Call(st, c, e)
    ensures Phase(Goto(st, u, c, Apply(st.shared, e)), t, s)
  {
    AtGoto(st, u, c, Apply(st.shared, e));
    CallOpening(st, c, e, s);
    CallCarries(st, c, e);
    OtherEffects(st.shared, e);
  }

  lemma StepPhase(st: State, t: Thread, u: Thread, st': State, s: Structure)
    requires Inv(st) && HandleInv(st) && Phase(st, t, s) && Step(st, u, st')
    ensures Phase(st', t, s)
  {
    if Acquire(st, u, st') {
      assert forall v: Thread :: st'.At(v).code == st.At(v).code;
    } else {
      var c: Code, e: Effect :| Moves(st, u, c, e) && st' == Goto(st, u, c, Apply(st.shared, e));
      if st.At(u).code == Idle {
        CallPhase(st, t, u, c, e, s);
      } else {
        WorkPhase(st, t, u, c, e, s);
      }
    }
  }

  lemma NextPhase(states: seq<State>, i: nat, t: Thread, s: Structure)
    requires Run(states) && i + 1 < |states|
    requires Phase(states[i], t, s)
    ensures Phase(states[i + 1], t, s)
  {
    RunInv(states, i);
    RunHandles(states, i);
    assert NextAt(states, i);
    var u: Thread :| Step(states[i], u, states[i + 1]);
    StepPhase(states[i], t, u, states[i + 1], s);
  }

  lemma {:induction false} RunPhase(states: seq<State>, i: nat, j: nat, t: Thread, s: Structure)
    requires Run(states) && i <= j < |states|
    requires Phase(states[i], t, s)
    ensures Phase(states[j], t, s)
    decreases j - i
  {
    if i < j {
      NextPhase(states, i, t, s);
      RunPhase(states, i + 1, j, t, s);
    }
  }

  /**
   If nobody is opening a handle of the index when its deletion passes MakeReadOnly, then from the
   moment it is unregistered all its handles are closed, and they stay closed for ever.
  */
  lemma RemovedHandlesStayClosed(states: seq<State>, i: nat, j: nat, t: Thread, s: Structure)
    requires Run(states) && i <= j < |states|
    requires states[i].At(t).code.RemoveHandles? && states[i].At(t).code.s == s && states[i].At(t).code.done == {}
    requires Undisturbed(states[i], s)
    requires s !in states[j].shared.indices.Values
    ensures NoneOpen(states[j].shared, s)
  {
    RunPhase(states, i, j, t, s);
    RunInv(states, j);
    assert Local(states[j].shared, t, states[j].At(t).code);
  }
}
