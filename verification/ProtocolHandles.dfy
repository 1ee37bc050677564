/**
 Index handles in the protocol: the set that a structure keeps, against the handles that are open,
 and what becomes of the handles of an index that is deleted while others open it.
*/
module ProtocolHandles {
  import opened Interface
  import opened Protocol
  import opened ProtocolFacts
  import opened ProtocolInvariant

  /** The handle that a thread has created and not opened yet, or closed and not unregistered yet. */
  function Carries(c: Code): Option<Handle> {
    match c
    case OpenRegister(h) => Some(h)
    case OpenDatabase(h) => Some(h)
    case CloseUnregister(h) => Some(h)
    case RemoveUnregister(_, _, _, h) => Some(h)
    case _ => None
  }

  // The carried handle is in its structure's set.
  predicate Keeps(c: Code, h: Handle) {
    Carries(c) == Some(h) && !c.OpenRegister?
  }

  ghost predicate Kept(st: State, h: Handle) {
    exists t: Thread :: Keeps(st.At(t).code, h)
  }

  ghost predicate CarriedOnce(st: State) {
    forall t: Thread, u: Thread :: t != u && Carries(st.At(t).code).Some? ==> Carries(st.At(t).code) != Carries(st.At(u).code)
  }

  ghost predicate CarriedClosed(st: State) {
    forall t: Thread :: var h := Carries(st.At(t).code);
      h.Some? ==> h.value !in st.shared.open && h.value.id < st.shared.nextHandle
  }

  /**
   A structure keeps its open handles, and those on their way to and from being open.  Only one that
   is gone can keep others: those of an OpenIndex that failed because the database was gone too.
  */
  ghost predicate HandleInv(st: State) {
    && CarriedOnce(st) && CarriedClosed(st)
    && (forall h: Handle :: h in st.shared.open ==> h.id < st.shared.nextHandle)
    && (forall h: Handle :: h in st.shared.open || Kept(st, h) ==> h in st.shared.HandlesOf(h.home))
    && (forall h: Handle :: h in st.shared.HandlesOf(h.home) ==> h in st.shared.open || Kept(st, h) || Gone(st.shared, h.home))
  }

  // ---------- What a step does to handles ----------

  predicate OnHandles(e: Effect) {
    e.NewHandle? || e.SetHandles? || e.OpenHandle? || e.ShutHandle?
  }

  // OpenIndex fails: the handle stays in the set of its structure, which is gone.
  predicate Abandons(sh: Shared, c: Code) {
    c.OpenDatabase? && c.h.name !in sh.databases
  }

  /** The steps of a handle: created, registered, opened, closed, unregistered. */
  ghost predicate HandleMove(sh: Shared, c: Code, c': Code, e: Effect) {
    match e
    case NewHandle => Carries(c) == None && c'.OpenRegister? && c'.h.id == sh.nextHandle
    case SetHandles(s, hs) =>
      && Carries(c).Some? && s == Carries(c).value.home
      && if c.OpenRegister? then hs == sh.HandlesOf(s) + {c.h} && c' == OpenDatabase(c.h)
         else hs == sh.HandlesOf(s) - {Carries(c).value} && Carries(c') == None
    case OpenHandle(h) => c == OpenDatabase(h) && Carries(c') == None
    case ShutHandle(h) => Carries(c) == None && Keeps(c', h) && h in sh.open
    case _ => Carries(c') == None && (Carries(c).Some? ==> Abandons(sh, c))
  }

  lemma WorkMoves(sh: Shared, t: Thread, c: Code, c': Code, e: Effect)
    requires Work(sh, t, c, c', e)
    requires c.RemoveUnregister? ==> c.h.home == c.s
    ensures HandleMove(sh, c, c', e)
  {
    if Carries(c).Some? {
      CarrierMoves(sh, t, c, c', e);
    } else if c.OpenFind? || c.CloseMark? || c.RemoveMark? {
      TakerMoves(sh, t, c, c', e);
    } else {
      QuietMoves(sh, t, c, c', e);
    }
  }

  lemma CarrierMoves(sh: Shared, t: Thread, c: Code, c': Code, e: Effect)
    requires Work(sh, t, c, c', e) && Carries(c).Some?
    requires c.RemoveUnregister? ==> c.h.home == c.s
    ensures HandleMove(sh, c, c', e)
  {
  }

  lemma TakerMoves(sh: Shared, t: Thread, c: Code, c': Code, e: Effect)
    requires Work(sh, t, c, c', e) && (c.OpenFind? || c.CloseMark? || c.RemoveMark?)
    ensures HandleMove(sh, c, c', e)
  {
  }

  lemma QuietMoves(sh: Shared, t: Thread, c: Code, c': Code, e: Effect)
    requires Work(sh, t, c, c', e) && Carries(c) == None && !c.OpenFind? && !c.CloseMark? && !c.RemoveMark?
    ensures !OnHandles(e) && Carries(c') == None
  {
  }

  lemma OnlyOpenDatabase(sh: Shared, t: Thread, c: Code, c': Code, e: Effect)
    requires Work(sh, t, c, c', e) && e.OpenHandle?
    ensures c == OpenDatabase(e.h)
  {
  }

  lemma CallCarries(st: State, c: Code, e: Effect)
    requires Call(st, c, e)
    ensures Carries(c) == None && !OnHandles(e)
  {
  }

  lemma OtherEffects(sh: Shared, e: Effect)
    requires !OnHandles(e)
    ensures Apply(sh, e).open == sh.open && Apply(sh, e).handles == sh.handles && Apply(sh, e).nextHandle == sh.nextHandle
  {
  }

  lemma OpenAfter(sh: Shared, e: Effect)
    ensures var sh' := Apply(sh, e);
            && sh'.nextHandle == sh.nextHandle + (if e.NewHandle? then 1 else 0)
            && (forall h: Handle :: h in sh'.open <==> (h in sh.open && e != ShutHandle(h)) || e == OpenHandle(h))
  {
  }

  lemma HandlesAfter(sh: Shared, e: Effect, s: Structure)
    ensures Apply(sh, e).HandlesOf(s) == if e.SetHandles? && e.s == s then e.hs else sh.HandlesOf(s)
  {
  }

  /** Db::open fails only when the handle's structure is gone. */
  lemma AbandonsGone(sh: Shared, t: Thread, c: Code)
    requires Structures(sh) && Local(sh, t, c) && Abandons(sh, c)
    ensures Gone(sh, c.h.home)
  {
  }

  /** What membership of a handle in its structure's set means; `kept` says that some thread keeps it. */
  predicate Member(sh: Shared, h: Handle, kept: bool) {
    && (h in sh.open || kept ==> h in sh.HandlesOf(h.home))
    && (h in sh.HandlesOf(h.home) ==> h in sh.open || kept || Gone(sh, h.home))
  }

  /** A handle is in its structure's set for the same reason as before; `others` says that another thread keeps it. */
  lemma MoveMembership(sh: Shared, c: Code, c': Code, e: Effect, h: Handle, others: bool)
    requires HandleMove(sh, c, c', e)
    requires Member(sh, h, Keeps(c, h) || others)
    requires Carries(c) == Some(h) ==> !others && h !in sh.open
    requires Abandons(sh, c) ==> Gone(sh, c.h.home)
    ensures Member(Apply(sh, e), h, Keeps(c', h) || others)
  {
    OpenAfter(sh, e);
    HandlesAfter(sh, e, h.home);
    if Gone(sh, h.home) {
      GoneStays(sh, e, h.home);
    }
    if h in sh.HandlesOf(h.home) && !Gone(sh, h.home) && !Gone(Apply(sh, e), h.home) {
      assert h in sh.open || Keeps(c, h) || others;
    }
  }

  // ---------- The invariant over steps ----------

  ghost predicate OthersKeep(st: State, t: Thread, h: Handle) {
    exists u: Thread :: u != t && Keeps(st.At(u).code, h)
  }

  lemma KeptSplits(st: State, t: Thread, h: Handle)
    ensures Kept(st, h) <==> Keeps(st.At(t).code, h) || OthersKeep(st, t, h)
  {
  }

  lemma OthersStay(st: State, t: Thread, c: Code, sh: Shared, h: Handle)
    ensures OthersKeep(Goto(st, t, c, sh), t, h) <==> OthersKeep(st, t, h)
  {
    AtGoto(st, t, c, sh);
    var st' := Goto(st, t, c, sh);
    assert forall u: Thread :: u != t ==> (Keeps(st'.At(u).code, h) <==> Keeps(st.At(u).code, h));
  }

  lemma MoveCarried(st: State, st': State, t: Thread, e: Effect)
    requires CarriedOnce(st) && CarriedClosed(st)
    requires forall h: Handle :: h in st.shared.open ==> h.id < st.shared.nextHandle
    requires st'.shared == Apply(st.shared, e)
    requires forall u: Thread :: u != t ==> st'.At(u).code == st.At(u).code
    requires HandleMove(st.shared, st.At(t).code, st'.At(t).code, e)
    ensures CarriedOnce(st') && CarriedClosed(st')
    ensures forall h: Handle :: h in st'.shared.open ==> h.id < st'.shared.nextHandle
  {
    OpenAfter(st.shared, e);
    forall u: Thread
      ensures var h := Carries(st'.At(u).code); h.Some? ==> h.value !in st'.shared.open && h.value.id < st'.shared.nextHandle
      ensures u != t && Carries(st'.At(t).code).Some? ==> Carries(st'.At(u).code) != Carries(st'.At(t).code)
    {
    }
  }

  lemma WorkMember(st: State, t: Thread, c: Code, e: Effect, h: Handle)
    requires HandleInv(st) && HandleMove(st.shared, st.At(t).code, c, e)
    requires Abandons(st.shared, st.At(t).code) ==> Gone(st.shared, st.At(t).code.h.home)
    ensures var sh' := Apply(st.shared, e); Member(sh', h, Kept(Goto(st, t, c, sh'), h))
  {
    var sh' := Apply(st.shared, e);
    var st' := Goto(st, t, c, sh');
    AtGoto(st, t, c, sh');
    KeptSplits(st, t, h);
    KeptSplits(st', t, h);
    OthersStay(st, t, c, sh', h);
    MoveMembership(st.shared, st.At(t).code, c, e, h, OthersKeep(st, t, h));
  }

  lemma MoveHandles(st: State, t: Thread, c: Code, e: Effect)
    requires HandleInv(st) && HandleMove(st.shared, st.At(t).code, c, e)
    requires Abandons(st.shared, st.At(t).code) ==> Gone(st.shared, st.At(t).code.h.home)
    ensures HandleInv(Goto(st, t, c, Apply(st.shared, e)))
  {
    var sh' := Apply(st.shared, e);
    var st' := Goto(st, t, c, sh');
    AtGoto(st, t, c, sh');
    MoveCarried(st, st', t, e);
    forall h: Handle
      ensures Member(sh', h, Kept(st', h))
    {
      WorkMember(st, t, c, e, h);
    }
  }

  lemma WorkHandles(st: State, t: Thread, c: Code, e: Effect)
    requires Inv(st) && HandleInv(st) && Work(st.shared, t, st.At(t).code, c, e)
    ensures HandleInv(Goto(st, t, c, Apply(st.shared, e)))
  {
    assert Local(st.shared, t, st.At(t).code);
    WorkMoves(st.shared, t, st.At(t).code, c, e);
    if Abandons(st.shared, st.At(t).code) {
      AbandonsGone(st.shared, t, st.At(t).code);
    }
    MoveHandles(st, t, c, e);
  }

  lemma CallHandles(st: State, t: Thread, c: Code, e: Effect)
    requires HandleInv(st) && st.At(t).code == Idle && Call(st, c, e)
    ensures HandleInv(Goto(st, t, c, Apply(st.shared, e)))
  {
    var sh' := Apply(st.shared, e);
    var st' := Goto(st, t, c, sh');
    AtGoto(st, t, c, sh');
    CallCarries(st, c, e);
    OtherEffects(st.shared, e);
    forall h: Handle
      ensures Member(sh', h, Kept(st', h))
    {
      KeptSplits(st, t, h);
      KeptSplits(st', t, h);
      OthersStay(st, t, c, sh', h);
      assert Member(st.shared, h, Kept(st, h));
      HandlesAfter(st.shared, e, h.home);
      if Gone(st.shared, h.home) {
        GoneStays(st.shared, e, h.home);
      }
    }
  }

  lemma StepHandles(st: State, t: Thread, st': State)
    requires Inv(st) && HandleInv(st) && Step(st, t, st')
    ensures HandleInv(st')
  {
    if Acquire(st, t, st') {
      assert forall u: Thread :: st'.At(u).code == st.At(u).code;
      assert forall h: Handle :: Kept(st', h) <==> Kept(st, h);
    } else {
      var c: Code, e: Effect :| Moves(st, t, c, e) && st' == Goto(st, t, c, Apply(st.shared, e));
      if st.At(t).code == Idle {
        CallHandles(st, t, c, e);
      } else {
        WorkHandles(st, t, c, e);
      }
    }
  }

  lemma InitHandles(st: State)
    requires Init(st)
    ensures HandleInv(st)
  {
    assert forall h: Handle :: !Kept(st, h);
  }

  lemma NextHandles(st: State, st': State)
    requires Inv(st) && HandleInv(st) && Next(st, st')
    ensures HandleInv(st')
  {
    var t: Thread :| Step(st, t, st');
    StepHandles(st, t, st');
  }

  lemma {:induction false} RunHandles(states: seq<State>, i: nat)
    requires Run(states) && i < |states|
    ensures HandleInv(states[i])
  {
    if i == 0 {
      InitHandles(states[0]);
    } else {
      RunHandles(states, i - 1);
      RunInv(states, i - 1);
      assert NextAt(states, i - 1);
      NextHandles(states[i - 1], states[i]);
    }
  }

  /** Between calls the set of every registered structure is exactly the set of its open handles. */
  lemma QuietHandlesAreOpen(states: seq<State>, i: nat, s: Structure)
    requires Run(states) && i < |states|
    requires forall t: Thread :: states[i].At(t).code == Idle
    requires s in states[i].shared.indices.Values
    ensures forall h: Handle :: h in states[i].shared.HandlesOf(s) <==> h in states[i].shared.open && h.home == s
  {
    RunInv(states, i);
    RunHandles(states, i);
    assert forall h: Handle :: !Kept(states[i], h);
    assert Structures(states[i].shared);
  }
}
