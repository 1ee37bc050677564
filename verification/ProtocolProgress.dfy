/** Some thread can always go on, and how to continue a run by chosen steps. */
module ProtocolProgress {
  import opened Interface
  import opened Protocol
  import opened ProtocolFacts
  import opened ProtocolInvariant
  import opened ProtocolSafety

  // ---------- Progress ----------

  predicate Modifies(c: Code) {
    c.InsertGate? || c.InsertPut? || c.InsertCompare? || c.ModifyLock? || c.ModifyGate? || c.ModifyRefused? || c.ModifyRun?
    || c.ModifyCompare? || c.ModifyParent? || c.ModifyEnd? || c.ModifyReturn?
  }

  // A step of a record operation.
  lemma NextModify(sh: Shared, t: Thread, c: Code) returns (c': Code, e: Effect)
    requires Modifies(c)
    ensures Work(sh, t, c, c', e)
  {
    match c
    case InsertGate(h, tx) => c', e := if sh.GateOf(h.home).readOnly then Idle else InsertPut(h, Some(tx)), Start(h.home, tx);
    case InsertPut(_, _) => c', e := Idle, Nothing;
    case InsertCompare(h, tx) => c', e := InsertPut(h, tx), Nothing;
    case ModifyLock(h, tx) => c', e := ModifyGate(true, h, tx), Nothing;
    case ModifyGate(u, h, tx) =>
      c' := if !sh.GateOf(h.home).readOnly then ModifyRun(u, h, tx, false) else if u then ModifyRefused(h) else Idle;
      e := Start(h.home, Tid(t));
    case ModifyRefused(_) => c', e := Idle, Nothing;
    case ModifyRun(u, h, tx, _) => c', e := ModifyEnd(u, h), CommitNested(t, tx);
    case ModifyCompare(u, h, tx, parented) => c', e := ModifyRun(u, h, tx, parented), Nothing;
    case ModifyParent(u, h, tx) => c', e := ModifyRun(u, h, Some(tx), true), Start(h.home, tx);
    case ModifyEnd(u, h) => c', e := if u then ModifyReturn(h) else Idle, End(h.home, Tid(t));
    case ModifyReturn(_) => c', e := Idle, Nothing;
  }

  // The step of any other code, when its loop, if it has one, is over.
  lemma NextOther(sh: Shared, t: Thread, c: Code) returns (c': Code, e: Effect)
    requires c != Idle && !Modifies(c)
    requires c.ResolveNext? ==> c.todo == {}
    requires c.RemoveHandles? ==> sh.HandlesOf(c.s) <= c.done
    ensures Work(sh, t, c, c', e)
  {
    match c
    case CreateInsert(name) => c', e := Idle, InsertStructure(name);
    case OpenFind(name) =>
      if name in sh.indices {
        c', e := OpenRegister(Handle(sh.nextHandle, name, sh.indices[name])), NewHandle;
      } else {
        c', e := Idle, Nothing;
      }
    case OpenRegister(h) => c', e := OpenDatabase(h), SetHandles(h.home, sh.HandlesOf(h.home) + {h});
    case OpenDatabase(h) => c', e := Idle, if h.name in sh.databases then OpenHandle(h) else Nothing;
    case CloseMark(h) => c', e := if h in sh.open then CloseUnregister(h) else Idle, if h in sh.open then ShutHandle(h) else Nothing;
    case CloseUnregister(h) => c', e := Idle, SetHandles(h.home, sh.HandlesOf(h.home) - {h});
    case ReadCompare => c', e := Idle, Nothing;
    case ResolveClose(tx) => c', e := ResolveNext(tx, sh.indices.Values), Nothing;
    case ResolveNext(tx, _) => c', e := Idle, Finish(tx);
    case ResolveGate(tx, todo, s) => c', e := ResolveNext(tx, todo), End(s, tx);
    case RemoveFind(name) => c', e := if name in sh.indices then RemoveGate(name, sh.indices[name]) else Idle, Nothing;
    case RemoveGate(name, s) => c', e := if sh.GateOf(s).transactions == {} then RemoveHandles(name, s, {}) else Idle, Freeze(s);
    case RemoveHandles(name, _, _) => c', e := RemoveDatabase(name), EraseStructure(name);
    case RemoveMark(name, s, done, h) =>
      if h in sh.open {
        c', e := RemoveUnregister(name, s, done + {h}, h), ShutHandle(h);
      } else {
        c', e := RemoveHandles(name, s, done + {h}), Nothing;
      }
    case RemoveUnregister(name, s, done, h) => c', e := RemoveHandles(name, s, done), SetHandles(s, sh.HandlesOf(s) - {h});
    case RemoveDatabase(name) => c', e := Idle, DropDatabase(name);
  }

  /** Whatever a thread is doing, there is a next step for it once it has its mutex. */
  lemma WorkIsTotal(sh: Shared, t: Thread, c: Code) returns (c': Code, e: Effect)
    requires c != Idle
    ensures Work(sh, t, c, c', e)
  {
    if c.ResolveNext? && c.todo != {} {
      var s: Structure :| s in c.todo;
      c', e := ResolveGate(c.tx, c.todo - {s}, s), Nothing;
    } else if c.RemoveHandles? && !(sh.HandlesOf(c.s) <= c.done) {
      var h: Handle :| h in sh.HandlesOf(c.s) && h !in c.done;
      c', e := RemoveMark(c.name, c.s, c.done, h), Nothing;
    } else if Modifies(c) {
      c', e := NextModify(sh, t, c);
    } else {
      c', e := NextOther(sh, t, c);
    }
  }

  ghost predicate CanMove(st: State, t: Thread) {
    st.At(t).code != Idle && exists st': State :: Step(st, t, st')
  }

  lemma ReadyMoves(st: State, t: Thread)
    requires st.At(t).code != Idle && !st.At(t).waiting
    ensures CanMove(st, t)
  {
    var c, e := WorkIsTotal(st.shared, t, st.At(t).code);
    var st' := Goto(st, t, c, Apply(st.shared, e));
    assert Moves(st, t, c, e);
    assert Step(st, t, st');
  }

  lemma FreeMoves(st: State, t: Thread)
    requires st.At(t).waiting && Entry(st.At(t).code).Some? && Entry(st.At(t).code).value !in st.owner
    ensures CanMove(st, t)
  {
    var a := st.At(t);
    var st' := State(st.owner[Entry(a.code).value := t], st.threads[t := Activity(a.code, false)], st.shared);
    assert Step(st, t, st');
  }

  // Behind every thread that is in a call there is one that can go on, along the mutexes it waits for.
  lemma {:induction false} SomeoneMoves(st: State, t: Thread) returns (u: Thread)
    requires Inv(st) && st.At(t).code != Idle
    ensures CanMove(st, u)
    decreases Rank(st.At(t))
  {
    if !st.At(t).waiting {
      ReadyMoves(st, t);
      return t;
    }
    var m := Entry(st.At(t).code).value;
    if m !in st.owner {
      FreeMoves(st, t);
      return t;
    }
    var v := st.owner[m];
    assert st.At(v).Holds(m) && st.At(t).Wants(m);
    WaitingDescends(st, t, v);
    u := SomeoneMoves(st, v);
  }

  /** In every state of every run in which some call has not returned, a thread that is in a call can go on. */
  lemma Progress(states: seq<State>, i: nat, t: Thread)
    requires Run(states) && i < |states|
    requires states[i].At(t).code != Idle
    ensures exists u: Thread :: CanMove(states[i], u)
  {
    RunInv(states, i);
    var u := SomeoneMoves(states[i], t);
  }

  // ---------- Continuing a run ----------

  function Last(states: seq<State>): State
    requires |states| > 0
  {
    states[|states| - 1]
  }

  lemma Longer(states: seq<State>, st: State)
    requires Run(states) && Next(Last(states), st)
    ensures Run(states + [st])
  {
    var longer := states + [st];
    forall i: nat | i < |longer| - 1
      ensures NextAt(longer, i)
    {
      assert i < |states| - 1 ==> NextAt(states, i);
    }
  }

  lemma AfterGoto(st: State, t: Thread, c: Code, sh: Shared)
    ensures var st' := Goto(st, t, c, sh);
            && st'.shared == sh && st'.At(t) == Activity(c, Entry(c).Some?)
            && (forall u: Thread :: u != t ==> st'.At(u) == st.At(u))
            && (forall m: Mutex :: m in st'.owner <==>
                  m in st.owner && (st.owner[m] == t ==> Activity(c, Entry(c).Some?).Holds(m)))
            && (forall m: Mutex :: m in st'.owner ==> st'.owner[m] == st.owner[m])
  {
  }

  // A call, or a step behind the mutex that it needs.
  lemma Does(states: seq<State>, t: Thread, c: Code, e: Effect) returns (longer: seq<State>)
    requires Run(states) && Moves(Last(states), t, c, e)
    ensures Run(longer) && states <= longer && Last(longer).shared == Apply(Last(states).shared, e)
    ensures Last(longer).At(t) == Activity(c, Entry(c).Some?)
    ensures forall u: Thread :: u != t ==> Last(longer).At(u) == Last(states).At(u)
    ensures forall m: Mutex :: m in Last(longer).owner <==>
              m in Last(states).owner && (Last(states).owner[m] == t ==> Activity(c, Entry(c).Some?).Holds(m))
    ensures forall m: Mutex :: m in Last(longer).owner ==> Last(longer).owner[m] == Last(states).owner[m]
  {
    var sh' := Apply(Last(states).shared, e);
    var st' := Goto(Last(states), t, c, sh');
    AfterGoto(Last(states), t, c, sh');
    assert Step(Last(states), t, st');
    Longer(states, st');
    longer := states + [st'];
  }

  // The mutex that the thread waits for is free.
  lemma Takes(states: seq<State>, t: Thread) returns (longer: seq<State>)
    requires Run(states)
    requires Last(states).At(t).waiting && Entry(Last(states).At(t).code).Some?
    requires Entry(Last(states).At(t).code).value !in Last(states).owner
    ensures Run(longer) && states <= longer && Last(longer).shared == Last(states).shared
    ensures Last(longer).At(t) == Activity(Last(states).At(t).code, false)
    ensures forall u: Thread :: u != t ==> Last(longer).At(u) == Last(states).At(u)
    ensures Last(longer).owner == Last(states).owner[Entry(Last(states).At(t).code).value := t]
  {
    var a := Last(states).At(t);
    var st' := State(Last(states).owner[Entry(a.code).value := t],
                     Last(states).threads[t := Activity(a.code, false)], Last(states).shared);
    assert Step(Last(states), t, st');
    Longer(states, st');
    longer := states + [st'];
  }
}
