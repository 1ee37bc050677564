/** Runs in which calls leave changes behind, and what becomes of them: that the safety of deletion is not void. */
module ProtocolChanges {
  import opened Interface
  import opened Gate
  import opened Protocol
  import opened ProtocolFacts
  import opened ProtocolInvariant
  import opened ProtocolSafety
  import opened ProtocolProgress
  import opened ProtocolDeletion

  // The transaction has an unresolved change on the structure, and is registered there.
  ghost predicate Outstanding(sh: Shared, s: Structure, x: Txn) {
    (s, x) in sh.changes && x in sh.GateOf(s).transactions && !sh.GateOf(s).readOnly
  }

  lemma ChangeIsOutstanding(run: seq<State>, s: Structure, x: Txn)
    requires Run(run) && (s, x) in Last(run).shared.changes
    ensures Outstanding(Last(run).shared, s, x)
  {
    ChangesAreOwned(run, |run| - 1, s, x);
  }

  // ---------- Insert ----------

  /** An InsertRecord under a transaction can store its record and return, and the change is outstanding. */
  lemma InsertLeavesChange(run: seq<State>, t: Thread) returns (longer: seq<State>)
    requires Run(run)
    requires var c := Last(run).At(t).code; c.InsertPut? && c.parent.Some?
    ensures Run(longer) && run <= longer && Last(longer).At(t) == Activity(Idle, false)
    ensures forall u: Thread :: u != t ==> Last(longer).At(u) == Last(run).At(u)
    ensures var c := Last(run).At(t).code; Outstanding(Last(longer).shared, c.h.home, c.parent.value)
  {
    RunInv(run, |run| - 1);
    var h, x := Last(run).At(t).code.h, Last(run).At(t).code.parent.value;
    assert Entry(Last(run).At(t).code) == None;
    longer := Does(run, t, Idle, Change(h.home, x));
    ChangeIsOutstanding(longer, h.home, x);
  }

  // ---------- Update and Delete ----------

  /** A put or del under the nested transaction leaves a change that this transaction owns. */
  lemma ModifyLeavesChange(run: seq<State>, t: Thread) returns (longer: seq<State>)
    requires Run(run) && Last(run).At(t).code.ModifyRun?
    ensures Run(longer) && run <= longer
    ensures forall u: Thread :: u != t ==> Last(longer).At(u) == Last(run).At(u)
    ensures var c := Last(run).At(t).code;
            && Outstanding(Last(longer).shared, c.h.home, Tid(t))
            && Last(longer).At(t) == if c.parent.Some? && !c.parented then Activity(ModifyParent(c.update, c.h, c.parent.value), true)
                                     else Activity(c, false)
  {
    RunInv(run, |run| - 1);
    var c := Last(run).At(t).code;
    assert Entry(c) == None;
    longer := Does(run, t, if c.parent.Some? && !c.parented then ModifyParent(c.update, c.h, c.parent.value) else c,
                   Change(c.h.home, Tid(t)));
    ChangeIsOutstanding(longer, c.h.home, Tid(t));
  }

  // A thread that waits for the gate of a structure gets it, at most after one step of the owner.
  lemma GetsGate(run: seq<State>, t: Thread, s: Structure) returns (longer: seq<State>)
    requires Run(run) && Last(run).At(t).waiting && Entry(Last(run).At(t).code) == Some(TransactionMutex(s))
    ensures Run(longer) && run <= longer && Last(longer).At(t) == Activity(Last(run).At(t).code, false)
    ensures OnlyGates(Last(run).shared, Last(longer).shared)
  {
    longer := run;
    var m := TransactionMutex(s);
    if m in Last(run).owner {
      InnerOwner(run, m);
      longer := FreeInner(run, m, s, t, t);
    }
    longer := Takes(longer, t);
  }

  // The parent is registered behind the first change.
  lemma RegistersParent(run: seq<State>, t: Thread) returns (longer: seq<State>)
    requires Run(run) && Last(run).At(t).code.ModifyParent? && Last(run).At(t).waiting
    ensures Run(longer) && run <= longer
    ensures var c := Last(run).At(t).code; Last(longer).At(t) == Activity(ModifyRun(c.update, c.h, Some(c.tx), true), false)
    ensures Last(longer).shared.changes == Last(run).shared.changes
  {
    var c := Last(run).At(t).code;
    longer := GetsGate(run, t, c.h.home);
    longer := Does(longer, t, ModifyRun(c.update, c.h, Some(c.tx), true), Start(c.h.home, c.tx));
  }

  // Behind the commit: the nested transaction is taken off, and Update gives its handle up.
  lemma EndsNested(run: seq<State>, t: Thread) returns (longer: seq<State>)
    requires Run(run) && Last(run).At(t).code.ModifyEnd? && Last(run).At(t).waiting
    ensures Run(longer) && run <= longer && Last(longer).At(t) == Activity(Idle, false)
    ensures Last(longer).shared.changes == Last(run).shared.changes
  {
    var c := Last(run).At(t).code;
    longer := GetsGate(run, t, c.h.home);
    longer := Does(longer, t, if c.update then ModifyReturn(c.h) else Idle, End(c.h.home, Tid(t)));
    if c.update {
      longer := Does(longer, t, Idle, Nothing);
    }
  }

  // From commit to the return of the call.
  lemma CommitsNested(run: seq<State>, t: Thread) returns (longer: seq<State>)
    requires Run(run) && Last(run).At(t).code.ModifyRun? && !Last(run).At(t).waiting
    ensures Run(longer) && run <= longer && Last(longer).At(t) == Activity(Idle, false)
    ensures Last(longer).shared.changes == HandOver(Last(run).shared.changes, t, Last(run).At(t).code.parent)
  {
    var c := Last(run).At(t).code;
    longer := Does(run, t, ModifyEnd(c.update, c.h), CommitNested(t, c.parent));
    longer := EndsNested(longer, t);
  }

  // The change, with the parent registered.
  lemma ModifiesUnderParent(run: seq<State>, t: Thread) returns (longer: seq<State>)
    requires Run(run)
    requires var c := Last(run).At(t).code; c.ModifyRun? && c.parent.Some?
    ensures Run(longer) && run <= longer
    ensures var c := Last(run).At(t).code;
            && (c.h.home, Tid(t)) in Last(longer).shared.changes
            && Last(longer).At(t) == Activity(ModifyRun(c.update, c.h, c.parent, true), false)
  {
    var c := Last(run).At(t).code;
    longer := ModifyLeavesChange(run, t);
    if !c.parented {
      longer := RegistersParent(longer, t);
    }
  }

  /** An UpdateRecord or DeleteRecord under a transaction can change the index and return; the parent owns the change then. */
  lemma ModifyHandsOver(run: seq<State>, t: Thread) returns (longer: seq<State>)
    requires Run(run)
    requires var c := Last(run).At(t).code; c.ModifyRun? && c.parent.Some?
    ensures Run(longer) && run <= longer && Last(longer).At(t) == Activity(Idle, false)
    ensures var c := Last(run).At(t).code;
            && Outstanding(Last(longer).shared, c.h.home, c.parent.value)
            && forall s: Structure :: (s, Tid(t)) !in Last(longer).shared.changes && Tid(t) !in Last(longer).shared.GateOf(s).transactions
  {
    var c := Last(run).At(t).code;
    longer := ModifiesUnderParent(run, t);
    ghost var changes := Last(longer).shared.changes;
    longer := CommitsNested(longer, t);
    Inherited(changes, t, c.h.home, c.parent.value);
    HandedOver(longer, t, c.h.home, c.parent.value);
  }

  lemma Inherited(changes: set<(Structure, Txn)>, t: Thread, s: Structure, x: Txn)
    requires (s, Tid(t)) in changes
    ensures (s, x) in HandOver(changes, t, Some(x))
  {
    assert (s, Tid(t)).1 == Tid(t);
  }

  lemma HandedOver(run: seq<State>, t: Thread, s: Structure, x: Txn)
    requires Run(run) && Last(run).At(t).code == Idle && (s, x) in Last(run).shared.changes
    ensures Outstanding(Last(run).shared, s, x)
    ensures forall r: Structure :: (r, Tid(t)) !in Last(run).shared.changes && Tid(t) !in Last(run).shared.GateOf(r).transactions
  {
    ChangeIsOutstanding(run, s, x);
    RunInv(run, |run| - 1);
    OwnTraced(Last(run), t);
  }

  // ---------- Remove ----------

  /** Whenever a DeleteIndex leaves MakeReadOnly while a change on the index is outstanding, it has been refused. */
  lemma RemoveIsRefused(states: seq<State>, i: nat, r: Thread, s: Structure, x: Txn)
    requires Run(states) && i + 1 < |states|
    requires states[i].At(r).code.RemoveGate? && states[i].At(r).code.s == s && (s, x) in states[i].shared.changes
    requires states[i + 1].At(r).code != states[i].At(r).code
    ensures states[i + 1].At(r).code == Idle
    ensures states[i + 1].shared.indices == states[i].shared.indices
    ensures Owns(states[i + 1].shared, states[i].At(r).code.name, s)
  {
    RunInv(states, i);
    ChangesAreOwned(states, i, s, x);
    assert Local(states[i].shared, r, states[i].At(r).code);
    assert NextAt(states, i);
    var t: Thread :| Step(states[i], t, states[i + 1]);
    if !Acquire(states[i], t, states[i + 1]) {
      var c: Code, e: Effect :| Moves(states[i], t, c, e) && states[i + 1] == Goto(states[i], t, c, Apply(states[i].shared, e));
      AtGoto(states[i], t, c, Apply(states[i].shared, e));
      assert t == r && Work(states[i].shared, r, states[i].At(r).code, c, e);
      GateRefuses(states[i].shared, r, states[i].At(r).code, c, e, x);
    }
  }

  lemma GateRefuses(sh: Shared, r: Thread, c: Code, c': Code, e: Effect, x: Txn)
    requires c.RemoveGate? && x in sh.GateOf(c.s).transactions && Work(sh, r, c, c', e)
    ensures c' == Idle && Apply(sh, e).indices == sh.indices
  {
  }

  /** And such a DeleteIndex can always come to this end; the index stays registered, and the change outstanding. */
  lemma RemoveReturns(run: seq<State>, r: Thread, s: Structure, x: Txn) returns (longer: seq<State>)
    requires Run(run) && (s, x) in Last(run).shared.changes
    requires Last(run).At(r).code.RemoveGate? && Last(run).At(r).code.s == s
    ensures Run(longer) && run <= longer && Last(longer).At(r) == Activity(Idle, false)
    ensures Owns(Last(longer).shared, Last(run).At(r).code.name, s) && Outstanding(Last(longer).shared, s, x)
  {
    RunInv(run, |run| - 1);
    assert Local(Last(run).shared, r, Last(run).At(r).code);
    longer := run;
    if Last(run).At(r).waiting {
      longer := GetsGate(run, r, s);
    }
    ChangeIsOutstanding(longer, s, x);
    longer := Does(longer, r, Idle, Freeze(s));
    ChangeIsOutstanding(longer, s, x);
  }

  /** An insertion in progress and a deletion of its index: both return, the index is there and the change outstanding. */
  lemma InsertionStopsDeletion(run: seq<State>, t: Thread, r: Thread) returns (longer: seq<State>)
    requires Run(run)
    requires var c, d := Last(run).At(t).code, Last(run).At(r).code;
             c.InsertPut? && c.parent.Some? && d.RemoveGate? && d.s == c.h.home
    ensures Run(longer) && run <= longer && Last(longer).At(r) == Activity(Idle, false)
    ensures var c, d := Last(run).At(t).code, Last(run).At(r).code;
            Owns(Last(longer).shared, d.name, d.s) && Outstanding(Last(longer).shared, d.s, c.parent.value)
  {
    var s, x := Last(run).At(r).code.s, Last(run).At(t).code.parent.value;
    longer := InsertLeavesChange(run, t);
    longer := RemoveReturns(longer, r, s, x);
  }

  /** The same for an update or deletion of records. */
  lemma ModificationStopsDeletion(run: seq<State>, t: Thread, r: Thread) returns (longer: seq<State>)
    requires Run(run)
    requires var c, d := Last(run).At(t).code, Last(run).At(r).code;
             c.ModifyRun? && d.RemoveGate? && d.s == c.h.home
    ensures Run(longer) && run <= longer && Last(longer).At(r) == Activity(Idle, false)
    ensures var d := Last(run).At(r).code;
            Owns(Last(longer).shared, d.name, d.s) && Outstanding(Last(longer).shared, d.s, Tid(t))
  {
    var s := Last(run).At(r).code.s;
    longer := ModifyLeavesChange(run, t);
    longer := RemoveReturns(longer, r, s, Tid(t));
  }
}
