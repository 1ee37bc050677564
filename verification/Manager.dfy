/** The registry of index structures (IndexManager in example/Index.cc). */
module Manager {
  import opened Interface
  import opened Gate
  import opened Index

  class IndexManager {
    var indices: map<string, IndexStructure>

    constructor ()
      ensures indices == map[]
    {
      indices := map[];
    }

    method Insert(name: string, structure: IndexStructure)
      modifies this
      ensures indices == old(indices)[name := structure]
    {
      indices := indices[name := structure];
    }

    method Find(name: string) returns (structure: IndexStructure?)
      ensures structure != null <==> name in indices
      ensures name in indices ==> structure == indices[name]
    {
      if name in indices {
        return indices[name];
      }
      return null;
    }

    /** The handles that a structure keeps are open and its own. */
    ghost predicate Tidy(name: string)
      reads this, set n | n in indices :: indices[n], set n, h | n in indices && h in indices[n].handles :: h
    {
      name in indices ==>
        forall h :: h in indices[name].handles ==> h.structure == indices[name] && !h.closed
    }

    /** Deletes the structure and closes its handles, unless some transaction is registered on it. */
    method Remove(name: string) returns (result: ErrorCode)
      requires Tidy(name)
      modifies this
      modifies if name in indices then {indices[name]} else {}
      modifies if name in indices then indices[name].handles else {}
      ensures name !in old(indices) ==> result == KErrorUnknownIndex && indices == old(indices)
      ensures name in old(indices) ==>
                var s := old(indices)[name];
                && s.GateOf() == old(s.GateOf()).Close()
                && (result == KOk <==> old(s.transactions) == {})
                && (result == KOk || result == KErrorOpenTransactions)
                && (result == KOk ==> indices == old(indices) - {name} && s.handles == {})
                && (result == KOk ==> forall h :: h in old(s.handles) ==> h.Detached() && h.structure == s)
                && (result != KOk ==> indices == old(indices) && unchanged(s))
                && (result != KOk ==> forall h :: h in s.handles ==> unchanged(h))
    {
      if name !in indices {
        return KErrorUnknownIndex;
      }
      var s := indices[name];
      var ok := s.MakeReadOnly();
      if !ok {
        return KErrorOpenTransactions;
      }
      s.CloseHandles();
      indices := indices - {name};
      return KOk;
    }

    /** Takes a finished transaction off every index. */
    method CloseTransaction(tx: Txn)
      modifies (set s | s in indices.Values)`transactions
      ensures forall s :: s in indices.Values ==> s.GateOf() == old(s.GateOf()).End(tx)
    {
      var todo := indices.Values;
      while todo != {}
        invariant todo <= indices.Values
        invariant forall s :: s in indices.Values ==> s.readOnly == old(s.readOnly)
        invariant forall s :: s in todo ==> s.transactions == old(s.transactions)
        invariant forall s :: s in indices.Values - todo ==> s.transactions == old(s.transactions) - {tx}
      {
        var s :| s in todo;
        s.EndTransaction(tx);
        todo := todo - {s};
      }
    }
  }
}
