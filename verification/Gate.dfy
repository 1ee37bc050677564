/** The transaction gate of an index structure: who has modified it, and whether it may still be modified. */
module Gate {

  /** A transaction handle: one that a caller began, or the nested one of an Update or Delete call. */
  datatype Txn = Explicit(id: nat) | Nested(thread: nat)

  datatype Gate = Gate(readOnly: bool, transactions: set<Txn>) {
    /** A structure that was made read-only has no modifying transaction. */
    predicate Sound() {
      readOnly ==> transactions == {}
    }

    // IndexStructure::start_transaction succeeds exactly when the structure is not read-only.
    function Start(x: Txn): Gate {
      if readOnly then this else this.(transactions := transactions + {x})
    }

    // IndexStructure::end_transaction.
    function End(x: Txn): Gate {
      this.(transactions := transactions - {x})
    }

    // IndexStructure::MakeReadOnly succeeds exactly when no transaction is registered.
    function Close(): Gate {
      if transactions == {} then this.(readOnly := true) else this
    }
  }

  const OPEN_GATE := Gate(false, {})
}
