/** The contest interface on top of the index classes (example/BDBImpl.cc). */
module Contest {
  import opened Interface
  import opened Gate
  import opened Codec
  import opened Records
  import opened Store
  import opened Index
  import opened Manager
  import opened Modification
  import opened Unions
  import Operations

  /** The process-wide state: the registry and the environment's databases, and what callers hold. */
  class Engine {
    const manager: IndexManager
    var databases: map<string, Db>
    ghost var issued: set<IndexHandle>   // every handle that OpenIndex returned
    ghost var live: set<Txn>             // transactions begun and neither committed nor aborted
    ghost var structures: set<IndexStructure>  // every structure that was created, deleted ones included

    /** Between calls: a database for every registered name, and handles_ holds the open handles. */
    ghost predicate Valid()
      reads this, manager, issued, structures
    {
      && databases.Keys == manager.indices.Keys
      && (forall n {:trigger Served(n)} :: n in manager.indices ==> Served(n))
      && (forall n, m {:trigger Apart(n, m)} :: n in manager.indices && m in manager.indices && n != m ==> Apart(n, m))
      && (forall h {:trigger Accounted(h)} :: h in issued ==> Accounted(h))
      && (forall x :: x in live ==> x.Explicit?)
    }

    /** A registered name: its structure is sound, and its database is ordered by the structure's comparator. */
    ghost predicate Served(n: string)
      reads this, manager, issued, structures
    {
      && n in databases && n in manager.indices && databases[n].cmp == ByteOrder(manager.indices[n].types)
      && manager.indices[n] in structures && Clean(manager.indices[n])
    }

    // Different names have different structures and databases.
    ghost predicate Apart(n: string, m: string)
      reads this, manager
    {
      && n in manager.indices && m in manager.indices && manager.indices[n] != manager.indices[m]
      && n in databases && m in databases && databases[n] != databases[m]
    }

    /** A registered structure: not read-only, and it keeps its own open handles. */
    ghost predicate Clean(s: IndexStructure)
      reads this, s, issued
    {
      && s.Valid() && !s.readOnly && s.transactions <= live
      && forall h :: h in s.handles ==> h in issued && !h.closed && h.structure == s
    }

    /** An open handle belongs to a registered structure that knows it; a closed one to none. */
    ghost predicate Accounted(h: IndexHandle)
      reads this, manager, h, structures
    {
      && h.structure != null && h.structure in structures
      && if h.closed then h.db == null && h !in h.structure.handles
         else && h.name in manager.indices && manager.indices[h.name] == h.structure && h in h.structure.handles
              && h.name in databases && h.db == databases[h.name]
    }

    /** Every database is sorted and holds keys of its index. */
    ghost predicate Sorted()
      reads `databases, manager`indices, databases.Values
    {
      forall n {:trigger SortedAt(n)} :: n in databases && n in manager.indices ==> SortedAt(n)
    }

    ghost predicate SortedAt(n: string)
      requires n in databases && n in manager.indices
      reads `databases, manager`indices, databases.Values
    {
      databases[n].Valid() && AllKeys(manager.indices[n].types, databases[n].records)
    }

    constructor ()
      ensures Valid() && Sorted() && manager.indices == map[] && issued == {} && live == {}
    {
      manager := new IndexManager();
      databases, issued, live, structures := map[], {}, {}, {};
    }

    method CreateIndex(name: string, types: KeyType) returns (result: ErrorCode)
      requires Valid() && Sorted()
      modifies this`databases, this`structures, manager
      ensures Valid() && Sorted() && issued == old(issued) && live == old(live)
      ensures |name| == 0 || |types| == 0 ==> result == KErrorGenericFailure
      ensures |name| > 0 && |types| > 0 ==> result == if name in old(manager.indices) then KErrorIndexExists else KOk
      ensures result != KOk ==> manager.indices == old(manager.indices) && databases == old(databases)
      ensures result == KOk ==> name !in old(manager.indices) && manager.indices.Keys == old(manager.indices).Keys + {name}
      ensures result == KOk ==> forall n :: n in old(manager.indices) ==> manager.indices[n] == old(manager.indices)[n]
      ensures result == KOk ==> manager.indices[name].types == types && manager.indices[name].GateOf() == OPEN_GATE
      ensures result == KOk ==> databases == old(databases)[name := databases[name]] && databases[name].records == []
    {
      if |name| == 0 || |types| == 0 {
        return KErrorGenericFailure;
      }
      if name in databases {
        return KErrorIndexExists;
      }
      var db := Register(name, types);
      SortedMore(name, db);
      return KOk;
    }

    // The part of CreateIndex behind the checks.
    method Register(name: string, types: KeyType) returns (db: Db)
      requires Valid() && name !in manager.indices
      modifies this`databases, this`structures, manager
      ensures Valid() && issued == old(issued) && live == old(live)
      ensures fresh(db) && db.Valid() && db.records == [] && databases == old(databases)[name := db]
      ensures name in manager.indices && manager.indices == old(manager.indices)[name := manager.indices[name]]
      ensures manager.indices[name].types == types && manager.indices[name].GateOf() == OPEN_GATE
    {
      ByteOrderTotal(types);
      db := new Db(ByteOrder(types));
      databases := databases[name := db];
      var s := new IndexStructure(types);
      structures := structures + {s};
      manager.Insert(name, s);
      Added(name, s);
    }

    twostate lemma SortedMore(name: string, new db: Db)
      requires old(Sorted()) && name !in old(manager.indices) && old(databases.Keys == manager.indices.Keys)
      requires name in manager.indices && manager.indices == old(manager.indices)[name := manager.indices[name]]
      requires databases == old(databases)[name := db] && db.Valid() && db.records == []
      requires forall d :: d in old(databases).Values ==> unchanged(d)
      ensures Sorted()
    {
      forall n | n in databases && n in manager.indices
        ensures SortedAt(n)
      {
        if n != name {
          assert old(SortedAt(n)) && databases[n] in old(databases).Values;
        }
      }
    }

    // Names that were registered before are as far apart as they were.
    twostate lemma StillApart()
      requires old(Valid())
      requires forall n :: n in manager.indices ==> n in old(manager.indices) && manager.indices[n] == old(manager.indices)[n]
      requires forall n :: n in databases ==> n in old(databases) && databases[n] == old(databases)[n]
      requires databases.Keys == manager.indices.Keys
      ensures forall n, m {:trigger Apart(n, m)} :: n in manager.indices && m in manager.indices && n != m ==> Apart(n, m)
    {
      forall n, m | n in manager.indices && m in manager.indices && n != m
        ensures Apart(n, m)
      {
        assert old(Apart(n, m));
      }
    }

    twostate lemma Added(name: string, new s: IndexStructure)
      requires old(Valid()) && name !in old(manager.indices) && issued == old(issued) && live == old(live)
      requires name in databases && databases[name] !in old(databases).Values && databases[name].cmp == ByteOrder(s.types)
      requires databases == old(databases)[name := databases[name]]
      requires fresh(s) && s.Valid() && s.GateOf() == OPEN_GATE && s.handles == {}
      requires structures == old(structures) + {s}
      requires manager.indices == old(manager.indices)[name := s]
      requires forall r :: r in old(structures) ==> unchanged(r)
      requires forall h :: h in issued ==> unchanged(h)
      ensures Valid()
    {
      forall n | n in manager.indices
        ensures Served(n)
        ensures n != name ==> Apart(n, name) && Apart(name, n)
      {
        if n != name {
          assert old(Served(n));
          assert unchanged(manager.indices[n]);
          assert old(databases)[n] in old(databases).Values;
        }
      }
      forall n, m | n in manager.indices && m in manager.indices && n != m
        ensures Apart(n, m)
      {
        assert n != name && m != name ==> old(Apart(n, m));
      }
      AddedHandles(name, s);
    }

    twostate lemma AddedHandles(name: string, new s: IndexStructure)
      requires old(Valid()) && name !in old(manager.indices) && issued == old(issued)
      requires name in databases && forall n :: n in old(databases) ==> n in databases && databases[n] == old(databases)[n]
      requires fresh(s) && structures == old(structures) + {s} && manager.indices == old(manager.indices)[name := s]
      requires forall r :: r in old(structures) ==> unchanged(r)
      requires forall h :: h in issued ==> unchanged(h)
      ensures forall h :: h in issued ==> Accounted(h)
    {
      forall h | h in issued
        ensures Accounted(h)
      {
        assert old(Accounted(h));
      }
    }

    twostate lemma Attached(new idx: IndexHandle, s: IndexStructure)
      requires old(Valid()) && live == old(live) && structures == old(structures) && databases == old(databases) && unchanged(manager)
      requires idx !in old(issued) && issued == old(issued) + {idx} && !idx.closed && idx.structure == s
      requires idx.name in manager.indices && s == manager.indices[idx.name]
      requires idx.name in databases && idx.db == databases[idx.name]
      requires s.handles == old(s.handles) + {idx} && s.readOnly == old(s.readOnly) && s.transactions == old(s.transactions)
      requires forall r :: r in structures && r != s ==> unchanged(r)
      requires forall h :: h in old(issued) ==> unchanged(h)
      ensures Valid()
    {
      var name := idx.name;
      assert old(Served(name));
      forall n | n in manager.indices
        ensures Served(n)
      {
        assert old(Served(n));
      }
      StillApart();
      forall h | h in issued
        ensures Accounted(h)
      {
        assert h != idx ==> old(Accounted(h)) && unchanged(h);
      }
    }

    method OpenIndex(name: string) returns (result: ErrorCode, idx: IndexHandle?)
      requires Valid() && Sorted()
      modifies this`issued, if name in manager.indices then {manager.indices[name]} else {}
      ensures Valid() && Sorted()
      ensures |name| == 0 ==> result == KErrorGenericFailure
      ensures |name| > 0 ==> result == if name in manager.indices then KOk else KErrorUnknownIndex
      ensures name in manager.indices ==> manager.indices[name].GateOf() == old(manager.indices[name].GateOf())
      ensures result != KOk ==> issued == old(issued)
      ensures result == KOk ==>
                && idx != null && fresh(idx) && issued == old(issued) + {idx} && !idx.closed && idx.Ready()
                && name in manager.indices && idx.structure == manager.indices[name] && idx.db == databases[name]
    {
      if |name| == 0 {
        return KErrorGenericFailure, null;
      }
      var s := manager.Find(name);
      if s == null {
        idx := new IndexHandle(name);
        return KErrorUnknownIndex, idx;
      }
      var handle := Connect(name);
      OpenIsReady(handle);
      return KOk, handle;
    }

    // Opening an index that Find has found.
    method Connect(name: string) returns (handle: IndexHandle)
      requires Valid() && name in manager.indices
      modifies this`issued, manager.indices[name]
      ensures Valid() && fresh(handle) && issued == old(issued) + {handle} && !handle.closed
      ensures handle.structure == manager.indices[name] && handle.db == databases[name]
      ensures manager.indices[name].GateOf() == old(manager.indices[name].GateOf())
    {
      handle := new IndexHandle(name);
      var s := manager.indices[name];
      handle.Attach(s, databases[name]);
      issued := issued + {handle};
      Attached(handle, s);
    }

    /** A handle that was closed already, by its owner or by a deletion, is reported as unknown. */
    method CloseIndex(idx: IndexHandle?) returns (result: ErrorCode)
      requires Valid() && Sorted() && (idx != null ==> idx in issued)
      modifies if idx == null then {} else {idx}
      modifies (if idx == null || idx.structure == null then {} else {idx.structure})`handles
      ensures Valid() && Sorted()
      ensures result == if idx == null || old(idx.closed) then KErrorUnknownIndex else KOk
      ensures idx != null ==> idx.Detached() && idx.structure == old(idx.structure)
    {
      if idx == null {
        return KErrorUnknownIndex;
      }
      result := KOk;
      if idx.closed {
        result := KErrorUnknownIndex;
      }
      assert Accounted(idx);
      idx.Close();
      Closed(idx);
    }

    twostate lemma Closed(idx: IndexHandle)
      requires old(Valid()) && idx in issued && unchanged(this) && unchanged(manager)
      requires idx.Detached() && idx.structure == old(idx.structure)
      requires forall h :: h in issued && h != idx ==> unchanged(h)
      requires forall r :: r in structures ==>
                 r.handles == (if r == idx.structure then old(r.handles) - {idx} else old(r.handles)) && r.GateOf() == old(r.GateOf())
      ensures Valid()
    {
      assert old(Accounted(idx));
      forall n | n in manager.indices
        ensures Served(n)
      {
        assert old(Served(n));
        assert idx !in manager.indices[n].handles;
      }
      StillApart();
      forall h | h in issued
        ensures Accounted(h)
      {
        assert old(Accounted(h));
      }
    }

    /**
     Deletes the index unless a transaction that modified it is open.  Afterwards every handle of it
     is closed; all other indices and handles are as before.
    */
    method DeleteIndex(name: string) returns (result: ErrorCode)
      requires Valid() && Sorted()
      modifies this`databases, manager, structures, issued
      ensures Valid() && Sorted()
      ensures |name| == 0 ==> result == KErrorGenericFailure
      ensures |name| > 0 && name !in old(manager.indices) ==> result == KErrorUnknownIndex
      ensures |name| > 0 && name in old(manager.indices) ==>
                result == if old(manager.indices[name].transactions) == {} then KOk else KErrorOpenTransactions
      ensures result != KOk ==> manager.indices == old(manager.indices) && databases == old(databases)
      ensures result == KOk ==> manager.indices == old(manager.indices) - {name} && databases == old(databases) - {name}
      ensures forall n :: n in manager.indices ==> manager.indices[n].GateOf() == old(manager.indices[n].GateOf())
      ensures forall h :: h in issued ==>
                h.structure == old(h.structure) &&
                (h.closed <==> old(h.closed) || (result == KOk && h.structure == old(manager.indices)[name]))
    {
      if |name| == 0 {
        return KErrorGenericFailure;
      }
      if name !in manager.indices {
        return KErrorUnknownIndex;
      }
      assert Served(name);
      result := DropIndex(name);
    }

    // DeleteIndex for a registered name; the databases that are left stay as they are.
    method DropIndex(name: string) returns (result: ErrorCode)
      requires Valid() && Sorted() && name in manager.indices
      modifies this`databases, manager, manager.indices[name], manager.indices[name].handles
      ensures Valid() && Sorted()
      ensures result == if old(manager.indices[name].transactions) == {} then KOk else KErrorOpenTransactions
      ensures result != KOk ==> manager.indices == old(manager.indices) && databases == old(databases)
      ensures result == KOk ==> manager.indices == old(manager.indices) - {name} && databases == old(databases) - {name}
      ensures forall n :: n in manager.indices ==> manager.indices[n].GateOf() == old(manager.indices[n].GateOf())
      ensures forall h :: h in issued ==>
                h.structure == old(h.structure) &&
                (h.closed <==> old(h.closed) || (result == KOk && h.structure == old(manager.indices)[name]))
    {
      result := RemoveIndex(name);
      SortedLess();
    }

    twostate lemma SortedLess()
      requires old(Sorted())
      requires forall n :: n in databases ==> n in old(databases) && databases[n] == old(databases)[n] && unchanged(databases[n])
      requires forall n :: n in manager.indices ==> n in old(manager.indices) && manager.indices[n] == old(manager.indices)[n]
      ensures Sorted()
    {
      forall n | n in databases && n in manager.indices
        ensures SortedAt(n)
      {
        assert old(SortedAt(n));
      }
    }

    // The registry's part, and dbremove.
    method RemoveIndex(name: string) returns (result: ErrorCode)
      requires Valid() && name in manager.indices
      modifies this`databases, manager, manager.indices[name], manager.indices[name].handles
      ensures Valid()
      ensures result == if old(manager.indices[name].transactions) == {} then KOk else KErrorOpenTransactions
      ensures result != KOk ==> manager.indices == old(manager.indices) && databases == old(databases)
      ensures result == KOk ==> manager.indices == old(manager.indices) - {name} && databases == old(databases) - {name}
      ensures forall n :: n in manager.indices ==> manager.indices[n].GateOf() == old(manager.indices[n].GateOf())
      ensures forall h :: h in issued ==>
                h.structure == old(h.structure) &&
                (h.closed <==> old(h.closed) || (result == KOk && h.structure == old(manager.indices)[name]))
    {
      ghost var s := manager.indices[name];
      assert Served(name);
      result := manager.Remove(name);
      if result == KOk {
        databases := databases - {name};
        Removed(name);
      } else {
        assert forall h :: h in s.handles ==> unchanged(h);
        assert forall h :: h in issued && h !in s.handles ==> unchanged(h);
        NotRemoved(name);
      }
    }

    twostate lemma NotRemoved(name: string)
      requires old(Valid()) && unchanged(this) && manager.indices == old(manager.indices) && name in manager.indices
      requires forall s :: s in structures ==> unchanged(s)
      requires forall h :: h in issued ==> unchanged(h)
      ensures Valid()
      ensures forall n :: n in manager.indices ==> manager.indices[n].GateOf() == old(manager.indices[n].GateOf())
    {
      forall n | n in manager.indices
        ensures Served(n) && manager.indices[n].GateOf() == old(manager.indices[n].GateOf())
      {
        assert old(Served(n));
        assert manager.indices[n] in structures && unchanged(manager.indices[n]);
        assert forall h :: h in manager.indices[n].handles ==> h in issued && unchanged(h);
      }
      StillApart();
      forall h | h in issued
        ensures Accounted(h)
      {
        assert old(Accounted(h));
      }
    }

    twostate lemma Removed(name: string)
      requires old(Valid()) && name in old(manager.indices) && issued == old(issued) && live == old(live) && structures == old(structures)
      requires manager.indices == old(manager.indices) - {name} && databases == old(databases) - {name}
      requires old(manager.indices)[name].handles == {}
      requires forall r :: r in structures && r != old(manager.indices)[name] ==> unchanged(r)
      requires forall h :: h in issued ==>
                 if h in old(manager.indices[name].handles) then h.Detached() && h.structure == old(h.structure) else unchanged(h)
      ensures Valid()
      ensures forall n :: n in manager.indices ==> manager.indices[n].GateOf() == old(manager.indices[n].GateOf())
      ensures forall h :: h in issued ==>
                h.structure == old(h.structure) && (h.closed <==> old(h.closed) || h.structure == old(manager.indices)[name])
    {
      ghost var s := old(manager.indices)[name];
      assert old(Served(name));
      forall n | n in manager.indices
        ensures Served(n) && manager.indices[n].GateOf() == old(manager.indices[n].GateOf())
      {
        assert old(Served(n)) && old(Apart(n, name));
        assert unchanged(manager.indices[n]);
      }
      StillApart();
      forall h | h in issued
        ensures Accounted(h) && h.structure == old(h.structure)
        ensures h.closed <==> old(h.closed) || h.structure == s
      {
        assert old(Accounted(h));
        assert !old(h.closed) && h.name != name ==> old(Apart(h.name, name));
        assert h in old(s.handles) <==> old(!h.closed && h.structure == s);
      }
    }

    /** Starts a transaction, which no index has registered. */
    method BeginTransaction(id: nat) returns (tx: Txn)
      requires Valid() && Sorted() && Explicit(id) !in live
      modifies this`live
      ensures Valid() && Sorted() && live == old(live) + {tx} && tx == Explicit(id)
      ensures forall s :: s in manager.indices.Values ==> tx !in s.transactions
    {
      tx := Explicit(id);
      live := live + {tx};
      Begun(tx);
    }

    twostate lemma Begun(tx: Txn)
      requires old(Valid()) && tx.Explicit? && tx !in old(live) && live == old(live) + {tx}
      requires issued == old(issued) && structures == old(structures) && databases == old(databases) && unchanged(manager)
      requires forall r :: r in structures ==> unchanged(r)
      requires forall h :: h in issued ==> unchanged(h)
      ensures Valid() && forall s :: s in manager.indices.Values ==> tx !in s.transactions
    {
      forall n | n in manager.indices
        ensures Served(n) && tx !in manager.indices[n].transactions
      {
        assert old(Served(n)) && unchanged(manager.indices[n]);
      }
      StillApart();
      forall h | h in issued
        ensures Accounted(h)
      {
        assert old(Accounted(h));
      }
    }

    /** Commit and abort: the store resolves the changes, then the transaction is taken off every index. */
    method EndTransaction(tx: Option<Txn>) returns (result: ErrorCode, handle: Option<Txn>)
      requires Valid() && Sorted() && (tx.Some? ==> tx.value in live)
      modifies this`live, (set s | s in manager.indices.Values)`transactions
      ensures Valid() && Sorted()
      ensures result == if tx.None? then KErrorTransactionClosed else KOk
      ensures handle == None && live == old(live) - (if tx.Some? then {tx.value} else {})
      ensures tx.Some? ==> forall s :: s in manager.indices.Values ==> s.GateOf() == old(s.GateOf()).End(tx.value)
    {
      if tx.None? {
        return KErrorTransactionClosed, None;
      }
      manager.CloseTransaction(tx.value);
      live := live - {tx.value};
      handle := None;
      result := KOk;
      Ended(tx.value);
    }

    twostate lemma Ended(x: Txn)
      requires old(Valid()) && issued == old(issued) && structures == old(structures) && databases == old(databases)
      requires live == old(live) - {x} && unchanged(manager)
      requires forall s :: s in manager.indices.Values ==> s.GateOf() == old(s.GateOf()).End(x) && s.handles == old(s.handles)
      requires forall s :: s in structures ==> s.handles == old(s.handles)
      requires forall h :: h in issued ==> unchanged(h)
      ensures Valid()
    {
      forall n | n in manager.indices
        ensures Served(n)
      {
        var r := manager.indices[n];
        assert r in manager.indices.Values && old(Served(n));
        assert r.GateOf() == old(r.GateOf()).End(x);
      }
      StillApart();
      forall h | h in issued
        ensures Accounted(h)
      {
        assert old(Accounted(h));
      }
    }

    // ---------- Record operations ----------

    /** What a caller may pass: a handle that was returned, a live transaction, strings that have an end. */
    ghost predicate Callable(tx: Option<Txn>, idx: IndexHandle?, record: Option<Record>, memory: seq<Chars>)
      reads this, idx
    {
      && (tx.Some? ==> tx.value in live)
      && (idx != null ==> idx in issued)
      && (idx != null && !idx.closed && record.Some? && idx.structure != null ==>
            |record.value.key| == |idx.structure.types| ==> Readable(idx.structure.types, record.value.key, memory))
    }

    /** An open handle works, and its structure has registered only live transactions. */
    lemma OpenIsReady(idx: IndexHandle)
      requires Valid() && Sorted() && idx in issued && !idx.closed
      ensures idx.Ready() && !idx.structure.readOnly && idx.structure.transactions <= live
    {
      assert Accounted(idx) && Served(idx.name) && SortedAt(idx.name);
    }

    // A record operation may have registered transactions that are live, and changed the one database.
    twostate lemma Worked(idx: IndexHandle)
      requires old(Valid()) && old(Sorted()) && idx in issued && !old(idx.closed) && idx.structure != null && idx.db != null
      requires unchanged(this) && unchanged(manager)
      requires forall h :: h in issued ==> unchanged(h)
      requires idx.structure.handles == old(idx.structure.handles) && idx.structure.readOnly == old(idx.structure.readOnly)
      requires idx.structure.transactions <= live
      requires forall r :: r in structures && r != idx.structure ==> unchanged(r)
      requires forall d :: d in databases.Values && d != idx.db ==> unchanged(d)
      requires idx.Ready()
      ensures Valid() && Sorted()
    {
      assert old(Accounted(idx));
      forall n | n in manager.indices
        ensures Served(n)
      {
        assert old(Served(n));
        assert manager.indices[n] in structures;
        assert manager.indices[n] != idx.structure ==> unchanged(manager.indices[n]);
      }
      StillApart();
      forall h | h in issued
        ensures Accounted(h)
      {
        assert old(Accounted(h));
      }
      WorkedSorted(idx);
    }

    twostate lemma WorkedSorted(idx: IndexHandle)
      requires old(Valid()) && old(Sorted()) && unchanged(this) && unchanged(manager)
      requires idx in issued && !old(idx.closed) && unchanged(idx) && idx.Ready()
      requires forall d :: d in databases.Values && d != idx.db ==> unchanged(d)
      ensures Sorted()
    {
      assert old(Accounted(idx));
      forall n | n in databases && n in manager.indices
        ensures SortedAt(n)
      {
        assert old(SortedAt(n));
        if n != idx.name {
          assert old(Apart(n, idx.name));
          assert databases[n] in databases.Values && unchanged(databases[n]);
        }
      }
    }

    /** Stores the record, and registers the transaction; the handle of an existing index is never refused. */
    method InsertRecord(tx: Option<Txn>, idx: IndexHandle?, record: Option<Record>, memory: seq<Chars>) returns (result: ErrorCode)
      requires Valid() && Sorted() && Callable(tx, idx, record, memory)
      modifies Operations.StructureOf(idx)`transactions, Operations.DbOf(idx)
      ensures Valid() && Sorted()
      ensures idx == null || idx.closed ==> result == KErrorUnknownIndex
      ensures idx != null && !idx.closed ==> Working(idx) && InsertDone(tx, idx, record, memory, result)      ensures idx != null && !idx.closed && tx.Some? && idx.db.records != old(idx.db.records) ==>
                tx.value in idx.structure.transactions
    {
      if idx == null || idx.closed {
        return KErrorUnknownIndex;
      }
      OpenIsReady(idx);
      result := InsertOpen(tx, idx, record, memory);
      Worked(idx);
    }

    /** Updates the records, and registers the transaction if any was changed; nothing of the nested one remains. */
    method UpdateRecord(tx: Option<Txn>, idx: IndexHandle?, record: Option<Record>, memory: seq<Chars>,
                        payload: Option<Block>, flags: bv8, thread: nat) returns (result: ErrorCode, ghost at: nat)
      requires Valid() && Sorted() && Callable(tx, idx, record, memory)
      requires record.Some? && flags & K_IGNORE_PAYLOAD != 0 ==> NoNulls(record.value.key)
      modifies Operations.StructureOf(idx)`transactions, Operations.DbOf(idx)
      ensures Valid() && Sorted()
      ensures idx == null || idx.closed ==> result == KErrorUnknownIndex
      ensures idx != null && !idx.closed ==> Working(idx) && UpdateDone(tx, idx, record, memory, payload, flags, at, result)      ensures idx != null && !idx.closed && tx.Some? && idx.db.records != old(idx.db.records) ==>
                tx.value in idx.structure.transactions
    {
      if idx == null || idx.closed {
        return KErrorUnknownIndex, 0;
      }
      OpenIsReady(idx);
      result, at := UpdateOpen(tx, idx, record, memory, payload, flags, Nested(thread));
      Worked(idx);
    }

    /** Deletes the records, and registers the transaction if any was removed; nothing of the nested one remains. */
    method DeleteRecord(tx: Option<Txn>, idx: IndexHandle?, record: Option<Record>, memory: seq<Chars>,
                        flags: bv8, thread: nat) returns (result: ErrorCode, ghost at: nat)
      requires Valid() && Sorted() && Callable(tx, idx, record, memory)
      requires record.Some? && flags & K_IGNORE_PAYLOAD != 0 ==> NoNulls(record.value.key)
      modifies Operations.StructureOf(idx)`transactions, Operations.DbOf(idx)
      ensures Valid() && Sorted()
      ensures idx == null || idx.closed ==> result == KErrorUnknownIndex
      ensures idx != null && !idx.closed ==> Working(idx) && DeleteDone(tx, idx, record, memory, flags, at, result)      ensures idx != null && !idx.closed && tx.Some? && idx.db.records != old(idx.db.records) ==>
                tx.value in idx.structure.transactions
    {
      if idx == null || idx.closed {
        return KErrorUnknownIndex, 0;
      }
      OpenIsReady(idx);
      result, at := DeleteOpen(tx, idx, record, memory, flags, Nested(thread));
      Worked(idx);
    }

    /** Once every transaction has ended, any index can be deleted. */
    lemma QuiescentDeletes(name: string)
      requires Valid() && live == {} && name in manager.indices
      ensures manager.indices[name].transactions == {}
    {
      assert Served(name);
    }
  }

  // ---------- The operations on an open handle of an existing index ----------

  predicate Working(idx: IndexHandle)
    reads idx
  {
    idx.structure != null && idx.db != null
  }

  // The record has as many attributes as the index, and is kept under these bytes.
  predicate Fitting(idx: IndexHandle, record: Option<Record>)
    requires Working(idx)
    reads idx
  {
    record.Some? && |record.value.key| == |idx.structure.types|
  }

  /** What an insertion does: the record is added and the transaction registered, unless the store fails. */
  twostate predicate InsertDone(tx: Option<Txn>, idx: IndexHandle, record: Option<Record>, memory: seq<Chars>, result: ErrorCode)
    requires old(Working(idx)) && Working(idx) && idx.structure == old(idx.structure) && idx.db == old(idx.db)
    requires Fitting(idx, record) ==> Readable(idx.structure.types, record.value.key, memory)
    reads idx, idx.structure, idx.db
  {
    if !Fitting(idx, record) then
      result == KErrorIncompatibleKey && idx.db.records == old(idx.db.records)
      && idx.structure.transactions == old(idx.structure.transactions)
    else
      && result == (if idx.db.failures == old(idx.db.failures) then KOk else KErrorGenericFailure)
      && idx.db.records == (if result == KOk then
                              Inserted(idx.db.cmp, old(idx.db.records),
                                       Rec(StoredKey(idx.structure.types, record.value.key, memory), record.value.payload))
                            else old(idx.db.records))
      && idx.structure.transactions == WithParent(old(idx.structure.transactions), tx, true)
  }

  /** What an update does, as in Operations.UpdateRecord. */
  twostate predicate UpdateDone(tx: Option<Txn>, idx: IndexHandle, record: Option<Record>, memory: seq<Chars>,
                                payload: Option<Block>, flags: bv8, at: nat, result: ErrorCode)
    requires old(Working(idx)) && Working(idx) && idx.structure == old(idx.structure) && idx.db == old(idx.db)
    requires Fitting(idx, record) ==> Readable(idx.structure.types, record.value.key, memory)
    reads idx, idx.structure, idx.db
  {
    if !Fitting(idx, record) || payload == None then
      && result == (if Fitting(idx, record) then KErrorGenericFailure else KErrorIncompatibleKey)
      && idx.db.records == old(idx.db.records) && idx.structure.transactions == old(idx.structure.transactions)
    else
      var all, ignore := flags & K_MATCH_DUPLICATES != 0, flags & K_IGNORE_PAYLOAD != 0;
      var key, data := StoredKey(idx.structure.types, record.value.key, memory), record.value.payload;
      var from := FirstHit(idx.db.cmp, old(idx.db.records), key, data, ignore);
      && Updated(old(idx.db.records), idx.db.records, from, Stop(idx.db.cmp, old(idx.db.records), key, data, all, ignore),
                 at, payload.value, all, idx.db.failures == old(idx.db.failures), result)
      && idx.structure.transactions == WithParent(old(idx.structure.transactions), tx, from < at)
  }

  /** What a deletion does, as in Operations.DeleteRecord. */
  twostate predicate DeleteDone(tx: Option<Txn>, idx: IndexHandle, record: Option<Record>, memory: seq<Chars>,
                                flags: bv8, at: nat, result: ErrorCode)
    requires old(Working(idx)) && Working(idx) && idx.structure == old(idx.structure) && idx.db == old(idx.db)
    requires Fitting(idx, record) ==> Readable(idx.structure.types, record.value.key, memory)
    reads idx, idx.structure, idx.db
  {
    if !Fitting(idx, record) then
      result == KErrorIncompatibleKey && idx.db.records == old(idx.db.records)
      && idx.structure.transactions == old(idx.structure.transactions)
    else
      var all, ignore := flags & K_MATCH_DUPLICATES != 0, flags & K_IGNORE_PAYLOAD != 0;
      var key, data := StoredKey(idx.structure.types, record.value.key, memory), record.value.payload;
      var from := FirstHit(idx.db.cmp, old(idx.db.records), key, data, ignore);
      && Removed(old(idx.db.records), idx.db.records, from, Stop(idx.db.cmp, old(idx.db.records), key, data, all, ignore),
                 at, all, idx.db.failures == old(idx.db.failures), result)
      && idx.structure.transactions == WithParent(old(idx.structure.transactions), tx, from < at)
  }

  method InsertOpen(tx: Option<Txn>, idx: IndexHandle, record: Option<Record>, memory: seq<Chars>) returns (result: ErrorCode)
    requires idx.Ready() && !idx.structure.readOnly
    requires Fitting(idx, record) ==> Readable(idx.structure.types, record.value.key, memory)
    modifies idx.structure`transactions, idx.db
    ensures idx.Ready() && InsertDone(tx, idx, record, memory, result)
  {
    result := Operations.InsertRecord(tx, idx, record, memory);
  }

  method UpdateOpen(tx: Option<Txn>, idx: IndexHandle, record: Option<Record>, memory: seq<Chars>,
                    payload: Option<Block>, flags: bv8, tid: Txn) returns (result: ErrorCode, ghost at: nat)
    requires idx.Ready() && !idx.structure.readOnly && tid !in idx.structure.transactions && tx != Some(tid)
    requires Fitting(idx, record) ==> Readable(idx.structure.types, record.value.key, memory)
    requires record.Some? && flags & K_IGNORE_PAYLOAD != 0 ==> NoNulls(record.value.key)
    modifies idx.structure`transactions, idx.db
    ensures idx.Ready() && UpdateDone(tx, idx, record, memory, payload, flags, at, result)
  {
    result, at := Operations.UpdateRecord(tx, idx, record, memory, payload, flags, tid);
  }

  method DeleteOpen(tx: Option<Txn>, idx: IndexHandle, record: Option<Record>, memory: seq<Chars>,
                    flags: bv8, tid: Txn) returns (result: ErrorCode, ghost at: nat)
    requires idx.Ready() && !idx.structure.readOnly && tid !in idx.structure.transactions && tx != Some(tid)
    requires Fitting(idx, record) ==> Readable(idx.structure.types, record.value.key, memory)
    requires record.Some? && flags & K_IGNORE_PAYLOAD != 0 ==> NoNulls(record.value.key)
    modifies idx.structure`transactions, idx.db
    ensures idx.Ready() && DeleteDone(tx, idx, record, memory, flags, at, result)
  {
    result, at := Operations.DeleteRecord(tx, idx, record, memory, flags, tid);
  }
}
