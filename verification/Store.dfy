/**
 The ordered store below the index: a contract for the one Berkeley DB database and the cursor that
 the repository uses.  Records are kept in comparator order, duplicates in insertion order.  Any
 call may fail; a failed call changes no record and is counted in `failures`.
*/
module Store {
  import opened Interface
  import opened Codec
  import opened Records

  datatype DbResult = Done | NotFound | Failed

  class Db {
    const cmp: Comparator
    var records: seq<Rec>
    ghost var failures: nat

    ghost predicate Valid()
      reads this
    {
      TotalPreorder(cmp) && Ordered(cmp, records)
    }

    constructor (cmp: Comparator)
      requires TotalPreorder(cmp)
      ensures Valid() && this.cmp == cmp && records == [] && failures == 0
    {
      this.cmp := cmp;
      records := [];
      failures := 0;
    }

    /** Db::put without flags: a new duplicate goes behind the existing ones. */
    method Put(key: seq<Byte>, data: Block) returns (err: DbResult)
      requires Valid()
      modifies this
      ensures Valid()
      ensures err == Done || err == Failed
      ensures err == Done ==> records == Inserted(cmp, old(records), Rec(key, data)) && failures == old(failures)
      ensures err == Failed ==> records == old(records) && failures > old(failures)
    {
      if * {
        failures := failures + 1;
        return Failed;
      }
      var n := 0;
      while n < |records| && cmp(records[n].key, key) <= 0
        invariant n <= UpperBound(cmp, records, key)
      {
        n := n + 1;
      }
      InsertedOrdered(cmp, records, Rec(key, data));
      records := records[..n] + [Rec(key, data)] + records[n..];
      return Done;
    }
  }

  /** On: the cursor is at a record.  Hole: its record was deleted and what followed moved up. */
  datatype Position = Unset | On(at: nat) | Hole(at: nat, was: seq<Byte>)

  class Cursor {
    const db: Db
    var position: Position

    constructor (db: Db)
      ensures this.db == db && position == Unset
    {
      this.db := db;
      position := Unset;
    }

    ghost predicate Valid()
      reads this, db
    {
      && db.Valid()
      && (position.On? ==> position.at < |db.records|)
      && (position.Hole? ==> position.at <= |db.records|)
    }

    /** The position that NEXT moves to. */
    ghost function Following(): nat
      requires position != Unset
      reads this
    {
      if position.On? then position.at + 1 else position.at
    }

    /** The key of the cursor's record, even after the record was deleted. */
    ghost function CurrentKey(): seq<Byte>
      requires Valid() && position != Unset
      reads this, db
    {
      if position.On? then db.records[position.at].key else position.was
    }

    /** What every retrieval promises about its result when it may stop only at `target`. */
    twostate predicate Retrieved(target: nat, err: DbResult, key: seq<Byte>, data: Block)
      reads this, db
    {
      && Valid()
      && db.records == old(db.records)
      && (err != Failed ==> db.failures == old(db.failures))
      && (err == Done ==> target < |db.records| && position == On(target) && db.records[target] == Rec(key, data))
      && (err != Done ==> position == old(position))
      && (err == Failed ==> db.failures > old(db.failures))
    }

    /** DB_SET_RANGE: the first record at or after the key. */
    method SetRange(key: seq<Byte>) returns (err: DbResult, found: seq<Byte>, data: Block)
      requires Valid()
      modifies this, db`failures
      ensures Retrieved(LowerBound(db.cmp, db.records, key), err, found, data)
      ensures err == NotFound ==> LowerBound(db.cmp, db.records, key) == |db.records|
      ensures err != Done ==> found == key
    {
      found, data := key, [];
      if * {
        db.failures := db.failures + 1;
        return Failed, found, data;
      }
      var n := 0;
      while n < |db.records| && db.cmp(db.records[n].key, key) < 0
        invariant n <= LowerBound(db.cmp, db.records, key)
      {
        n := n + 1;
      }
      if n == |db.records| {
        return NotFound, found, data;
      }
      position := On(n);
      return Done, db.records[n].key, db.records[n].data;
    }

    /** DB_GET_BOTH: the first record with an equal key and this very payload. */
    method GetBoth(key: seq<Byte>, payload: Block) returns (err: DbResult, found: seq<Byte>, data: Block)
      requires Valid()
      modifies this, db`failures
      ensures err == Done ==> position.On?
      ensures Retrieved(if err == Done then position.at else 0, err, found, data)
      ensures err == Done ==> db.cmp(found, key) == 0 && data == payload
      ensures err != Failed ==>
                forall i :: 0 <= i < (if err == Done then position.at else |db.records|) ==>
                  db.cmp(db.records[i].key, key) != 0 || db.records[i].data != payload
    {
      found, data := key, payload;
      if * {
        db.failures := db.failures + 1;
        return Failed, found, data;
      }
      var n := 0;
      while n < |db.records|
        invariant n <= |db.records|
        invariant forall i :: 0 <= i < n ==> db.cmp(db.records[i].key, key) != 0 || db.records[i].data != payload
      {
        if db.cmp(db.records[n].key, key) == 0 && db.records[n].data == payload {
          position := On(n);
          return Done, db.records[n].key, db.records[n].data;
        }
        n := n + 1;
      }
      return NotFound, found, data;
    }

    /** DB_NEXT. */
    method Next() returns (err: DbResult, found: seq<Byte>, data: Block)
      requires Valid() && position != Unset
      modifies this, db`failures
      ensures Retrieved(old(Following()), err, found, data)
      ensures err == NotFound ==> old(Following()) == |db.records|
    {
      found, data := [], [];
      if * {
        db.failures := db.failures + 1;
        return Failed, found, data;
      }
      var n := if position.On? then position.at + 1 else position.at;
      if n == |db.records| {
        return NotFound, found, data;
      }
      position := On(n);
      return Done, db.records[n].key, db.records[n].data;
    }

    /** DB_NEXT_DUP: the next record, provided its key equals the current one. */
    method NextDup() returns (err: DbResult, found: seq<Byte>, data: Block)
      requires Valid() && position != Unset
      modifies this, db`failures
      ensures Retrieved(old(Following()), err, found, data)
      ensures err == Done ==> db.cmp(found, old(CurrentKey())) == 0
      ensures err == NotFound ==>
                || old(Following()) == |db.records|
                || db.cmp(db.records[old(Following())].key, old(CurrentKey())) != 0
    {
      found, data := [], [];
      if * {
        db.failures := db.failures + 1;
        return Failed, found, data;
      }
      var n := if position.On? then position.at + 1 else position.at;
      var current := if position.On? then db.records[position.at].key else position.was;
      if n == |db.records| || db.cmp(db.records[n].key, current) != 0 {
        return NotFound, found, data;
      }
      position := On(n);
      return Done, db.records[n].key, db.records[n].data;
    }

    /** put with DB_CURRENT: replaces the payload of the cursor's record. */
    method PutCurrent(data: Block) returns (err: DbResult)
      requires Valid() && position.On?
      modifies db
      ensures Valid() && position == old(position)
      ensures err == Done || err == Failed
      ensures err == Done ==> db.failures == old(db.failures)
      ensures err == Done ==>
                db.records == old(db.records)[position.at := Rec(old(db.records)[position.at].key, data)]
      ensures err == Failed ==> db.records == old(db.records) && db.failures > old(db.failures)
    {
      if * {
        db.failures := db.failures + 1;
        return Failed;
      }
      var at := position.at;
      ghost var was := db.records;
      db.records := db.records[at := Rec(db.records[at].key, data)];
      assert SameKeys(was, db.records);
      return Done;
    }

    /** del: removes the cursor's record; NEXT then returns the record that moved up. */
    method Del() returns (err: DbResult)
      requires Valid() && position.On?
      modifies this, db
      ensures Valid()
      ensures err == Done || err == Failed
      ensures err == Done ==>
                && db.failures == old(db.failures)
                && position == Hole(old(position.at), old(CurrentKey()))
                && db.records == Without(old(db.records), old(position.at), old(position.at) + 1)
      ensures err == Failed ==> position == old(position) && db.records == old(db.records) && db.failures > old(db.failures)
    {
      if * {
        db.failures := db.failures + 1;
        return Failed;
      }
      var at := position.at;
      position := Hole(at, db.records[at].key);
      WithoutOrdered(db.cmp, db.records, at, at + 1);
      db.records := db.records[..at] + db.records[at + 1..];
      return Done;
    }
  }
}
