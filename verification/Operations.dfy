/** The record operations of the contest interface (example/BDBImpl.cc). */
module Operations {
  import opened Interface
  import opened Gate
  import opened Codec
  import opened Records
  import opened Store
  import opened Modification
  import opened Index
  import opened Iterators
  import opened Scan
  import opened Unions

  // In all operations `memory` is what lies behind the values in the caller's attributes, see Unions.

  /** What callers owe: an open handle works, and strings that are read have an end. */
  ghost predicate Usable(idx: IndexHandle?, key: Key, memory: seq<Chars>)
    reads idx, if idx != null then {idx.structure, idx.db} else {}
  {
    idx != null && !idx.closed ==>
      && idx.Ready()
      && (|key| == |idx.structure.types| ==> Readable(idx.structure.types, key, memory))
  }

  /** Index::Compatible: only the number of attributes is checked. */
  method Compatible(idx: IndexHandle, record: Option<Record>) returns (ok: bool)
    requires idx.structure != null
    ensures ok <==> record.Some? && !idx.closed && |record.value.key| == |idx.structure.types|
  {
    if record == None || idx.closed {
      return false;
    }
    ok := |record.value.key| == |idx.structure.types|;
  }

  /** The record that the index sees, which is kept under the bytes of StoredKey. */
  function Seen(idx: IndexHandle, record: Record, memory: seq<Chars>): (r: Record)
    requires idx.structure != null && idx.structure.size == KeySize(idx.structure.types)
    requires Readable(idx.structure.types, record.key, memory)
    reads idx
    ensures r.payload == record.payload && (NoNulls(record.key) ==> NoNulls(r.key))
    ensures idx.Accepts(r) && idx.KeyOf(r) == StoredKey(idx.structure.types, record.key, memory)
  {
    Record(KeyAs(idx.structure.types, record.key, memory), record.payload)
  }

  // The objects that an operation on an open handle may change.
  ghost function StructureOf(idx: IndexHandle?): set<IndexStructure>
    reads idx
  {
    if idx == null || idx.closed || idx.structure == null then {} else {idx.structure}
  }

  ghost function DbOf(idx: IndexHandle?): set<Db>
    reads idx
  {
    if idx == null || idx.closed || idx.db == null then {} else {idx.db}
  }

  method InsertRecord(tx: Option<Txn>, idx: IndexHandle?, record: Option<Record>, memory: seq<Chars>) returns (result: ErrorCode)
    requires record.Some? ==> Usable(idx, record.value.key, memory)
    requires idx != null && !idx.closed ==> idx.Ready()
    modifies StructureOf(idx)`transactions, DbOf(idx)
    ensures idx == null || idx.closed ==> result == KErrorUnknownIndex
    ensures result == KErrorIncompatibleKey <==>
              idx != null && !idx.closed && (record == None || |record.value.key| != |idx.structure.types|)
    ensures result == KErrorIncompatibleKey ==> unchanged(idx.structure) && unchanged(idx.db)
    ensures idx != null && !idx.closed && record.Some? && |record.value.key| == |idx.structure.types| ==>
              && idx.Ready()
              && idx.structure.GateOf() == (if tx.Some? then old(idx.structure.GateOf()).Start(tx.value) else old(idx.structure.GateOf()))
              && (tx.Some? && idx.structure.readOnly ==> result == KErrorUnknownIndex && idx.db.records == old(idx.db.records))
              && (!(tx.Some? && idx.structure.readOnly) ==>
                    && (result == KOk <==> idx.db.failures == old(idx.db.failures))
                    && (result != KOk ==> result == KErrorGenericFailure && idx.db.records == old(idx.db.records))
                    && (result == KOk ==>
                          idx.db.records == Inserted(idx.db.cmp, old(idx.db.records),
                                                     Rec(StoredKey(idx.structure.types, record.value.key, memory), record.value.payload))))
  {
    if idx == null || idx.closed {
      return KErrorUnknownIndex;
    }
    var ok := Compatible(idx, record);
    if !ok {
      return KErrorIncompatibleKey;
    }
    result := idx.Insert(tx, Seen(idx, record.value, memory));
  }

  method UpdateRecord(tx: Option<Txn>, idx: IndexHandle?, record: Option<Record>, memory: seq<Chars>,
                      payload: Option<Block>, flags: bv8, tid: Txn)
    returns (result: ErrorCode, ghost at: nat)
    requires record.Some? ==> Usable(idx, record.value.key, memory)
    requires idx != null && !idx.closed ==> idx.Ready()
    requires record.Some? && flags & K_IGNORE_PAYLOAD != 0 ==> NoNulls(record.value.key)
    requires idx != null && !idx.closed ==> tid !in idx.structure.transactions && tx != Some(tid)
    modifies StructureOf(idx)`transactions, DbOf(idx)
    ensures idx == null || idx.closed ==> result == KErrorUnknownIndex
    ensures result == KErrorIncompatibleKey <==>
              idx != null && !idx.closed && (record == None || |record.value.key| != |idx.structure.types|)
    ensures result == KErrorIncompatibleKey ==> unchanged(idx.structure) && unchanged(idx.db)
    ensures idx != null && !idx.closed && record.Some? && |record.value.key| == |idx.structure.types| && payload == None ==>
              result == KErrorGenericFailure && unchanged(idx.structure) && unchanged(idx.db)
    ensures idx != null && !idx.closed && record.Some? && |record.value.key| == |idx.structure.types| && payload.Some? ==>
              && idx.Ready()
              && if idx.structure.readOnly then
                   result == KErrorUnknownIndex && idx.db.records == old(idx.db.records)
                   && idx.structure.transactions == old(idx.structure.transactions)
                 else
                   var all, ignore := flags & K_MATCH_DUPLICATES != 0, flags & K_IGNORE_PAYLOAD != 0;
                   var key, data := StoredKey(idx.structure.types, record.value.key, memory), record.value.payload;
                   var from := FirstHit(idx.db.cmp, old(idx.db.records), key, data, ignore);
                   && Updated(old(idx.db.records), idx.db.records, from,
                              Stop(idx.db.cmp, old(idx.db.records), key, data, all, ignore),
                              at, payload.value, all, idx.db.failures == old(idx.db.failures), result)
                   && idx.structure.transactions == WithParent(old(idx.structure.transactions), tx, from < at)
  {
    if idx == null || idx.closed {
      return KErrorUnknownIndex, 0;
    }
    var ok := Compatible(idx, record);
    if !ok {
      return KErrorIncompatibleKey, 0;
    }
    if payload == None {
      return KErrorGenericFailure, 0;
    }
    result, at := idx.Update(tx, Seen(idx, record.value, memory), payload.value, flags, tid);
  }

  method DeleteRecord(tx: Option<Txn>, idx: IndexHandle?, record: Option<Record>, memory: seq<Chars>, flags: bv8, tid: Txn)
    returns (result: ErrorCode, ghost at: nat)
    requires record.Some? ==> Usable(idx, record.value.key, memory)
    requires idx != null && !idx.closed ==> idx.Ready()
    requires record.Some? && flags & K_IGNORE_PAYLOAD != 0 ==> NoNulls(record.value.key)
    requires idx != null && !idx.closed ==> tid !in idx.structure.transactions && tx != Some(tid)
    modifies StructureOf(idx)`transactions, DbOf(idx)
    ensures idx == null || idx.closed ==> result == KErrorUnknownIndex
    ensures result == KErrorIncompatibleKey <==>
              idx != null && !idx.closed && (record == None || |record.value.key| != |idx.structure.types|)
    ensures result == KErrorIncompatibleKey ==> unchanged(idx.structure) && unchanged(idx.db)
    ensures idx != null && !idx.closed && record.Some? && |record.value.key| == |idx.structure.types| ==>
              && idx.Ready()
              && if idx.structure.readOnly then
                   result == KErrorUnknownIndex && idx.db.records == old(idx.db.records)
                   && idx.structure.transactions == old(idx.structure.transactions)
                 else
                   var all, ignore := flags & K_MATCH_DUPLICATES != 0, flags & K_IGNORE_PAYLOAD != 0;
                   var key, data := StoredKey(idx.structure.types, record.value.key, memory), record.value.payload;
                   var from := FirstHit(idx.db.cmp, old(idx.db.records), key, data, ignore);
                   && Removed(old(idx.db.records), idx.db.records, from,
                              Stop(idx.db.cmp, old(idx.db.records), key, data, all, ignore),
                              at, all, idx.db.failures == old(idx.db.failures), result)
                   && idx.structure.transactions == WithParent(old(idx.structure.transactions), tx, from < at)
  {
    if idx == null || idx.closed {
      return KErrorUnknownIndex, 0;
    }
    var ok := Compatible(idx, record);
    if !ok {
      return KErrorIncompatibleKey, 0;
    }
    result, at := idx.Delete(tx, Seen(idx, record.value, memory), flags, tid);
  }

  // ---------- Range scans ----------

  /** The records as the caller gets them. */
  ghost function Decoded(types: KeyType, recs: seq<Rec>): seq<Record>
    requires AllKeys(types, recs)
  {
    if |recs| == 0 then [] else [Record(Full(Decode(types, recs[0].key)), recs[0].data)] + Decoded(types, recs[1..])
  }

  lemma {:induction false} PassingKeys(types: KeyType, max: Key, recs: seq<Rec>)
    ensures AllKeys(types, Passing(types, max, recs))
  {
    if |recs| > 0 {
      PassingKeys(types, max, recs[1..]);
    }
  }

  /** What the iterator has still to deliver, if the store stays as it is. */
  ghost function Remaining(it: IndexIterator): (recs: seq<Rec>)
    requires it.Valid() && !it.end
    reads it, it.cursor, it.cursor.db
    ensures AllKeys(it.structure.types, recs)
  {
    PassingKeys(it.structure.types, it.maxKey, it.cursor.db.records[it.Pending()..]);
    Passing(it.structure.types, it.maxKey, it.cursor.db.records[it.Pending()..])
  }

  /** A new iterator has to deliver exactly the records that the scan's test selects. */
  method GetRecords(idx: IndexHandle?, minKeys: Key, minMemory: seq<Chars>, maxKeys: Key, maxMemory: seq<Chars>)
    returns (result: ErrorCode, it: IndexIterator?)
    requires Usable(idx, minKeys, minMemory) && Usable(idx, maxKeys, maxMemory)
    ensures result == if idx == null || idx.closed then KErrorUnknownIndex
                      else if |minKeys| != |idx.structure.types| || |maxKeys| != |idx.structure.types| then KErrorIncompatibleKey
                      else KOk
    ensures result == KOk ==>
              && it != null && fresh(it) && fresh(it.cursor) && it.Valid() && !it.closed && !it.end
              && it.structure == idx.structure && it.cursor.db == idx.db
              && Remaining(it) == Selected(idx.structure.types, KeyAs(idx.structure.types, minKeys, minMemory),
                                           KeyAs(idx.structure.types, maxKeys, maxMemory), idx.db.records)
  {
    if idx == null || idx.closed {
      return KErrorUnknownIndex, null;
    }
    if |minKeys| != |idx.structure.types| || |maxKeys| != |idx.structure.types| {
      return KErrorIncompatibleKey, null;
    }
    var min := KeyAs(idx.structure.types, minKeys, minMemory);
    var max := KeyAs(idx.structure.types, maxKeys, maxMemory);
    var iter := new IndexIterator(idx, min, max);
    ScanSelects(idx.structure.types, idx.db.cmp, min, max, idx.db.records);
    return KOk, iter;
  }

  /** Delivers the first of the remaining records, or reports that there is none. */
  method GetNext(it: IndexIterator?) returns (result: ErrorCode, record: Option<Record>)
    requires it != null && !it.closed ==> it.Valid() && !it.end
    modifies if it == null then {} else {it, it.cursor}
    modifies (if it == null then {} else {it.cursor.db})`failures
    ensures it == null || old(it.closed) ==> result == KErrorIteratorClosed
    ensures it != null && !old(it.closed) ==>
              && it.cursor.db.records == old(it.cursor.db.records)
              && (result == KErrorGenericFailure <==> it.cursor.db.failures != old(it.cursor.db.failures))
              && (result == KOk || result == KErrorNotFound || result == KErrorGenericFailure)
              && (result == KErrorNotFound ==> record == None && it.end && old(Remaining(it)) == [])
              && (result == KOk ==>
                    && it.Valid() && !it.closed && !it.end
                    && |old(Remaining(it))| > 0 && Remaining(it) == old(Remaining(it))[1..]
                    && var r := old(Remaining(it))[0];
                       record == Some(Record(Full(Decode(it.structure.types, r.key)), r.data)))
  {
    if it == null || it.closed {
      return KErrorIteratorClosed, None;
    }
    ghost var types, max, recs, from := it.structure.types, it.maxKey, it.cursor.db.records, it.Pending();
    var ok := it.Next();
    if !ok {
      return KErrorGenericFailure, None;
    }
    if it.end {
      NonePassing(types, max, recs[from..]);
      return KErrorNotFound, None;
    }
    NextPassing(types, max, recs, from, it.cursor.position.at);
    var value := it.Value();
    return KOk, Some(value);
  }

  /** The iterator is open and has these records to deliver. */
  ghost predicate Delivers(it: IndexIterator, rest: seq<Rec>)
    reads it, it.cursor, it.cursor.db
  {
    it.Valid() && !it.end && !it.closed && rest == Remaining(it)
  }

  // One GetNext of a caller's loop.
  method Deliver(it: IndexIterator, ghost rest: seq<Rec>) returns (result: ErrorCode, record: Option<Record>)
    requires Delivers(it, rest)
    modifies it, it.cursor, it.cursor.db`failures
    ensures it.cursor.db.records == old(it.cursor.db.records)
    ensures result == KOk || result == KErrorNotFound || result == KErrorGenericFailure
    ensures result == KErrorGenericFailure <==> it.cursor.db.failures != old(it.cursor.db.failures)
    ensures result == KErrorNotFound ==> rest == []
    ensures result == KOk ==>
              && |rest| > 0 && AllKeys(it.structure.types, rest) && Delivers(it, rest[1..])
              && record == Some(Record(Full(Decode(it.structure.types, rest[0].key)), rest[0].data))
  {
    result, record := GetNext(it);
  }

  /** A caller's loop over the whole result. */
  method Drain(it: IndexIterator) returns (result: ErrorCode, records: seq<Record>)
    requires it.Valid() && !it.end && !it.closed
    modifies it, it.cursor, it.cursor.db`failures
    ensures it.cursor.db.records == old(it.cursor.db.records)
    ensures result == KErrorNotFound || result == KErrorGenericFailure
    ensures result == KErrorNotFound <==> it.cursor.db.failures == old(it.cursor.db.failures)
    ensures result == KErrorNotFound ==> records == Decoded(it.structure.types, old(Remaining(it)))
  {
    ghost var types, rest := it.structure.types, Remaining(it);
    ghost var all := Decoded(types, rest);
    records := [];
    var record;
    while true
      invariant Delivers(it, rest) && AllKeys(types, rest)
      invariant it.cursor.db.records == old(it.cursor.db.records)
      invariant it.cursor.db.failures == old(it.cursor.db.failures)
      invariant all == records + Decoded(types, rest)
      decreases |rest|
    {
      result, record := Deliver(it, rest);
      if result != KOk {
        return;
      }
      DecodedMore(types, records, rest, record.value);
      records := records + [record.value];
      rest := rest[1..];
    }
  }

  lemma DecodedMore(types: KeyType, records: seq<Record>, rest: seq<Rec>, r: Record)
    requires AllKeys(types, rest) && |rest| > 0
    requires r == Record(Full(Decode(types, rest[0].key)), rest[0].data)
    ensures AllKeys(types, rest[1..])
    ensures records + Decoded(types, rest) == records + [r] + Decoded(types, rest[1..])
  {
    Append(records, r, Decoded(types, rest[1..]));
  }

  lemma Append(records: seq<Record>, r: Record, rest: seq<Record>)
    ensures records + ([r] + rest) == records + [r] + rest
  {
  }
}
