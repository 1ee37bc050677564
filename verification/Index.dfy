/** Index handles, index structures and the index registry (example/Index.cc). */
module Index {
  import opened Interface
  import opened Order
  import opened Codec
  import opened Records
  import opened Store
  import opened Gate
  import opened Modification

  // ---------- The C library's memcpy and memset ----------

  method Memcpy(dst: array<Byte>, at: nat, src: seq<Byte>)
    requires at + |src| <= dst.Length
    modifies dst
    ensures dst[..] == old(dst[..at]) + src + old(dst[at + |src|..])
  {
    forall i | 0 <= i < |src| {
      dst[at + i] := src[i];
    }
  }

  method Memset(dst: array<Byte>, at: nat, c: Byte, n: nat)
    requires at + n <= dst.Length
    modifies dst
    ensures dst[..] == old(dst[..at]) + seq(n, _ => c) + old(dst[at + n..])
  {
    forall i | 0 <= i < n {
      dst[at + i] := c;
    }
  }

  // ---------- IndexStructure ----------

  class IndexStructure {
    const types: KeyType
    const size: nat
    var readOnly: bool
    var transactions: set<Txn>
    var handles: set<IndexHandle>

    ghost predicate Valid() {
      size == KeySize(types)
    }

    ghost function GateOf(): Gate
      reads this`readOnly, this`transactions
    {
      Gate(readOnly, transactions)
    }

    constructor (types: KeyType)
      ensures Valid() && this.types == types
      ensures GateOf() == OPEN_GATE && handles == {}
    {
      var total := 0;
      var copied: KeyType := [];
      var i := 0;
      while i < |types|
        invariant 0 <= i <= |types|
        invariant total == Offset(types, i)
        invariant copied == types[..i]
      {
        if types[i] == KShort {
          total := total + 4;
        } else if types[i] == KInt {
          total := total + 8;
        } else {
          total := total + MAX_VARCHAR_LENGTH + 1;
        }
        copied := copied + [types[i]];
        i := i + 1;
      }
      assert copied == types;
      this.types := copied;
      this.size := total;
      readOnly := false;
      transactions := {};
      handles := {};
    }

    method WriteVarcharWildcard(data: array<Byte>, offset: nat)
      requires offset + MAX_VARCHAR_LENGTH + 1 <= data.Length
      modifies data
      ensures data[..] == old(data[..offset]) + Filled(127) + old(data[offset + MAX_VARCHAR_LENGTH + 1..])
    {
      Memset(data, offset, 127, MAX_VARCHAR_LENGTH);
      Memset(data, offset + MAX_VARCHAR_LENGTH, 0, 1);
    }

    /** One attribute: its bytes, or for a NULL the wildcard of its type.  Returns the slot's size. */
    method WriteSlot(data: array<Byte>, offset: nat, t: AttributeType, a: Option<Attribute>, max: bool) returns (n: nat)
      requires a.Some? ==> TypeOf(a.value) == t
      requires offset + SlotSize(t) <= data.Length
      modifies data
      ensures n == SlotSize(t)
      ensures data[..offset + n] == old(data[..offset]) + Image(OrWildcard(t, a, max))
    {
      if t == KShort {
        n := 4;
        if a == None {
          Memcpy(data, offset, Image(Wildcard(KShort, max)));
        }
      } else if t == KInt {
        n := 8;
        if a == None {
          Memcpy(data, offset, Image(Wildcard(KInt, max)));
        }
      } else {
        n := MAX_VARCHAR_LENGTH + 1;
        if a == None {
          WriteVarcharWildcard(data, offset);
        }
      }
      if a != None {
        Memcpy(data, offset, Image(a.value));
      }
    }

    // One turn of the loop of GetBDBKey.
    method WriteNext(data: array<Byte>, offset: nat, key: Key, max: bool, i: nat, ghost filled: FullKey) returns (n: nat)
      requires Compatible(types, key) && filled == Filling(types, key, max) && Shaped(types, filled)
      requires data.Length == KeySize(types) && i < |types| && offset == Offset(types, i) <= data.Length
      requires data[..offset] == EncodeSlots(types, filled, i)
      modifies data
      ensures offset + n == Offset(types, i + 1) <= data.Length
      ensures data[..offset + n] == EncodeSlots(types, filled, i + 1)
    {
      OffsetsIncrease(types, i + 1, |types|);
      EncodeNext(types, key, max, i);
      n := WriteSlot(data, offset, types[i], key[i], max);
    }

    // The loop of GetBDBKey.
    method WriteSlots(data: array<Byte>, key: Key, max: bool, ghost filled: FullKey)
      requires Compatible(types, key) && filled == Filling(types, key, max) && Shaped(types, filled)
      requires data.Length == KeySize(types)
      modifies data
      ensures data[..] == Encode(types, filled)
    {
      var offset := 0;
      var i := 0;
      while i < |types|
        invariant 0 <= i <= |types|
        invariant offset == Offset(types, i) <= data.Length
        invariant data[..offset] == EncodeSlots(types, filled, i)
      {
        var n := WriteNext(data, offset, key, max, i, filled);
        offset := offset + n;
        i := i + 1;
      }
      assert data[..offset] == data[..];
    }

    /** Lays the attributes out in their slots; a NULL becomes the wildcard of its type. */
    method GetBDBKey(key: Key, max: bool) returns (data: array<Byte>)
      requires Valid() && Compatible(types, key)
      ensures fresh(data)
      ensures data[..] == Encode(types, Filling(types, key, max))
    {
      data := new Byte[size];
      WriteSlots(data, key, max, Filling(types, key, max));
    }

    method ReadSlot(data: seq<Byte>, i: nat, offset: nat) returns (a: Attribute, n: nat)
      requires |data| == KeySize(types) && i < |types| && offset == Offset(types, i)
      ensures n == SlotSize(types[i]) && offset + n <= |data|
      ensures a == FromImage(types[i], Slot(types, data, i))
    {
      OffsetsIncrease(types, i + 1, |types|);
      if types[i] == KShort {
        n := 4;
      } else if types[i] == KInt {
        n := 8;
      } else {
        n := MAX_VARCHAR_LENGTH + 1;
      }
      a := FromImage(types[i], data[offset..offset + n]);
    }

    /** Reads every slot of a stored key. */
    method GetKey(data: seq<Byte>) returns (key: FullKey)
      requires Valid() && |data| == size
      ensures key == Decode(types, data)
    {
      key := [];
      var offset := 0;
      var i := 0;
      while i < |types|
        invariant 0 <= i <= |types|
        invariant offset == Offset(types, i)
        invariant key == DecodeSlots(types, data, i)
      {
        var a, n := ReadSlot(data, i, offset);
        key := key + [a];
        offset := offset + n;
        i := i + 1;
      }
    }

    method StartTransaction(x: Txn) returns (ok: bool)
      modifies this`transactions
      ensures GateOf() == old(GateOf()).Start(x)
      ensures ok <==> !readOnly
    {
      if readOnly {
        return false;
      }
      transactions := transactions + {x};
      return true;
    }

    method EndTransaction(x: Txn)
      modifies this`transactions
      ensures GateOf() == old(GateOf()).End(x)
    {
      transactions := transactions - {x};
    }

    method MakeReadOnly() returns (ok: bool)
      modifies this`readOnly
      ensures GateOf() == old(GateOf()).Close()
      ensures ok <==> transactions == {}
    {
      if |transactions| > 0 {
        return false;
      }
      readOnly := true;
      return true;
    }

    method RegisterHandle(h: IndexHandle)
      modifies this`handles
      ensures handles == old(handles) + {h}
    {
      handles := handles + {h};
    }

    method UnregisterHandle(h: IndexHandle)
      modifies this`handles
      ensures handles == old(handles) - {h}
    {
      handles := handles - {h};
    }

    /** Closes every registered handle; each one unregisters itself. */
    method CloseHandles()
      requires forall h :: h in handles ==> h.structure == this && !h.closed
      modifies this`handles, handles
      ensures handles == {}
      ensures forall h :: h in old(handles) ==> h.Detached() && h.structure == this
    {
      var todo := handles;
      while todo != {}
        invariant todo <= old(handles)
        invariant handles == todo
        invariant forall h :: h in todo ==> h.structure == this && !h.closed
        invariant forall h :: h in old(handles) - todo ==> h.Detached() && h.structure == this
      {
        var h :| h in todo;
        h.Close();
        todo := todo - {h};
      }
    }
  }

  // ---------- Index ----------

  class IndexHandle {
    const name: string
    var db: Db?
    var structure: IndexStructure?
    var closed: bool

    constructor (name: string)
      ensures this.name == name && closed && db == null && structure == null
    {
      this.name := name;
      db, structure, closed := null, null, true;
    }

    ghost predicate Detached()
      reads this
    {
      closed && db == null
    }

    /** An open handle: its database is ordered by keycmp and holds keys of its structure. */
    ghost predicate Ready()
      reads this, structure, db
    {
      && !closed && structure != null && db != null
      && structure.Valid() && db.Valid()
      && db.cmp == ByteOrder(structure.types)
      && AllKeys(structure.types, db.records)
    }

    /** A record that this index's format can hold. */
    ghost predicate Accepts(record: Record)
      reads this
    {
      structure != null && structure.Valid() && Compatible(structure.types, record.key)
    }

    ghost function KeyOf(record: Record): seq<Byte>
      requires Accepts(record)
      reads this
    {
      Encode(structure.types, Filling(structure.types, record.key, false))
    }

    /** Db::put of the record, registered under the caller's transaction if there is one. */
    method Insert(tx: Option<Txn>, record: Record) returns (result: ErrorCode)
      requires Ready() && Compatible(structure.types, record.key)
      modifies structure`transactions, db
      ensures Ready()
      ensures tx.Some? ==> structure.GateOf() == old(structure.GateOf()).Start(tx.value)
      ensures tx.None? ==> structure.GateOf() == old(structure.GateOf())
      ensures tx.Some? && structure.readOnly ==> result == KErrorUnknownIndex && db.records == old(db.records)
      ensures !(tx.Some? && structure.readOnly) ==>
                && (result == KOk <==> db.failures == old(db.failures))
                && (result == KOk || result == KErrorGenericFailure)
                && db.records == if result == KOk then Inserted(db.cmp, old(db.records), Rec(KeyOf(record), record.payload))
                                 else old(db.records)
    {
      if tx.Some? {
        var ok := structure.StartTransaction(tx.value);
        if !ok {
          return KErrorUnknownIndex;
        }
      }
      var buffer := structure.GetBDBKey(record.key, false);
      var key := buffer[..];
      EncodeIsKeyBytes(structure.types, Filling(structure.types, record.key, false));
      var err := db.Put(key, record.payload);
      if err != Done {
        return KErrorGenericFailure;
      }
      InsertedAllKeys(structure.types, db.cmp, old(db.records), Rec(key, record.payload));
      return KOk;
    }

    /** Decodes a retrieved key and compares it with the wanted one. */
    method SameKey(found: seq<Byte>, wanted: FullKey, ghost key: seq<Byte>) returns (same: bool)
      requires structure != null && structure.Valid()
      requires KeyBytes(structure.types, found) && KeyBytes(structure.types, key) && wanted == Decode(structure.types, key)
      ensures same <==> BytesCmp(structure.types, found, key) == 0
      ensures same <==> SameDecoded(structure.types, found, wanted)
    {
      var decoded := structure.GetKey(found);
      var c := CompareKeys(decoded, wanted);
      same := c == 0;
    }

    /** The search of Update and Delete: SET_RANGE and a key check, or GET_BOTH. */
    method Locate(cursor: Cursor, key: seq<Byte>, wanted: FullKey, payload: Block, ignore: bool)
      returns (err: DbResult, found: seq<Byte>)
      requires Ready() && cursor.db == db && cursor.Valid()
      requires KeyBytes(structure.types, key) && (ignore ==> wanted == Decode(structure.types, key))
      modifies cursor, db`failures
      ensures cursor.Valid() && db.records == old(db.records)
      ensures err == Failed <==> db.failures != old(db.failures)
      ensures ghost var n := FirstHit(db.cmp, db.records, key, payload, ignore);
              && (err == NotFound ==> n == |db.records|)
              && (err == Done ==> n < |db.records| && cursor.position == On(n) && found == db.records[n].key)
      ensures err == Done && ignore ==> SameDecoded(structure.types, found, wanted)
    {
      var data;
      if ignore {
        err, found, data := cursor.SetRange(key);
        // What was found may have a greater key than the one wanted.
        var same := SameKey(found, wanted, key);
        if !same {
          err := NotFound;
        }
        HitIsLowerBound(db.cmp, db.records, key, payload);
        Flips(db.cmp, key, key);
      } else {
        err, found, data := cursor.GetBoth(key, payload);
      }
    }

    // NEXT_DUP, described by a key equal to the cursor's current one.
    method NextDuplicate(cursor: Cursor, ghost key: seq<Byte>) returns (err: DbResult)
      requires cursor.Valid() && cursor.position != Unset
      requires cursor.db.cmp(cursor.CurrentKey(), key) == 0
      modifies cursor, cursor.db`failures
      ensures cursor.Valid() && cursor.db.records == old(cursor.db.records)
      ensures err == Failed <==> cursor.db.failures != old(cursor.db.failures)
      ensures err == Failed ==> cursor.db.failures > old(cursor.db.failures)
      ensures ghost var recs, at := cursor.db.records, old(cursor.Following());
              && (err == Done ==> at < |recs| && cursor.position == On(at) && cursor.db.cmp(recs[at].key, key) == 0)
              && (err == NotFound ==> at == |recs| || cursor.db.cmp(recs[at].key, key) != 0)
    {
      ghost var current, at := cursor.CurrentKey(), cursor.Following();
      var k, d;
      err, k, d := cursor.NextDup();
      if at < |cursor.db.records| {
        SameClass(cursor.db.cmp, cursor.db.records[at].key, current, key);
      }
    }

    /** The loop of Update over exact matches: NEXT_DUP and put, whatever the payloads are. */
    method OverwriteDuplicates(cursor: Cursor, payload: Block, ghost key: seq<Byte>, ghost from: nat, ghost to: nat)
      returns (err: DbResult, ghost at: nat)
      requires cursor.Valid() && from > 0 && cursor.position == On(from - 1)
      requires cursor.db.cmp(cursor.CurrentKey(), key) == 0
      requires to == RunEnd(cursor.db.cmp, cursor.db.records, from, key)
      modifies cursor, cursor.db
      ensures cursor.Valid()
      ensures Swept(old(cursor.db.records), cursor.db.records, from, to, at, payload, err)
      ensures err == NotFound <==> cursor.db.failures == old(cursor.db.failures)
    {
      var db := cursor.db;
      ghost var was := db.records;
      at := from;
      OverwrittenNone(was, from, payload);
      while true
        invariant cursor.Valid() && from <= at <= to && cursor.position == On(at - 1)
        invariant db.records == Overwritten(was, from, at, payload)
        invariant db.cmp(cursor.CurrentKey(), key) == 0
        invariant to == RunEnd(db.cmp, was, at, key)
        invariant db.failures == old(db.failures)
        decreases |was| - at
      {
        err := NextDuplicate(cursor, key);
        if err != Done {
          break;
        }
        err := cursor.PutCurrent(payload);
        if err != Done {
          break;
        }
        OverwrittenOne(was, from, at, payload);
        at := at + 1;
      }
    }

    /** The loop of Update that ignores payloads: its guard compares a key decoded before the loop. */
    method OverwriteFollowing(cursor: Cursor, cmpkey: FullKey, wanted: FullKey, payload: Block, ghost from: nat)
      returns (err: DbResult, ghost at: nat)
      requires Matching(cmpkey, wanted) && KeyCmp(cmpkey, wanted) == 0
      requires cursor.Valid() && from > 0 && cursor.position == On(from - 1)
      modifies cursor, cursor.db
      ensures cursor.Valid()
      ensures Swept(old(cursor.db.records), cursor.db.records, from, |cursor.db.records|, at, payload, err)
      ensures err == NotFound <==> cursor.db.failures == old(cursor.db.failures)
    {
      var db := cursor.db;
      ghost var was := db.records;
      at := from;
      var k, d;
      OverwrittenNone(was, from, payload);
      while true
        invariant cursor.Valid() && from <= at <= |was| && cursor.position == On(at - 1)
        invariant db.records == Overwritten(was, from, at, payload)
        invariant db.failures == old(db.failures)
        decreases |was| - at
      {
        err, k, d := cursor.Next();
        if err != Done {
          break;
        }
        var c := CompareKeys(cmpkey, wanted);
        if c != 0 {
          break;
        }
        err := cursor.PutCurrent(payload);
        if err != Done {
          break;
        }
        OverwrittenOne(was, from, at, payload);
        at := at + 1;
      }
    }

    // If the change happened inside a larger transaction, that one has modified the index too.
    method RegisterParent(tx: Option<Txn>)
      requires structure != null && !structure.readOnly
      modifies structure`transactions
      ensures structure.transactions == WithParent(old(structure.transactions), tx, true)
    {
      if tx.Some? {
        var ok := structure.StartTransaction(tx.value);
      }
    }

    // The two loops of Update behind the first put.
    method OverwriteRest(cursor: Cursor, found: seq<Byte>, wanted: FullKey, payload: Block, ignore: bool,
                         ghost key: seq<Byte>, ghost from: nat, ghost to: nat)
      returns (err: DbResult, ghost at: nat)
      requires structure != null && structure.Valid()
      requires ignore ==> SameDecoded(structure.types, found, wanted)
      requires cursor.Valid() && from > 0 && cursor.position == On(from - 1) && cursor.db.cmp(cursor.CurrentKey(), key) == 0
      requires to == if ignore then |cursor.db.records| else RunEnd(cursor.db.cmp, cursor.db.records, from, key)
      modifies cursor, cursor.db
      ensures cursor.Valid()
      ensures Swept(old(cursor.db.records), cursor.db.records, from, to, at, payload, err)
      ensures err == NotFound <==> cursor.db.failures == old(cursor.db.failures)
    {
      if !ignore {
        err, at := OverwriteDuplicates(cursor, payload, key, from, to);
      } else {
        var cmpkey := structure.GetKey(found);
        err, at := OverwriteFollowing(cursor, cmpkey, wanted, payload, from);
      }
    }

    /** Update from its first put on: the cursor is at the first match. */
    method UpdateFrom(cursor: Cursor, found: seq<Byte>, wanted: FullKey, payload: Block, all: bool, ignore: bool, tx: Option<Txn>,
                      ghost key: seq<Byte>, ghost from: nat, ghost to: nat)
      returns (result: ErrorCode, ghost at: nat)
      requires structure != null && structure.Valid() && !structure.readOnly
      requires ignore ==> SameDecoded(structure.types, found, wanted)
      requires cursor.Valid() && cursor.position == On(from) && cursor.db.cmp(cursor.CurrentKey(), key) == 0
      requires to == StopFrom(cursor.db.cmp, cursor.db.records, key, all, ignore, from)
      modifies structure`transactions, cursor, cursor.db
      ensures cursor.Valid()
      ensures Updated(old(cursor.db.records), cursor.db.records, from, to, at, payload, all,
                      cursor.db.failures == old(cursor.db.failures), result)
      ensures structure.transactions == WithParent(old(structure.transactions), tx, from < at)
    {
      ghost var was := cursor.db.records;
      var err := cursor.PutCurrent(payload);
      if err != Done {
        NothingUpdated(was, from, to, payload, all);
        return KErrorGenericFailure, from;
      }
      FirstPut(was, from, payload);
      RegisterParent(tx);
      if !all {
        OneUpdated(was, from, payload);
        return KOk, from + 1;
      }
      RunEndByKeys(cursor.db.cmp, was, cursor.db.records, from + 1, key);
      assert cursor.position == On(from) && cursor.CurrentKey() == was[from].key;
      assert to == if ignore then |cursor.db.records| else RunEnd(cursor.db.cmp, cursor.db.records, from + 1, key);
      err, at := OverwriteRest(cursor, found, wanted, payload, ignore, key, from + 1, to);
      RestUpdated(was, cursor.db.records, from, to, at, payload, err);
      result := if err == NotFound then KOk else KErrorNotFound;
    }

    /** Update, once its nested transaction is registered. */
    method UpdateMatches(cursor: Cursor, key: seq<Byte>, wanted: FullKey, wantedPayload: Block, payload: Block,
                         all: bool, ignore: bool, tx: Option<Txn>,
                         ghost from: nat, ghost to: nat)
      returns (result: ErrorCode, ghost at: nat)
      requires Ready() && !structure.readOnly && cursor.db == db && cursor.Valid()
      requires KeyBytes(structure.types, key) && (ignore ==> wanted == Decode(structure.types, key))
      requires from == FirstHit(db.cmp, db.records, key, wantedPayload, ignore) && to == Stop(db.cmp, db.records, key, wantedPayload, all, ignore)
      modifies structure`transactions, cursor, db
      ensures cursor.Valid()
      ensures Updated(old(db.records), db.records, from, to, at, payload, all, db.failures == old(db.failures), result)
      ensures structure.transactions == WithParent(old(structure.transactions), tx, from < at)
    {
      var err, found := Locate(cursor, key, wanted, wantedPayload, ignore);
      if err != Done {
        MissedUpdate(db.records, from, to, payload, all, err);
        result, at := if err == NotFound then KErrorNotFound else KErrorGenericFailure, from;
      } else {
        AtMatch(db.cmp, db.records, key, wantedPayload, all, ignore);
        assert cursor.CurrentKey() == db.records[from].key;
        result, at := UpdateFrom(cursor, found, wanted, payload, all, ignore, tx, key, from, to);
      }
    }

    /**
     Replaces the payload of the first match, and with kMatchDuplicates of what follows it, up to
     `at`.  The caller's transaction is registered exactly if something was replaced.
    */
    method Update(tx: Option<Txn>, record: Record, payload: Block, flags: bv8, tid: Txn) returns (result: ErrorCode, ghost at: nat)
      requires Ready() && Accepts(record)
      requires flags & K_IGNORE_PAYLOAD != 0 ==> NoNulls(record.key)
      requires tid !in structure.transactions && tx != Some(tid)
      modifies structure`transactions, db
      ensures Ready()
      ensures structure.readOnly ==>
                result == KErrorUnknownIndex && db.records == old(db.records) && structure.transactions == old(structure.transactions)
      ensures !structure.readOnly ==>
                ghost var all, ignore := flags & K_MATCH_DUPLICATES != 0, flags & K_IGNORE_PAYLOAD != 0;
                ghost var from := FirstHit(db.cmp, old(db.records), KeyOf(record), record.payload, ignore);
                && Updated(old(db.records), db.records, from,
                           Stop(db.cmp, old(db.records), KeyOf(record), record.payload, all, ignore),
                           at, payload, all, db.failures == old(db.failures), result)
                && structure.transactions == WithParent(old(structure.transactions), tx, from < at)
    {
      var ignore := flags & K_IGNORE_PAYLOAD != 0;
      var all := flags & K_MATCH_DUPLICATES != 0;
      ghost var was := db.records;
      var key, wanted := ConvertKey(record, ignore);
      var ok := structure.StartTransaction(tid);
      if !ok {
        return KErrorUnknownIndex, 0;
      }
      var cursor := new Cursor(db);
      ghost var from := FirstHit(db.cmp, was, key, record.payload, ignore);
      ghost var to := Stop(db.cmp, was, key, record.payload, all, ignore);
      result, at := UpdateMatches(cursor, key, wanted, record.payload, payload, all, ignore, tx, from, to);
      structure.EndTransaction(tid);
      ParentRemains(tx, tid, old(structure.transactions), from < at);
      UpdatedAllKeys(structure.types, was, from, at, payload);
    }

    /** The loop of Delete over exact matches: NEXT_DUP and del, whatever the payloads are. */
    method RemoveDuplicates(cursor: Cursor, ghost key: seq<Byte>, ghost from: nat, ghost to: nat)
      returns (err: DbResult, ghost at: nat)
      requires cursor.Valid() && cursor.position.Hole? && cursor.position.at == from
      requires cursor.db.cmp(cursor.CurrentKey(), key) == 0
      requires to == RunEnd(cursor.db.cmp, cursor.db.records, from, key)
      modifies cursor, cursor.db
      ensures cursor.Valid()
      ensures RemovalSwept(old(cursor.db.records), cursor.db.records, from, to, at, err)
      ensures err == NotFound <==> cursor.db.failures == old(cursor.db.failures)
    {
      var db := cursor.db;
      ghost var was := db.records;
      at := from;
      WithoutNone(was, from);
      while true
        invariant cursor.Valid() && from <= at <= to && cursor.position.Hole? && cursor.position.at == from
        invariant db.records == Without(was, from, at)
        invariant db.cmp(cursor.CurrentKey(), key) == 0
        invariant to == RunEnd(db.cmp, was, at, key)
        invariant db.failures == old(db.failures)
        decreases |was| - at
      {
        WithoutOne(was, from, at);
        err := NextDuplicate(cursor, key);
        if err != Done {
          break;
        }
        err := cursor.Del();
        if err != Done {
          break;
        }
        at := at + 1;
      }
    }

    /** The loop of Delete that ignores payloads: its guard compares a key decoded before the loop. */
    method RemoveFollowing(cursor: Cursor, cmpkey: FullKey, wanted: FullKey, ghost from: nat)
      returns (err: DbResult, ghost at: nat)
      requires Matching(cmpkey, wanted) && KeyCmp(cmpkey, wanted) == 0
      requires cursor.Valid() && cursor.position.Hole? && cursor.position.at == from
      modifies cursor, cursor.db
      ensures cursor.Valid()
      ensures RemovalSwept(old(cursor.db.records), cursor.db.records, from, |old(cursor.db.records)|, at, err)
      ensures err == NotFound <==> cursor.db.failures == old(cursor.db.failures)
    {
      var db := cursor.db;
      ghost var was := db.records;
      at := from;
      var k, d;
      WithoutNone(was, from);
      while true
        invariant cursor.Valid() && from <= at <= |was| && cursor.position.Hole? && cursor.position.at == from
        invariant db.records == Without(was, from, at)
        invariant db.failures == old(db.failures)
        decreases |was| - at
      {
        WithoutOne(was, from, at);
        err, k, d := cursor.Next();
        if err != Done {
          break;
        }
        var c := CompareKeys(cmpkey, wanted);
        if c != 0 {
          break;
        }
        err := cursor.Del();
        if err != Done {
          break;
        }
        at := at + 1;
      }
    }

    // The two loops of Delete behind the first deletion.
    method RemoveRest(cursor: Cursor, found: seq<Byte>, wanted: FullKey, ignore: bool, ghost key: seq<Byte>, ghost from: nat, ghost to: nat)
      returns (err: DbResult, ghost at: nat)
      requires structure != null && structure.Valid()
      requires ignore ==> SameDecoded(structure.types, found, wanted)
      requires cursor.Valid() && cursor.position.Hole? && cursor.position.at == from && cursor.db.cmp(cursor.CurrentKey(), key) == 0
      requires to == if ignore then |cursor.db.records| else RunEnd(cursor.db.cmp, cursor.db.records, from, key)
      modifies cursor, cursor.db
      ensures cursor.Valid()
      ensures RemovalSwept(old(cursor.db.records), cursor.db.records, from, to, at, err)
      ensures err == NotFound <==> cursor.db.failures == old(cursor.db.failures)
    {
      if !ignore {
        err, at := RemoveDuplicates(cursor, key, from, to);
      } else {
        var cmpkey := structure.GetKey(found);
        err, at := RemoveFollowing(cursor, cmpkey, wanted, from);
      }
    }

    // Delete with kMatchDuplicates behind its first deletion; `was` are the records before that.
    method DeleteOthers(cursor: Cursor, found: seq<Byte>, wanted: FullKey, ignore: bool,
                        ghost was: seq<Rec>, ghost key: seq<Byte>, ghost from: nat, ghost to: nat)
      returns (result: ErrorCode, ghost at: nat)
      requires structure != null && structure.Valid()
      requires ignore ==> SameDecoded(structure.types, found, wanted)
      requires cursor.Valid() && cursor.position.Hole? && cursor.position.at == from && cursor.db.cmp(cursor.CurrentKey(), key) == 0
      requires from < |was| && cursor.db.records == Without(was, from, from + 1)
      requires to == StopFrom(cursor.db.cmp, was, key, true, ignore, from)
      modifies cursor, cursor.db
      ensures cursor.Valid() && from < at
      ensures Removed(was, cursor.db.records, from, to, at, true, cursor.db.failures == old(cursor.db.failures), result)
    {
      RestOfRange(cursor.db.cmp, was, key, ignore, from);
      var err;
      err, at := RemoveRest(cursor, found, wanted, ignore, key, from, to - 1);
      RestRemoved(was, cursor.db.records, from, to, at, err);
      at := at + 1;
      result := if err == NotFound then KOk else KErrorGenericFailure;
    }

    /** Delete from its first deletion on: the cursor is at the first match. */
    method DeleteFrom(cursor: Cursor, found: seq<Byte>, wanted: FullKey, all: bool, ignore: bool, tx: Option<Txn>,
                      ghost key: seq<Byte>, ghost from: nat, ghost to: nat)
      returns (result: ErrorCode, ghost at: nat)
      requires structure != null && structure.Valid() && !structure.readOnly
      requires ignore ==> SameDecoded(structure.types, found, wanted)
      requires cursor.Valid() && cursor.position == On(from) && cursor.db.cmp(cursor.CurrentKey(), key) == 0
      requires to == StopFrom(cursor.db.cmp, cursor.db.records, key, all, ignore, from)
      modifies structure`transactions, cursor, cursor.db
      ensures cursor.Valid()
      ensures Removed(old(cursor.db.records), cursor.db.records, from, to, at, all,
                      cursor.db.failures == old(cursor.db.failures), result)
      ensures structure.transactions == WithParent(old(structure.transactions), tx, from < at)
    {
      ghost var was, current := cursor.db.records, cursor.CurrentKey();
      var err := cursor.Del();
      if err != Done {
        NothingRemoved(was, from, to, all);
        return KErrorGenericFailure, from;
      }
      RegisterParent(tx);
      if !all {
        OneRemoved(was, from);
        return KOk, from + 1;
      }
      assert cursor.position == Hole(from, current) && cursor.CurrentKey() == current;
      result, at := DeleteOthers(cursor, found, wanted, ignore, was, key, from, to);
    }

    /** Delete, once its nested transaction is registered. */
    method DeleteMatches(cursor: Cursor, key: seq<Byte>, wanted: FullKey, payload: Block, all: bool, ignore: bool, tx: Option<Txn>,
                         ghost from: nat, ghost to: nat)
      returns (result: ErrorCode, ghost at: nat)
      requires Ready() && !structure.readOnly && cursor.db == db && cursor.Valid()
      requires KeyBytes(structure.types, key) && (ignore ==> wanted == Decode(structure.types, key))
      requires from == FirstHit(db.cmp, db.records, key, payload, ignore) && to == Stop(db.cmp, db.records, key, payload, all, ignore)
      modifies structure`transactions, cursor, db
      ensures cursor.Valid()
      ensures Removed(old(db.records), db.records, from, to, at, all, db.failures == old(db.failures), result)
      ensures structure.transactions == WithParent(old(structure.transactions), tx, from < at)
    {
      var err, found := Locate(cursor, key, wanted, payload, ignore);
      if err != Done {
        MissedRemoval(db.records, from, to, all, err);
        result, at := if err == NotFound then KErrorNotFound else KErrorGenericFailure, from;
      } else {
        AtMatch(db.cmp, db.records, key, payload, all, ignore);
        assert cursor.CurrentKey() == db.records[from].key;
        result, at := DeleteFrom(cursor, found, wanted, all, ignore, tx, key, from, to);
      }
    }

    /**
     Removes the first match, and with kMatchDuplicates what follows it, up to `at`.  The caller's
     transaction is registered exactly if something was removed.
    */
    method Delete(tx: Option<Txn>, record: Record, flags: bv8, tid: Txn) returns (result: ErrorCode, ghost at: nat)
      requires Ready() && Accepts(record)
      requires flags & K_IGNORE_PAYLOAD != 0 ==> NoNulls(record.key)
      requires tid !in structure.transactions && tx != Some(tid)
      modifies structure`transactions, db
      ensures Ready()
      ensures structure.readOnly ==>
                result == KErrorUnknownIndex && db.records == old(db.records) && structure.transactions == old(structure.transactions)
      ensures !structure.readOnly ==>
                ghost var all, ignore := flags & K_MATCH_DUPLICATES != 0, flags & K_IGNORE_PAYLOAD != 0;
                ghost var from := FirstHit(db.cmp, old(db.records), KeyOf(record), record.payload, ignore);
                && Removed(old(db.records), db.records, from,
                           Stop(db.cmp, old(db.records), KeyOf(record), record.payload, all, ignore),
                           at, all, db.failures == old(db.failures), result)
                && structure.transactions == WithParent(old(structure.transactions), tx, from < at)
    {
      var ignore := flags & K_IGNORE_PAYLOAD != 0;
      var all := flags & K_MATCH_DUPLICATES != 0;
      ghost var was := db.records;
      var key, wanted := ConvertKey(record, ignore);
      var ok := structure.StartTransaction(tid);
      if !ok {
        return KErrorUnknownIndex, 0;
      }
      var cursor := new Cursor(db);
      ghost var from := FirstHit(db.cmp, was, key, record.payload, ignore);
      ghost var to := Stop(db.cmp, was, key, record.payload, all, ignore);
      result, at := DeleteMatches(cursor, key, wanted, record.payload, all, ignore, tx, from, to);
      structure.EndTransaction(tid);
      ParentRemains(tx, tid, old(structure.transactions), from < at);
      if AllKeys(structure.types, was) { WithoutAllKeys(structure.types, was, from, at); }
    }

    // The record's key as the store sees it and, where payloads are ignored, as keycmp sees it.
    method ConvertKey(record: Record, ignore: bool) returns (key: seq<Byte>, wanted: FullKey)
      requires Accepts(record) && (ignore ==> NoNulls(record.key))
      ensures key == KeyOf(record) && KeyBytes(structure.types, key)
      ensures ignore ==> wanted == Decode(structure.types, key)
    {
      var buffer := structure.GetBDBKey(record.key, false);
      key, wanted := buffer[..], [];
      EncodeIsKeyBytes(structure.types, Filling(structure.types, record.key, false));
      if ignore {
        wanted := Values(record.key);
        FillingIsValues(structure.types, record.key);
      }
    }

    /** The part of Open behind a successful lookup: registers the handle and opens the database. */
    method Attach(s: IndexStructure, database: Db)
      modifies this, s`handles
      ensures structure == s && db == database && !closed
      ensures s.handles == old(s.handles) + {this}
    {
      structure := s;
      s.RegisterHandle(this);
      db := database;
      closed := false;
    }

    method Close()
      modifies this, (if structure == null then {} else {structure})`handles
      ensures closed && structure == old(structure)
      ensures old(closed) ==> db == old(db) && (structure != null ==> structure.handles == old(structure.handles))
      ensures !old(closed) ==> Detached() && (structure != null ==> structure.handles == old(structure.handles) - {this})
    {
      if closed {
        return;
      }
      closed := true;
      if db != null {
        db := null;
      }
      if structure != null {
        structure.UnregisterHandle(this);
      }
      closed := true;
    }
  }

  /** The caller's transaction is registered as well if it has changed the index. */
  ghost function WithParent(before: set<Txn>, tx: Option<Txn>, changed: bool): set<Txn> {
    if changed && tx.Some? then before + {tx.value} else before
  }

  // The nested transaction was registered for the time of the call.
  lemma ParentRemains(tx: Option<Txn>, tid: Txn, before: set<Txn>, changed: bool)
    requires tid !in before && tx != Some(tid)
    ensures WithParent(before + {tid}, tx, changed) - {tid} == WithParent(before, tx, changed)
  {
  }

  /** The decoded key compares equal to the wanted one. */
  ghost predicate SameDecoded(types: KeyType, found: seq<Byte>, wanted: FullKey) {
    && |found| == KeySize(types)
    && Matching(Decode(types, found), wanted)
    && KeyCmp(Decode(types, found), wanted) == 0
  }

  lemma FillingIsValues(types: KeyType, key: Key)
    requires Compatible(types, key) && NoNulls(key)
    ensures Filling(types, key, false) == Values(key)
  {
  }
}
