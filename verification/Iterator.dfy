/** The range iterator (example/Iterator.cc). */
module Iterators {
  import opened Interface
  import opened Order
  import opened Codec
  import opened Records
  import opened Store
  import opened Index
  import opened Scan

  class IndexIterator {
    const structure: IndexStructure
    const cursor: Cursor
    const minKey: Key
    const maxKey: Key
    var key: seq<Byte>
    var value: Block
    var closed: bool
    var end: bool
    var initialized: bool

    /** The format of the index, the bounds, and a store ordered by the index's comparator. */
    ghost predicate Valid()
      reads this, cursor, cursor.db
    {
      && structure.Valid() && cursor.Valid()
      && cursor.db.cmp == ByteOrder(structure.types)
      && AllKeys(structure.types, cursor.db.records)
      && Compatible(structure.types, minKey) && Compatible(structure.types, maxKey)
      && (!initialized ==> key == MinBytes(structure.types, minKey))
      && (initialized && !end ==>
            cursor.position.On? && Rec(key, value) == cursor.db.records[cursor.position.at])
    }

    /** The first record that the next call looks at. */
    ghost function Pending(): nat
      requires Valid() && !end
      reads this, cursor, cursor.db
    {
      if initialized then cursor.position.at + 1
      else LowerBound(cursor.db.cmp, cursor.db.records, MinBytes(structure.types, minKey))
    }

    constructor (index: IndexHandle, minKey: Key, maxKey: Key)
      requires index.Ready()
      requires Compatible(index.structure.types, minKey) && Compatible(index.structure.types, maxKey)
      ensures Valid() && !closed && !end && !initialized
      ensures structure == index.structure && cursor.db == index.db && fresh(cursor)
      ensures this.minKey == minKey && this.maxKey == maxKey
    {
      structure := index.structure;
      this.minKey := minKey;
      this.maxKey := maxKey;
      closed, end, initialized := false, false, false;
      var c := new Cursor(index.db);
      cursor := c;
      value := [];
      var buffer := index.structure.GetBDBKey(minKey, false);
      key := buffer[..];
    }

    // Ends the iteration; the cursor is closed and must not be used any more.
    method SetEnded()
      modifies this`end
      ensures end
    {
      end := true;
    }

    method Close()
      modifies this`closed
      ensures closed
    {
      closed := true;
    }

    /** The cursor is at this record, which is also in the buffers. */
    ghost predicate OnRecord(at: nat)
      reads this`key, this`value, cursor, cursor.db
    {
      cursor.Valid() && cursor.position == On(at) && Rec(key, value) == cursor.db.records[at]
    }

    // What every fetch promises when it may stop only at one position.
    twostate predicate Fetched(err: DbResult, at: nat)
      reads this`key, this`value, cursor, cursor.db
    {
      && cursor.Valid() && cursor.db.records == old(cursor.db.records)
      && (err == Done ==> at < |cursor.db.records| && OnRecord(at))
      && (err == NotFound ==> at == |cursor.db.records|)
      && (err == Failed <==> cursor.db.failures != old(cursor.db.failures))
      && (err == Failed ==> cursor.db.failures > old(cursor.db.failures))
    }

    method FetchNext(ghost at: nat) returns (err: DbResult)
      requires OnRecord(at)
      modifies this`key, this`value, cursor, cursor.db`failures
      ensures Fetched(err, at + 1)
      ensures err == Done ==> OnRecord(at + 1)
    {
      err, key, value := cursor.Next();
    }

    // Fetches the first record of the range, or the one behind the current record.
    method Fetch() returns (err: DbResult)
      requires Valid() && !end
      modifies this`key, this`value, this`initialized, cursor, cursor.db`failures
      ensures initialized && Fetched(err, old(Pending()))
    {
      if !initialized {
        err, key, value := cursor.SetRange(key);
        initialized := true;
      } else {
        err := FetchNext(cursor.position.at);
      }
    }

    // Decodes the current key and checks it against the maximum.
    method InBounds() returns (ok: bool, index: nat)
      requires structure.Valid() && KeyBytes(structure.types, key) && Compatible(structure.types, maxKey)
      ensures ok <==> Passes(structure.types, maxKey, Rec(key, value))
      ensures !ok ==> (index == 0 <==> Overshoots(structure.types, maxKey, Rec(key, value)))
    {
      var decoded := structure.GetKey(key);
      ok, index := CheckBounds(Full(decoded), maxKey);
    }

    // The loop of Next: skips records that do not pass, and stops at one that overshoots.
    method Skip(ghost from: nat) returns (inside: bool, err: DbResult)
      requires structure.Valid() && Compatible(structure.types, maxKey) && AllKeys(structure.types, cursor.db.records)
      requires cursor.db.cmp == ByteOrder(structure.types)
      requires OnRecord(from)
      modifies this`key, this`value, cursor, cursor.db`failures
      ensures cursor.db.records == old(cursor.db.records)
      ensures err == Failed <==> cursor.db.failures != old(cursor.db.failures)
      ensures inside ==> cursor.position.On? && OnRecord(cursor.position.at) && err == Done
      ensures inside ==> Found(structure.types, maxKey, cursor.db.records, from, cursor.position.at)
      ensures !inside && err != Failed ==> Found(structure.types, maxKey, cursor.db.records, from, |cursor.db.records|)
    {
      ghost var recs, at := cursor.db.records, from;
      err := Done;
      while err == Done
        invariant cursor.db.records == recs
        invariant err == Done ==> OnRecord(at)
        invariant err == NotFound ==> at == |recs|
        invariant Skipped(structure.types, maxKey, recs, from, at)
        invariant err == Failed <==> cursor.db.failures != old(cursor.db.failures)
        decreases |recs| - at, err == Done
      {
        var index;
        assert Rec(key, value) == recs[at];
        inside, index := InBounds();
        if inside {
          FoundHere(structure.types, maxKey, recs, from, at);
          return true, Done;
        }
        SkipMore(structure.types, maxKey, recs, from, at);
        if index == 0 {
          StopLosesNothing(structure.types, cursor.db.cmp, maxKey, recs, from, at);
          return false, Done;
        }
        err := FetchNext(at);
        at := at + 1;
      }
      inside := false;
    }

    /**
     Moves to the next record that passes the maximum, or ends.  Stopping at the first record whose
     first attribute is too great loses nothing.  Must not be called again after the end.
    */
    method Next() returns (ok: bool)
      requires Valid() && !end
      modifies this`key, this`value, this`initialized, this`end, this`closed, cursor, cursor.db`failures
      ensures initialized && cursor.db.records == old(cursor.db.records)
      ensures ok <==> cursor.db.failures == old(cursor.db.failures)
      ensures !ok ==> end && closed
      ensures ok ==> closed == old(closed)
      ensures ok && end ==> Found(structure.types, maxKey, cursor.db.records, old(Pending()), |cursor.db.records|)
      ensures ok && !end ==>
                Valid() && Found(structure.types, maxKey, cursor.db.records, old(Pending()), cursor.position.at)
    {
      ghost var from := Pending();
      var err := Fetch();
      if err == Done {
        var inside;
        inside, err := Skip(from);
        if inside {
          return true;
        }
      }
      SetEnded();
      if err == Failed {
        Close();
        return false;
      }
      return true;
    }

    /** The record that the iterator refers to, decoded. */
    method Value() returns (record: Record)
      requires Valid() && initialized && !end
      ensures ghost var r := cursor.db.records[cursor.position.at];
              record == Record(Full(Decode(structure.types, r.key)), r.data)
    {
      var decoded := structure.GetKey(key);
      record := Record(Full(decoded), value);
    }
  }

  /** Nothing between two positions passes, and the record at the second one, if any, does. */
  ghost predicate Found(types: KeyType, max: Key, recs: seq<Rec>, from: nat, at: nat)
  {
    && from <= at <= |recs|
    && (forall i :: from <= i < at ==> !Passes(types, max, recs[i]))
    && (at < |recs| ==> Passes(types, max, recs[at]))
  }

  /** Nothing between two positions passes. */
  ghost predicate Skipped(types: KeyType, max: Key, recs: seq<Rec>, from: nat, at: nat)
  {
    from <= at <= |recs| && forall i :: from <= i < at ==> !Passes(types, max, recs[i])
  }

  lemma FoundHere(types: KeyType, max: Key, recs: seq<Rec>, from: nat, at: nat)
    requires Skipped(types, max, recs, from, at) && at < |recs| && Passes(types, max, recs[at])
    ensures Found(types, max, recs, from, at)
  {
  }

  lemma SkipMore(types: KeyType, max: Key, recs: seq<Rec>, from: nat, at: nat)
    requires Skipped(types, max, recs, from, at) && at < |recs| && !Passes(types, max, recs[at])
    ensures Skipped(types, max, recs, from, at + 1)
  {
  }

  lemma StopLosesNothing(types: KeyType, cmp: Comparator, max: Key, recs: seq<Rec>, from: nat, at: nat)
    requires cmp == ByteOrder(types)
    requires AllKeys(types, recs) && Ordered(cmp, recs) && Compatible(types, max)
    requires at < |recs| && Overshoots(types, max, recs[at])
    requires Skipped(types, max, recs, from, at)
    ensures Found(types, max, recs, from, |recs|)
  {
    forall i | at < i < |recs|
      ensures !Passes(types, max, recs[i])
    {
      assert cmp(recs[at].key, recs[i].key) <= 0;
      OvershootPersists(types, max, recs[at], recs[i]);
    }
  }
}
