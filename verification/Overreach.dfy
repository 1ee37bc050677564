/** Concrete stores on which kMatchDuplicates changes too much, or reports that it found nothing. */
module Overreach {
  import opened Interface
  import opened Codec
  import opened Records
  import opened Modification
  import opened ModificationLaws

  const TYPES: KeyType := [KInt]

  function KeyOf(n: Int64): (k: seq<Byte>)
    ensures KeyBytes(TYPES, k)
  {
    EncodeIsKeyBytes(TYPES, [Int(n)]);
    Encode(TYPES, [Int(n)])
  }

  lemma CompareKeys(m: Int64, n: Int64)
    ensures ByteOrder(TYPES)(KeyOf(m), KeyOf(n)) == if m < n then -1 else if m > n then 1 else 0
  {
    BytesCmpAgrees(TYPES, [Int(m)], [Int(n)]);
  }

  // What a caller who asks to modify `recs[0]` with kMatchDuplicates gets, if the loop sweeps both records.
  ghost predicate SweepsBoth(recs: seq<Rec>, ignore: bool)
    requires |recs| == 2
  {
    var cmp, key, data := ByteOrder(TYPES), recs[0].key, recs[0].data;
    && AllKeys(TYPES, recs) && Ordered(cmp, recs)
    && FirstHit(cmp, recs, key, data, ignore) == 0
    && Stop(cmp, recs, key, data, true, ignore) == 2
    && !Hits(cmp, recs[1], key, data, ignore)
  }

  // Two records in key order, of which only the first matches, and the second is in reach of the loop.
  lemma BothSwept(a: Rec, b: Rec, ignore: bool)
    requires KeyBytes(TYPES, a.key) && KeyBytes(TYPES, b.key)
    requires var cmp := ByteOrder(TYPES);
             && cmp(a.key, a.key) == 0 && cmp(a.key, b.key) <= 0
             && if ignore then cmp(b.key, a.key) != 0 else cmp(b.key, a.key) == 0 && b.data != a.data
    ensures SweepsBoth([a, b], ignore)
  {
    var cmp, recs := ByteOrder(TYPES), [a, b];
    assert Hits(cmp, recs[0], a.key, a.data, ignore);
    if !ignore {
      assert RunEnd(cmp, recs, 2, a.key) == 2;
    }
  }

  /** Ignoring payloads, a modification of key 1 also reaches key 2. */
  lemma GreaterKeyIsSwept()
    ensures SweepsBoth([Rec(KeyOf(1), []), Rec(KeyOf(2), [])], true)
  {
    CompareKeys(1, 1);
    CompareKeys(1, 2);
    CompareKeys(2, 1);
    BothSwept(Rec(KeyOf(1), []), Rec(KeyOf(2), []), true);
  }

  /** Matching payloads, a modification of (1, "") also reaches the other payload of key 1. */
  lemma OtherPayloadIsSwept()
    ensures SweepsBoth([Rec(KeyOf(1), []), Rec(KeyOf(1), [7])], false)
  {
    CompareKeys(1, 1);
    BothSwept(Rec(KeyOf(1), []), Rec(KeyOf(1), [7]), false);
  }

  /** On such a store Delete removes a record that does not match, and Update overwrites it. */
  lemma SweptIsLost(recs: seq<Rec>, ignore: bool, payload: Block)
    requires |recs| == 2 && SweepsBoth(recs, ignore)
    ensures var cmp, key, data := ByteOrder(TYPES), recs[0].key, recs[0].data;
            var from, to := FirstHit(cmp, recs, key, data, ignore), Stop(cmp, recs, key, data, true, ignore);
            && Without(recs, from, to) == []
            && NonMatching(cmp, recs, key, data, ignore) == [recs[1]]
            && Overwritten(recs, from, to, payload)[1].data == payload
            && AllReplaced(cmp, recs, key, data, ignore, payload)[1] == recs[1]
  {
    var cmp, key, data := ByteOrder(TYPES), recs[0].key, recs[0].data;
    assert recs[1..] == [recs[1]] && recs[1..][1..] == [];
    assert NonMatching(cmp, recs[1..], key, data, ignore) == [recs[1]];
  }

  /**
   Two equal records, and an Update of both whose loop fails behind the first put: the only result the
   call can have is kErrorNotFound, with one record changed.
  */
  lemma FailureIsNotFound(e: ErrorCode)
    ensures var r := Rec(KeyOf(1), []);
            var recs, cmp := [r, r], ByteOrder(TYPES);
            && FirstHit(cmp, recs, r.key, [], false) == 0 && Stop(cmp, recs, r.key, [], true, false) == 2
            && (Updated(recs, [Rec(r.key, [7]), r], 0, 2, 1, [7], true, false, e) <==> e == KErrorNotFound)
  {
    CompareKeys(1, 1);
    EqualPair(Rec(KeyOf(1), []));
    FailureOnPair(Rec(KeyOf(1), []), [7], e);
  }

  lemma FailureOnPair(r: Rec, payload: Block, e: ErrorCode)
    ensures Updated([r, r], [Rec(r.key, payload), r], 0, 2, 1, payload, true, false, e) <==> e == KErrorNotFound
  {
    assert Overwritten([r, r], 0, 1, payload) == [Rec(r.key, payload), r];
  }

  lemma EqualPair(r: Rec)
    requires ByteOrder(TYPES)(r.key, r.key) == 0
    ensures FirstHit(ByteOrder(TYPES), [r, r], r.key, r.data, false) == 0
    ensures Stop(ByteOrder(TYPES), [r, r], r.key, r.data, true, false) == 2
  {
    var cmp, recs := ByteOrder(TYPES), [r, r];
    assert Hits(cmp, recs[0], r.key, r.data, false);
    assert RunEnd(cmp, recs, 2, r.key) == 2;
  }
}
