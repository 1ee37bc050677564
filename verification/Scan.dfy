/** What draining a range scan yields: order theory over the sorted records (example/Iterator.cc). */
module Scan {
  import opened Interface
  import opened Order
  import opened Codec
  import opened Records
  import opened BoxQuery

  /** The per-attribute test of the scan. */
  predicate Passes(types: KeyType, max: Key, r: Rec) {
    KeyBytes(types, r.key) && Compatible(types, max) && AtMost(Full(Decode(types, r.key)), max)
  }

  /** The record's first attribute is above its maximum: where the scan stops early. */
  predicate Overshoots(types: KeyType, max: Key, r: Rec) {
    && KeyBytes(types, r.key) && Compatible(types, max)
    && |types| > 0 && Exceeds(Some(Decode(types, r.key)[0]), max[0])
  }

  lemma FirstAttributeOrdered(a: FullKey, b: FullKey)
    requires Matching(a, b) && |a| > 0 && KeyCmp(a, b) <= 0
    ensures AttCmp(a[0], b[0]) <= 0
  {
  }

  /** Behind a record that overshoots in its first attribute every record does, so none is lost. */
  lemma OvershootPersists(types: KeyType, max: Key, a: Rec, b: Rec)
    requires KeyBytes(types, b.key)
    requires Overshoots(types, max, a) && BytesCmp(types, a.key, b.key) <= 0
    ensures Overshoots(types, max, b) && !Passes(types, max, b)
  {
    var x, y := Decode(types, a.key), Decode(types, b.key);
    FirstAttributeOrdered(x, y);
    var m := max[0].value;
    AttCmpFlips(x[0], m);
    AttCmpTransitive(m, x[0], y[0]);
    AttCmpFlips(m, y[0]);
    assert Exceeds(Full(y)[0], max[0]);
  }

  /** The records that pass, in store order and with multiplicity. */
  ghost function Passing(types: KeyType, max: Key, recs: seq<Rec>): seq<Rec> {
    if |recs| == 0 then []
    else (if Passes(types, max, recs[0]) then [recs[0]] else []) + Passing(types, max, recs[1..])
  }

  lemma {:induction false} NonePassing(types: KeyType, max: Key, recs: seq<Rec>)
    requires forall i :: 0 <= i < |recs| ==> !Passes(types, max, recs[i])
    ensures Passing(types, max, recs) == []
  {
    if |recs| > 0 {
      NonePassing(types, max, recs[1..]);
    }
  }

  /** Skipping records that do not pass, up to one that does. */
  lemma {:induction false} NextPassing(types: KeyType, max: Key, recs: seq<Rec>, from: nat, at: nat)
    requires from <= at < |recs|
    requires forall i :: from <= i < at ==> !Passes(types, max, recs[i])
    requires Passes(types, max, recs[at])
    ensures Passing(types, max, recs[from..]) == [recs[at]] + Passing(types, max, recs[at + 1..])
    decreases at - from
  {
    assert recs[from..][1..] == recs[from + 1..];
    if from < at {
      NextPassing(types, max, recs, from + 1, at);
    }
  }

  // ---------- The result of a whole scan ----------

  /** The records that the scan's test selects, wherever they stand. */
  ghost function Selected(types: KeyType, min: Key, max: Key, recs: seq<Rec>): seq<Rec>
    requires AllKeys(types, recs) && Compatible(types, min) && Compatible(types, max)
  {
    if |recs| == 0 then []
    else (if InScan(types, Decode(types, recs[0].key), min, max) then [recs[0]] else []) + Selected(types, min, max, recs[1..])
  }

  /** The records that the interface's box query selects. */
  ghost function Boxed(types: KeyType, min: Key, max: Key, recs: seq<Rec>): seq<Rec>
    requires AllKeys(types, recs) && Compatible(types, min) && Compatible(types, max)
  {
    if |recs| == 0 then []
    else (if InBox(types, Decode(types, recs[0].key), min, max) then [recs[0]] else []) + Boxed(types, min, max, recs[1..])
  }

  ghost function MinBytes(types: KeyType, min: Key): seq<Byte>
    requires Compatible(types, min)
  {
    Encode(types, Filling(types, min, false))
  }

  lemma InScanByBytes(types: KeyType, min: Key, max: Key, r: Rec)
    requires KeyBytes(types, r.key) && Compatible(types, min) && Compatible(types, max)
    ensures InScan(types, Decode(types, r.key), min, max) <==>
            BytesCmp(types, r.key, MinBytes(types, min)) >= 0 && Passes(types, max, r)
  {
    EncodeIsKeyBytes(types, Filling(types, min, false));
  }

  /** Starting at the lower bound and filtering by the maximum gives exactly the selected records. */
  lemma {:induction false} ScanSelects(types: KeyType, cmp: Comparator, min: Key, max: Key, recs: seq<Rec>)
    requires cmp == ByteOrder(types)
    requires AllKeys(types, recs) && Ordered(cmp, recs) && Compatible(types, min) && Compatible(types, max)
    ensures var n := LowerBound(cmp, recs, MinBytes(types, min));
            Passing(types, max, recs[n..]) == Selected(types, min, max, recs)
  {
    var n := LowerBound(cmp, recs, MinBytes(types, min));
    if |recs| > 0 {
      if n == 0 {
        ByteOrderTotal(types);
        AllAfter(types, cmp, min, max, recs);
        assert recs[0..] == recs;
      } else {
        TailOrdered(cmp, recs);
        ScanSelects(types, cmp, min, max, recs[1..]);
        BelowLowerBound(types, cmp, min, max, recs);
      }
    }
  }

  /** A first record below the lower bound is not selected, and the scan begins behind it. */
  lemma BelowLowerBound(types: KeyType, cmp: Comparator, min: Key, max: Key, recs: seq<Rec>)
    requires cmp == ByteOrder(types)
    requires AllKeys(types, recs) && Compatible(types, min) && Compatible(types, max)
    requires |recs| > 0 && LowerBound(cmp, recs, MinBytes(types, min)) > 0
    ensures Selected(types, min, max, recs) == Selected(types, min, max, recs[1..])
    ensures recs[LowerBound(cmp, recs, MinBytes(types, min))..] ==
            recs[1..][LowerBound(cmp, recs[1..], MinBytes(types, min))..]
  {
    InScanByBytes(types, min, max, recs[0]);
    assert cmp(recs[0].key, MinBytes(types, min)) < 0;
  }

  lemma TailOrdered(cmp: Comparator, recs: seq<Rec>)
    requires Ordered(cmp, recs) && |recs| > 0
    ensures Ordered(cmp, recs[1..])
  {
    forall i, j | 0 <= i < j < |recs| - 1
      ensures cmp(recs[1..][i].key, recs[1..][j].key) <= 0
    {
      assert cmp(recs[i + 1].key, recs[j + 1].key) <= 0;
    }
  }

  lemma {:induction false} AllAfter(types: KeyType, cmp: Comparator, min: Key, max: Key, recs: seq<Rec>)
    requires cmp == ByteOrder(types) && TotalPreorder(cmp)
    requires AllKeys(types, recs) && Ordered(cmp, recs) && Compatible(types, min) && Compatible(types, max)
    requires LowerBound(cmp, recs, MinBytes(types, min)) == 0
    ensures Passing(types, max, recs) == Selected(types, min, max, recs)
  {
    if |recs| > 0 {
      InScanByBytes(types, min, max, recs[0]);
      if |recs| > 1 {
        AfterLowerBound(cmp, recs, MinBytes(types, min), 1);
      }
      TailOrdered(cmp, recs);
      AllAfter(types, cmp, min, max, recs[1..]);
    }
  }

  /** For bounds that form a prefix range, the scan of any store is the interface's box query. */
  lemma {:induction false} SelectedIsBoxed(types: KeyType, min: Key, max: Key, recs: seq<Rec>)
    requires AllKeys(types, recs) && Compatible(types, min) && Compatible(types, max)
    requires PrefixRange(types, min, max)
    ensures Selected(types, min, max, recs) == Boxed(types, min, max, recs)
  {
    if |recs| > 0 {
      PrefixRangeSuffices(types, min, max, Decode(types, recs[0].key));
      SelectedIsBoxed(types, min, max, recs[1..]);
    }
  }

  /**
   The scan answers the box query on every store exactly when the bounds form a prefix range.  If
   they do not, some store with one record is answered wrongly.
  */
  lemma ScanIsBoxQueryExactly(types: KeyType, min: Key, max: Key)
    requires Compatible(types, min) && Compatible(types, max)
    ensures PrefixRange(types, min, max) <==>
            forall recs: seq<Rec> :: AllKeys(types, recs) && Ordered(ByteOrder(types), recs) ==>
              Selected(types, min, max, recs) == Boxed(types, min, max, recs)
  {
    if PrefixRange(types, min, max) {
      forall recs: seq<Rec> | AllKeys(types, recs) && Ordered(ByteOrder(types), recs)
        ensures Selected(types, min, max, recs) == Boxed(types, min, max, recs)
      {
        SelectedIsBoxed(types, min, max, recs);
      }
    } else {
      var k := PrefixRangeNeeded(types, min, max);
      var recs := [Rec(Encode(types, k), [])];
      OneRecordDiffers(types, min, max, k, recs);
      assert !(Selected(types, min, max, recs) == Boxed(types, min, max, recs));
    }
  }

  // The store that holds only a key that the two tests treat differently.
  lemma OneRecordDiffers(types: KeyType, min: Key, max: Key, k: FullKey, recs: seq<Rec>)
    requires Typed(types, k) && Compatible(types, min) && Compatible(types, max)
    requires InScan(types, k, min, max) != InBox(types, k, min, max)
    requires recs == [Rec(Encode(types, k), [])]
    ensures AllKeys(types, recs) && Ordered(ByteOrder(types), recs)
    ensures Selected(types, min, max, recs) != Boxed(types, min, max, recs)
  {
    EncodeIsKeyBytes(types, k);
    assert recs[1..] == [] && Decode(types, recs[0].key) == k;
    assert |Selected(types, min, max, recs)| != |Boxed(types, min, max, recs)|;
  }

  /** The records with a given key. */
  ghost function WithKey(types: KeyType, point: FullKey, recs: seq<Rec>): seq<Rec>
    requires AllKeys(types, recs) && Typed(types, point)
  {
    if |recs| == 0 then []
    else (if KeyCmp(Decode(types, recs[0].key), point) == 0 then [recs[0]] else []) + WithKey(types, point, recs[1..])
  }

  /** A point query yields every record with that key, each duplicate once. */
  lemma {:induction false} PointQuerySelects(types: KeyType, point: FullKey, recs: seq<Rec>)
    requires AllKeys(types, recs) && Typed(types, point)
    ensures Compatible(types, Full(point))
    ensures Selected(types, Full(point), Full(point), recs) == WithKey(types, point, recs)
  {
    if |recs| > 0 {
      PointQueryExact(types, point, Decode(types, recs[0].key));
      PointQuerySelects(types, point, recs[1..]);
    }
  }
}
