/** The result of a range scan in terms of the values of keys, without the comparison functions of the code. */
module ScanMeaning {
  import opened Interface
  import opened Order
  import opened Codec
  import opened Records
  import opened BoxQuery
  import opened Scan

  /** Where the range of a minimum begins: at its value, and for a NULL at a value that depends on the type. */
  ghost function LowValue(t: AttributeType, a: Option<Attribute>): Value
    requires a.Some? ==> Comparable(a.value)
  {
    if a.Some? then ValueOf(a.value)
    else match t
      case KShort => Number(-0x8000_0000)
      case KInt => Number(-0x8000_0000_0000_0000)
      case KVarchar => String(seq(512, _ => 127))
  }

  ghost function LowValues(types: KeyType, min: Key): seq<Value>
    requires Compatible(types, min)
  {
    seq(|min|, i requires 0 <= i < |min| => LowValue(types[i], min[i]))
  }

  lemma FilledText(c: Byte)
    requires c != 0
    ensures Text(Filled(c)) == seq(512, _ => c)
  {
    TextIs(Filled(c));
    assert Filled(c)[512] == 0 && 0 !in Filled(c)[..512];
    assert |Text(Filled(c))| == 512;
  }

  lemma StandInMeans(t: AttributeType)
    ensures ValueOf(Wildcard(t, false)) == LowValue(t, None)
  {
    if t == KVarchar {
      FilledText(127);
    }
  }

  lemma FillingMeans(types: KeyType, min: Key)
    requires Compatible(types, min)
    ensures ValuesOf(Filling(types, min, false)) == LowValues(types, min)
  {
    forall i | 0 <= i < |min|
      ensures ValuesOf(Filling(types, min, false))[i] == LowValues(types, min)[i]
    {
      StandInMeans(types[i]);
    }
  }

  /** No value is above its maximum; a NULL restricts nothing. */
  ghost predicate Under(k: FullKey, max: Key)
    requires |k| == |max| && forall i :: 0 <= i < |k| ==> Comparable(k[i]) && (max[i].Some? ==> Comparable(max[i].value))
  {
    forall i :: 0 <= i < |k| && max[i].Some? ==> !Before(ValueOf(max[i].value), ValueOf(k[i]))
  }

  lemma UnderMeans(types: KeyType, k: FullKey, max: Key)
    requires Typed(types, k) && Compatible(types, max)
    ensures AtMost(Full(k), max) <==> Under(k, max)
  {
    forall i | 0 <= i < |k|
      ensures Exceeds(Full(k)[i], max[i]) <==> max[i].Some? && Before(ValueOf(max[i].value), ValueOf(k[i]))
    {
      if max[i].Some? { AttCmpBefore(k[i], max[i].value); }
    }
  }

  /** The scan selects the keys whose values are lexicographically not before the minimum's and one by one not above the maximum's. */
  lemma InScanMeans(types: KeyType, k: FullKey, min: Key, max: Key)
    requires Typed(types, k) && Compatible(types, min) && Compatible(types, max)
    ensures InScan(types, k, min, max) <==> !LexBefore(ValuesOf(k), LowValues(types, min)) && Under(k, max)
  {
    KeyCmpMeans(k, Filling(types, min, false));
    FillingMeans(types, min);
    UnderMeans(types, k, max);
  }

  /** The box query selects the keys of which every value lies between its bounds. */
  lemma InBoxMeans(types: KeyType, k: FullKey, min: Key, max: Key)
    requires Typed(types, k) && Compatible(types, min) && Compatible(types, max)
    ensures InBox(types, k, min, max) <==>
            && (forall i :: 0 <= i < |k| && min[i].Some? ==> !Before(ValueOf(k[i]), ValueOf(min[i].value)))
            && Under(k, max)
  {
    forall i | 0 <= i < |k|
      ensures Exceeds(min[i], Full(k)[i]) <==> min[i].Some? && Before(ValueOf(k[i]), ValueOf(min[i].value))
    {
      if min[i].Some? { AttCmpBefore(min[i].value, k[i]); }
    }
    UnderMeans(types, k, max);
  }

  /** A NULL varchar minimum selects exactly the strings that are not before 512 characters of code 127. */
  lemma NullVarcharSelects(k: Attribute)
    requires k.Varchar? && Comparable(k)
    ensures InScan([KVarchar], [k], [None], [None]) <==> !TextBefore(Text(k.charValue), seq(512, _ => 127))
  {
    var types, key, none := [KVarchar], [k], [None];
    InScanMeans(types, key, none, none);
    var v, low := ValuesOf(key), LowValues(types, none);
    assert v == [String(Text(k.charValue))] && low == [String(seq(512, _ => 127))];
    LexBeforeMore(v[0], [], low[0], []);
    assert v == [v[0]] + [] && low == [low[0]] + [];
    assert !LexBefore([], []);
  }

  /** Every record that the scan's test selects is there as often as in the store, and no other. */
  lemma {:induction false} SelectedCounts(types: KeyType, min: Key, max: Key, recs: seq<Rec>, r: Rec)
    requires AllKeys(types, recs) && KeyBytes(types, r.key) && Compatible(types, min) && Compatible(types, max)
    ensures multiset(Selected(types, min, max, recs))[r] ==
            if InScan(types, Decode(types, r.key), min, max) then multiset(recs)[r] else 0
  {
    if |recs| > 0 {
      SelectedCounts(types, min, max, recs[1..], r);
      assert recs == [recs[0]] + recs[1..];
    }
  }

  /** The selected records are records of the store, in its order. */
  lemma {:induction false} SelectedOrdered(types: KeyType, cmp: Comparator, min: Key, max: Key, recs: seq<Rec>)
    requires AllKeys(types, recs) && Ordered(cmp, recs) && Compatible(types, min) && Compatible(types, max)
    ensures Ordered(cmp, Selected(types, min, max, recs))
    ensures forall r :: r in Selected(types, min, max, recs) ==> r in recs
  {
    if |recs| > 0 {
      TailOrdered(cmp, recs);
      SelectedOrdered(types, cmp, min, max, recs[1..]);
      var rest, all := Selected(types, min, max, recs[1..]), Selected(types, min, max, recs);
      if all != rest {
        assert all == [recs[0]] + rest;
        forall i, j | 0 <= i < j < |all|
          ensures cmp(all[i].key, all[j].key) <= 0
        {
          assert all[j] == rest[j - 1];
          if i == 0 {
            HeadFirst(cmp, recs, rest[j - 1]);
          } else {
            assert cmp(rest[i - 1].key, rest[j - 1].key) <= 0;
          }
        }
      }
    }
  }

  lemma HeadFirst(cmp: Comparator, recs: seq<Rec>, r: Rec)
    requires Ordered(cmp, recs) && |recs| > 0 && r in recs[1..]
    ensures cmp(recs[0].key, r.key) <= 0
  {
    var j :| 0 <= j < |recs| - 1 && recs[1..][j] == r;
    assert cmp(recs[0].key, recs[j + 1].key) <= 0;
  }

  /** A point query delivers a record that was inserted under the key, in addition to those that it delivered before. */
  lemma PointQueryFindsInserted(types: KeyType, recs: seq<Rec>, key: FullKey, payload: Block)
    requires AllKeys(types, recs) && Typed(types, key)
    ensures var r := Rec(Encode(types, key), payload);
            var after := Inserted(ByteOrder(types), recs, r);
            && AllKeys(types, after) && Compatible(types, Full(key))
            && multiset(Selected(types, Full(key), Full(key), after))[r] ==
               multiset(Selected(types, Full(key), Full(key), recs))[r] + 1
  {
    EncodeIsKeyBytes(types, key);
    var r := Rec(Encode(types, key), payload);
    var after := Inserted(ByteOrder(types), recs, r);
    InsertedAllKeys(types, ByteOrder(types), recs, r);
    InsertedMultiset(ByteOrder(types), recs, r);
    KeyCmpZero(key, key);
    PointQueryExact(types, key, key);
    SelectedCounts(types, Full(key), Full(key), recs, r);
    SelectedCounts(types, Full(key), Full(key), after, r);
  }
}
