/**
 What a range scan selects, compared with what the interface asks for.

 The scan (example/Iterator.cc) starts at the encoded minimum key and checks only the maximum for
 each attribute, so its lower bound is lexicographic.  The interface describes a box: every
 attribute lies between its two bounds, and a NULL bound restricts nothing.
*/
module BoxQuery {
  import opened Interface
  import opened Order
  import opened Codec

  /** The scan's test: at or after the encoded minimum, and no attribute above its maximum. */
  predicate InScan(types: KeyType, k: FullKey, min: Key, max: Key)
    requires Typed(types, k) && Compatible(types, min) && Compatible(types, max)
  {
    KeyCmp(k, Filling(types, min, false)) >= 0 && AtMost(Full(k), max)
  }

  /** The interface's test: every attribute lies between its bounds. */
  predicate InBox(types: KeyType, k: FullKey, min: Key, max: Key)
    requires Typed(types, k) && Compatible(types, min) && Compatible(types, max)
  {
    AtMost(min, Full(k)) && AtMost(Full(k), max)
  }

  // ---------- The exact condition ----------

  /** The greatest value that the bound allows. */
  function Ceiling(t: AttributeType, a: Option<Attribute>): Attribute {
    if a.Some? then a.value else Greatest(t)
  }

  /** No attribute is bounded from below: each is NULL or the least value of its type. */
  predicate NoLowerBound(types: KeyType, min: Key)
    requires Compatible(types, min)
  {
    forall j :: 0 <= j < |min| ==> min[j].None? || AttCmp(min[j].value, Least(types[j])) <= 0
  }

  /** Some attribute's minimum is above its maximum, so the box is empty. */
  predicate EmptyBox(types: KeyType, min: Key, max: Key)
    requires Compatible(types, min) && Compatible(types, max)
  {
    exists j :: 0 <= j < |min| && Exceeds(min[j], max[j])
  }

  /**
   The bounds describe an interval of the lexicographic order: as long as the attributes are fixed
   to one value the next one may be restricted, but once an attribute has room above its minimum no
   later one may have a lower bound.  A NULL minimum whose stand-in is not the least value
   (varchars) is tolerated only when the rest of the box is empty.
  */
  predicate PrefixRange(types: KeyType, min: Key, max: Key)
    requires Compatible(types, min) && Compatible(types, max)
  {
    |types| == 0 ||
    var low := OrWildcard(types[0], min[0], false);
    var high := Ceiling(types[0], max[0]);
    && (AttCmp(low, high) < 0 ==> NoLowerBound(types[1..], min[1..]))
    && (min[0].None? && AttCmp(Least(types[0]), low) < 0 ==> EmptyBox(types[1..], min[1..], max[1..]))
    && (AttCmp(low, high) <= 0 ==> PrefixRange(types[1..], min[1..], max[1..]))
  }

  // ---------- Working on one attribute at a time ----------

  lemma FirstAndRest(types: KeyType, k: FullKey, min: Key, max: Key)
    requires |types| > 0
    requires Typed(types, k) && Compatible(types, min) && Compatible(types, max)
    ensures AtMost(min, Full(k)) <==> !Exceeds(min[0], Some(k[0])) && AtMost(min[1..], Full(k[1..]))
    ensures AtMost(Full(k), max) <==> !Exceeds(Some(k[0]), max[0]) && AtMost(Full(k[1..]), max[1..])
    ensures Filling(types, min, false)[1..] == Filling(types[1..], min[1..], false)
  {
    assert Full(k)[1..] == Full(k[1..]);
    assert forall i :: 0 < i < |k| ==> Full(k)[i] == Full(k[1..])[i - 1] && min[i] == min[1..][i - 1] && max[i] == max[1..][i - 1];
    assert forall i :: 0 <= i < |k| - 1 ==> Full(k[1..])[i] == Full(k)[i + 1] && min[1..][i] == min[i + 1] && max[1..][i] == max[i + 1];
  }

  lemma CeilingBounds(t: AttributeType, a: Attribute, bound: Option<Attribute>)
    requires TypeOf(a) == t && Comparable(a)
    requires bound.Some? ==> TypeOf(bound.value) == t && Comparable(bound.value)
    ensures AttCmp(a, Ceiling(t, bound)) <= 0 <==> !Exceeds(Some(a), bound)
  {
    Extremes(a);
  }

  // The key made of the least value of every type.
  function LeastKey(types: KeyType): (k: FullKey)
    ensures Typed(types, k)
  {
    seq(|types|, i requires 0 <= i < |types| => Least(types[i]))
  }

  lemma LeastKeyAtMost(types: KeyType, max: Key)
    requires Compatible(types, max)
    ensures AtMost(Full(LeastKey(types)), max)
  {
    forall i | 0 <= i < |types|
      ensures !Exceeds(Full(LeastKey(types))[i], max[i])
    {
      if max[i].Some? { Extremes(max[i].value); }
    }
  }

  // A point of a box that is not empty: the minimum where it is given.
  function Corner(types: KeyType, min: Key): (k: FullKey)
    requires Compatible(types, min)
    ensures Typed(types, k)
  {
    seq(|types|, i requires 0 <= i < |types| => if min[i].Some? then min[i].value else Least(types[i]))
  }

  lemma AttCmpReflexive(a: Attribute)
    requires Comparable(a)
    ensures AttCmp(a, a) == 0
  {
    AttCmpZero(a, a);
  }

  lemma CornerInBox(types: KeyType, min: Key, max: Key)
    requires Compatible(types, min) && Compatible(types, max)
    requires !EmptyBox(types, min, max)
    ensures InBox(types, Corner(types, min), min, max)
  {
    var k := Corner(types, min);
    forall i | 0 <= i < |types|
      ensures !Exceeds(min[i], Full(k)[i]) && !Exceeds(Full(k)[i], max[i])
    {
      AttCmpReflexive(k[i]);
      assert !Exceeds(min[i], max[i]);
      if max[i].Some? { Extremes(max[i].value); }
    }
  }

  /** A key without a lower bound is at most every key of its types. */
  lemma NoLowerBoundAtMost(types: KeyType, min: Key, k: FullKey)
    requires Compatible(types, min) && Typed(types, k)
    requires NoLowerBound(types, min)
    ensures AtMost(min, Full(k))
  {
    forall i | 0 <= i < |types|
      ensures !Exceeds(min[i], Full(k)[i])
    {
      Extremes(k[i]);
      if min[i].Some? { AttCmpTransitive(min[i].value, Least(types[i]), k[i]); }
    }
  }

  // ---------- The condition is sufficient ----------

  lemma {:induction false} PrefixRangeSuffices(types: KeyType, min: Key, max: Key, k: FullKey)
    requires Typed(types, k) && Compatible(types, min) && Compatible(types, max)
    requires PrefixRange(types, min, max)
    ensures InScan(types, k, min, max) <==> InBox(types, k, min, max)
  {
    if |types| > 0 {
      FirstAndRest(types, k, min, max);
      var low := OrWildcard(types[0], min[0], false);
      var high := Ceiling(types[0], max[0]);
      AttCmpFlips(k[0], low);
      if !Exceeds(Some(k[0]), max[0]) {
        CeilingBounds(types[0], k[0], max[0]);
        if AttCmp(k[0], low) > 0 {
          AttCmpTransitive(low, k[0], high);
          NoLowerBoundAtMost(types[1..], min[1..], k[1..]);
        } else if AttCmp(k[0], low) == 0 {
          AttCmpTransitive(low, k[0], high);
          PrefixRangeSuffices(types[1..], min[1..], max[1..], k[1..]);
        } else if min[0].None? {
          Extremes(k[0]);
          AttCmpTransitive(Least(types[0]), k[0], low);
          EmptyBoxHasNone(types[1..], min[1..], max[1..], k[1..]);
        }
      }
    }
  }

  lemma EmptyBoxHasNone(types: KeyType, min: Key, max: Key, k: FullKey)
    requires Typed(types, k) && Compatible(types, min) && Compatible(types, max)
    requires EmptyBox(types, min, max)
    ensures !InBox(types, k, min, max)
  {
    var j :| 0 <= j < |min| && Exceeds(min[j], max[j]);
    if !Exceeds(min[j], Full(k)[j]) && !Exceeds(Full(k)[j], max[j]) {
      AttCmpTransitive(min[j].value, k[j], max[j].value);
    }
  }

  // ---------- The condition is necessary ----------

  lemma SplitTests(types: KeyType, first: Attribute, rest: FullKey, min: Key, max: Key) returns (k: FullKey)
    requires |types| > 0 && TypeOf(first) == types[0] && Comparable(first) && Typed(types[1..], rest)
    requires Compatible(types, min) && Compatible(types, max)
    ensures k == [first] + rest && Typed(types, k)
    ensures InBox(types, k, min, max) <==>
            && !Exceeds(min[0], Some(first)) && !Exceeds(Some(first), max[0])
            && InBox(types[1..], rest, min[1..], max[1..])
    ensures InScan(types, k, min, max) <==>
            && !Exceeds(Some(first), max[0])
            && AtMost(Full(rest), max[1..])
            && var c := AttCmp(first, OrWildcard(types[0], min[0], false));
               c > 0 || (c == 0 && InScan(types[1..], rest, min[1..], max[1..]))
  {
    k := [first] + rest;
    assert k[1..] == rest;
    FirstAndRest(types, k, min, max);
  }

  // Room above the minimum: a key with a greater first attribute and the least values after it.
  lemma RoomAbove(types: KeyType, min: Key, max: Key) returns (k: FullKey)
    requires |types| > 0 && Compatible(types, min) && Compatible(types, max)
    requires AttCmp(OrWildcard(types[0], min[0], false), Ceiling(types[0], max[0])) < 0
    requires !NoLowerBound(types[1..], min[1..])
    ensures Typed(types, k) && InScan(types, k, min, max) && !InBox(types, k, min, max)
  {
    var high := Ceiling(types[0], max[0]);
    var rest := types[1..];
    k := SplitTests(types, high, LeastKey(rest), min, max);
    CeilingBounds(types[0], high, max[0]);
    AttCmpReflexive(high);
    AttCmpFlips(OrWildcard(types[0], min[0], false), high);
    LeastKeyAtMost(rest, max[1..]);
    var j :| 0 <= j < |rest| && min[1..][j].Some? && AttCmp(min[1..][j].value, Least(rest[j])) > 0;
    assert Exceeds(min[1..][j], Full(LeastKey(rest))[j]);
  }

  // A wildcard whose stand-in is not the least value: a key below the stand-in.
  lemma RoomBelow(types: KeyType, min: Key, max: Key) returns (k: FullKey)
    requires |types| > 0 && Compatible(types, min) && Compatible(types, max)
    requires min[0].None? && AttCmp(Least(types[0]), OrWildcard(types[0], min[0], false)) < 0
    requires !EmptyBox(types[1..], min[1..], max[1..])
    ensures Typed(types, k) && !InScan(types, k, min, max) && InBox(types, k, min, max)
  {
    var rest := types[1..];
    k := SplitTests(types, Least(types[0]), Corner(rest, min[1..]), min, max);
    CornerInBox(rest, min[1..], max[1..]);
    if max[0].Some? { Extremes(max[0].value); }
  }

  /** When the condition fails, some key is treated differently by the scan and by the box. */
  lemma {:induction false} PrefixRangeNeeded(types: KeyType, min: Key, max: Key) returns (k: FullKey)
    requires Compatible(types, min) && Compatible(types, max)
    requires !PrefixRange(types, min, max)
    ensures Typed(types, k)
    ensures InScan(types, k, min, max) != InBox(types, k, min, max)
  {
    var low := OrWildcard(types[0], min[0], false);
    var rest := types[1..];
    if AttCmp(low, Ceiling(types[0], max[0])) < 0 && !NoLowerBound(rest, min[1..]) {
      k := RoomAbove(types, min, max);
    } else if min[0].None? && AttCmp(Least(types[0]), low) < 0 && !EmptyBox(rest, min[1..], max[1..]) {
      k := RoomBelow(types, min, max);
    } else {
      // The first attribute can equal its minimum: continue with the others.
      var tail := PrefixRangeNeeded(rest, min[1..], max[1..]);
      k := SplitTests(types, low, tail, min, max);
      CeilingBounds(types[0], low, max[0]);
      AttCmpReflexive(low);
    }
  }

  /**
   The scan answers the interface's box query exactly when the bounds form a prefix range: then the
   two tests agree on every key, and otherwise some key tells them apart.
  */
  lemma BoxQueryExact(types: KeyType, min: Key, max: Key)
    requires Compatible(types, min) && Compatible(types, max)
    ensures PrefixRange(types, min, max) <==>
            forall k: FullKey :: Typed(types, k) ==> (InScan(types, k, min, max) <==> InBox(types, k, min, max))
  {
    if PrefixRange(types, min, max) {
      forall k: FullKey | Typed(types, k)
        ensures InScan(types, k, min, max) <==> InBox(types, k, min, max)
      {
        PrefixRangeSuffices(types, min, max, k);
      }
    } else {
      var k := PrefixRangeNeeded(types, min, max);
    }
  }

  // ---------- Consequences ----------

  predicate NullsOnlyInIntegers(types: KeyType, min: Key)
    requires |types| == |min|
  {
    forall i :: 0 <= i < |min| ==> min[i].None? ==> types[i] != KVarchar
  }

  /** No record of the box is missed when the minimum's wildcards are integers. */
  lemma {:induction false} IntegerWildcardsMissNothing(types: KeyType, min: Key, max: Key, k: FullKey)
    requires Typed(types, k) && Compatible(types, min) && Compatible(types, max)
    requires NullsOnlyInIntegers(types, min)
    requires InBox(types, k, min, max)
    ensures InScan(types, k, min, max)
  {
    if |types| > 0 {
      FirstAndRest(types, k, min, max);
      AttCmpFlips(k[0], OrWildcard(types[0], min[0], false));
      Extremes(k[0]);
      assert forall i :: 0 <= i < |min| - 1 ==> min[1..][i] == min[i + 1] && types[1..][i] == types[i + 1];
      IntegerWildcardsMissNothing(types[1..], min[1..], max[1..], k[1..]);
    }
  }

  lemma VarcharStandIn()
    ensures AttCmp(Least(KVarchar), Wildcard(KVarchar, false)) < 0
  {
    assert Filled(0)[0] == 0 && Filled(127)[0] == 127;
  }

  // The first attribute of a key that is at its minimum, with the tests of the rest left to decide.
  lemma AtMinimum(types: KeyType, min: Key, max: Key, rest: FullKey) returns (k: FullKey)
    requires |types| > 0 && Compatible(types, min) && Compatible(types, max) && Typed(types[1..], rest)
    requires min[0].None? ==> types[0] != KVarchar
    requires !Exceeds(min[0], max[0])
    requires InBox(types[1..], rest, min[1..], max[1..]) && !InScan(types[1..], rest, min[1..], max[1..])
    ensures Typed(types, k) && InBox(types, k, min, max) && !InScan(types, k, min, max)
  {
    var low := OrWildcard(types[0], min[0], false);
    k := SplitTests(types, low, rest, min, max);
    AttCmpReflexive(low);
    if min[0].None? && max[0].Some? { Extremes(max[0].value); }
  }

  /** A box that is not empty, with a NULL for a varchar in its minimum, has a key that the scan misses. */
  lemma {:induction false} MissedKey(types: KeyType, min: Key, max: Key) returns (k: FullKey)
    requires Compatible(types, min) && Compatible(types, max)
    requires !EmptyBox(types, min, max) && !NullsOnlyInIntegers(types, min)
    ensures Typed(types, k) && InBox(types, k, min, max) && !InScan(types, k, min, max)
  {
    assert !Exceeds(min[0], max[0]);
    assert forall j :: 0 <= j < |min| - 1 ==> min[1..][j] == min[j + 1] && max[1..][j] == max[j + 1] && types[1..][j] == types[j + 1];
    if min[0].None? && types[0] == KVarchar {
      VarcharStandIn();
      k := RoomBelow(types, min, max);
    } else {
      var j :| 0 <= j < |min| && min[j].None? && types[j] == KVarchar;
      assert min[1..][j - 1].None? && types[1..][j - 1] == KVarchar;
      var rest := MissedKey(types[1..], min[1..], max[1..]);
      k := AtMinimum(types, min, max, rest);
    }
  }

  /** The scan misses no key of the box if and only if the box is empty or its minimum has NULLs only for integers. */
  lemma MissesNothingExactly(types: KeyType, min: Key, max: Key)
    requires Compatible(types, min) && Compatible(types, max)
    ensures (forall k: FullKey :: Typed(types, k) && InBox(types, k, min, max) ==> InScan(types, k, min, max)) <==>
            EmptyBox(types, min, max) || NullsOnlyInIntegers(types, min)
  {
    if EmptyBox(types, min, max) {
      forall k: FullKey | Typed(types, k) ensures !InBox(types, k, min, max) { EmptyBoxHasNone(types, min, max, k); }
    } else if NullsOnlyInIntegers(types, min) {
      forall k: FullKey | Typed(types, k) && InBox(types, k, min, max) ensures InScan(types, k, min, max) {
        IntegerWildcardsMissNothing(types, min, max, k);
      }
    } else {
      var k := MissedKey(types, min, max);
    }
  }

  /** On an index with one attribute the scan is exactly the range. */
  lemma OneAttributeExact(types: KeyType, min: Key, max: Key, k: FullKey)
    requires |types| == 1
    requires Typed(types, k) && Compatible(types, min) && Compatible(types, max)
    requires NullsOnlyInIntegers(types, min)
    ensures InScan(types, k, min, max) <==> InBox(types, k, min, max)
  {
    var low := OrWildcard(types[0], min[0], false);
    if min[0].None? { AttCmpReflexive(low); }
    PrefixRangeSuffices(types, min, max, k);
  }

  /** With both bounds equal to one key without NULLs, the scan selects that key and no other. */
  lemma PointQueryExact(types: KeyType, point: FullKey, k: FullKey)
    requires Typed(types, k) && Typed(types, point)
    ensures Compatible(types, Full(point))
    ensures InScan(types, k, Full(point), Full(point)) <==> KeyCmp(k, point) == 0
  {
    assert Filling(types, Full(point), false) == point;
    if AtMost(Full(k), Full(point)) {
      AtMostImpliesNotAfter(k, point);
    } else {
      NotAtMostDiffers(k, point);
    }
  }

  lemma {:induction false} NotAtMostDiffers(a: FullKey, b: FullKey)
    requires Matching(a, b)
    requires !AtMost(Full(a), Full(b))
    ensures KeyCmp(a, b) != 0
  {
    var i :| 0 <= i < |a| && Exceeds(Full(a)[i], Full(b)[i]);
    if KeyCmp(a, b) == 0 {
      KeyCmpZero(a, b);
      assert ValuesOf(a)[i] == ValuesOf(b)[i];
      AttCmpZero(a[i], b[i]);
    }
  }

  /** A NULL varchar minimum is not a minimum: the scan misses the empty string. */
  lemma VarcharWildcardMisses()
    ensures var types := [KVarchar];
            var k := LeastKey(types);
            InBox(types, k, [None], [None]) && !InScan(types, k, [None], [None])
  {
    var types := [KVarchar];
    var k := LeastKey(types);
    assert k == [Least(KVarchar)];
    assert Filled(0)[0] == 0 && Filled(127)[0] == 127;
    assert StrCmp(Filled(0), Filled(127)) == -1;
    assert Filling(types, [None], false) == [Varchar(Filled(127))];
  }
}
