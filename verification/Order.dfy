/** Comparison of attributes and keys (example/Util.cc) and its order theory. */
module Order {
  import opened Interface

  // ---------- The C library's strcmp, up to the sign of its result ----------

  function StrCmp(a: seq<Byte>, b: seq<Byte>): int
    requires 0 in a && 0 in b
  {
    if a[0] < b[0] then -1
    else if a[0] > b[0] then 1
    else if a[0] == 0 then 0
    else StrCmp(a[1..], b[1..])
  }

  /** The characters of a C string, up to its terminator. */
  function Text(a: seq<Byte>): seq<Byte>
    requires 0 in a
  {
    if a[0] == 0 then [] else [a[0]] + Text(a[1..])
  }

  lemma {:induction false} StrCmpFlips(a: seq<Byte>, b: seq<Byte>)
    requires 0 in a && 0 in b
    ensures StrCmp(b, a) == -StrCmp(a, b)
  {
    if a[0] == b[0] != 0 {
      StrCmpFlips(a[1..], b[1..]);
    }
  }

  lemma {:induction false} StrCmpTransitive(a: seq<Byte>, b: seq<Byte>, c: seq<Byte>)
    requires 0 in a && 0 in b && 0 in c
    requires StrCmp(a, b) <= 0 && StrCmp(b, c) <= 0
    ensures StrCmp(a, c) <= 0
    ensures StrCmp(a, c) == 0 ==> StrCmp(a, b) == 0 && StrCmp(b, c) == 0
  {
    if a[0] == b[0] == c[0] != 0 {
      StrCmpTransitive(a[1..], b[1..], c[1..]);
    }
  }

  /** Two varchars compare equal exactly when they agree up to the terminator. */
  lemma {:induction false} StrCmpZero(a: seq<Byte>, b: seq<Byte>)
    requires 0 in a && 0 in b
    ensures StrCmp(a, b) == 0 <==> Text(a) == Text(b)
  {
    if a[0] == b[0] != 0 {
      StrCmpZero(a[1..], b[1..]);
      assert Text(a)[1..] == Text(a[1..]) && Text(b)[1..] == Text(b[1..]);
    } else if a[0] != b[0] {
      assert a[0] != 0 ==> Text(a)[0] == a[0];
      assert b[0] != 0 ==> Text(b)[0] == b[0];
    }
  }

  // ---------- attcmp ----------

  predicate SameType(a: Attribute, b: Attribute) {
    TypeOf(a) == TypeOf(b) && Comparable(a) && Comparable(b)
  }

  function AttCmp(a: Attribute, b: Attribute): int
    requires SameType(a, b)
  {
    match a
    case Short(v) => if v < b.shortValue then -1 else if v > b.shortValue then 1 else 0
    case Int(v) => if v < b.intValue then -1 else if v > b.intValue then 1 else 0
    case Varchar(v) => StrCmp(v, b.charValue)
  }

  /** What an attribute stands for: a number, or the text before the terminator. */
  datatype Value = Number(n: int) | String(text: seq<Byte>)

  function ValueOf(a: Attribute): Value
    requires Comparable(a)
  {
    match a
    case Short(v) => Number(v)
    case Int(v) => Number(v)
    case Varchar(v) => String(Text(v))
  }

  lemma AttCmpFlips(a: Attribute, b: Attribute)
    requires SameType(a, b)
    ensures AttCmp(b, a) == -AttCmp(a, b)
  {
    if a.Varchar? { StrCmpFlips(a.charValue, b.charValue); }
  }

  lemma AttCmpTransitive(a: Attribute, b: Attribute, c: Attribute)
    requires SameType(a, b) && SameType(b, c)
    requires AttCmp(a, b) <= 0 && AttCmp(b, c) <= 0
    ensures AttCmp(a, c) <= 0
    ensures AttCmp(a, c) == 0 ==> AttCmp(a, b) == 0 && AttCmp(b, c) == 0
  {
    if a.Varchar? { StrCmpTransitive(a.charValue, b.charValue, c.charValue); }
  }

  lemma AttCmpZero(a: Attribute, b: Attribute)
    requires SameType(a, b)
    ensures AttCmp(a, b) == 0 <==> ValueOf(a) == ValueOf(b)
  {
    if a.Varchar? { StrCmpZero(a.charValue, b.charValue); }
  }

  // ---------- What the comparison means ----------

  /** The text is what stands before the first zero. */
  lemma {:induction false} TextIs(a: seq<Byte>)
    requires 0 in a
    ensures |Text(a)| < |a| && Text(a) == a[..|Text(a)|] && a[|Text(a)|] == 0 && 0 !in Text(a)
  {
    if a[0] != 0 {
      TextIs(a[1..]);
    }
  }

  /** The alphabetical order: the texts agree up to a position where the first one ends or has the smaller byte. */
  ghost predicate TextBefore(s: seq<Byte>, t: seq<Byte>) {
    exists n: nat :: AgreesTo(s, t, n) && n < |t| && (n == |s| || s[n] < t[n])
  }

  predicate AgreesTo(s: seq<Byte>, t: seq<Byte>, n: nat) {
    n <= |s| && n <= |t| && s[..n] == t[..n]
  }

  lemma AgreesMore(c: Byte, s: seq<Byte>, t: seq<Byte>, n: nat)
    ensures AgreesTo([c] + s, [c] + t, n + 1) <==> AgreesTo(s, t, n)
  {
    var cs, ct := [c] + s, [c] + t;
    if n <= |s| && n <= |t| {
      assert cs[..n + 1] == [c] + s[..n] && ct[..n + 1] == [c] + t[..n];
      assert s[..n] == cs[..n + 1][1..] && t[..n] == ct[..n + 1][1..];
    }
  }

  lemma TextBeforeMore(c: Byte, s: seq<Byte>, t: seq<Byte>)
    ensures TextBefore([c] + s, [c] + t) <==> TextBefore(s, t)
  {
    var cs, ct := [c] + s, [c] + t;
    if TextBefore(cs, ct) {
      var n: nat :| AgreesTo(cs, ct, n) && n < |ct| && (n == |cs| || cs[n] < ct[n]);
      AgreesMore(c, s, t, n - 1);
    }
    if TextBefore(s, t) {
      var n: nat :| AgreesTo(s, t, n) && n < |t| && (n == |s| || s[n] < t[n]);
      AgreesMore(c, s, t, n);
      assert ct[n + 1] == t[n];
    }
  }

  // Texts with different first bytes, or of which one is empty.
  lemma TextBeforeAtOnce(s: seq<Byte>, t: seq<Byte>)
    ensures s == [] ==> (TextBefore(s, t) <==> t != [])
    ensures t == [] ==> !TextBefore(s, t)
    ensures s != [] && t != [] && s[0] != t[0] ==> (TextBefore(s, t) <==> s[0] < t[0])
  {
    assert AgreesTo(s, t, 0);
    assert s != [] && t != [] && s[0] != t[0] ==> forall n: nat :: AgreesTo(s, t, n) ==> n == 0 by {
      forall n: nat | AgreesTo(s, t, n) && n > 0
        ensures s[0] == t[0]
      {
        assert s[0] == s[..n][0];
      }
    }
  }

  lemma {:induction false} StrCmpBefore(a: seq<Byte>, b: seq<Byte>)
    requires 0 in a && 0 in b
    ensures StrCmp(a, b) < 0 <==> TextBefore(Text(a), Text(b))
  {
    if a[0] == b[0] != 0 {
      StrCmpBefore(a[1..], b[1..]);
      TextBeforeMore(a[0], Text(a[1..]), Text(b[1..]));
    } else {
      TextBeforeAtOnce(Text(a), Text(b));
    }
  }

  /** attcmp is the numerical order of integers, and the alphabetical order of the texts of varchars. */
  lemma AttCmpMeans(a: Attribute, b: Attribute)
    requires SameType(a, b)
    ensures a.Short? ==> (AttCmp(a, b) < 0 <==> a.shortValue < b.shortValue) && (AttCmp(a, b) > 0 <==> a.shortValue > b.shortValue)
    ensures a.Int? ==> (AttCmp(a, b) < 0 <==> a.intValue < b.intValue) && (AttCmp(a, b) > 0 <==> a.intValue > b.intValue)
    ensures a.Varchar? ==>
              && (AttCmp(a, b) < 0 <==> TextBefore(Text(a.charValue), Text(b.charValue)))
              && (AttCmp(a, b) > 0 <==> TextBefore(Text(b.charValue), Text(a.charValue)))
  {
    if a.Varchar? {
      StrCmpBefore(a.charValue, b.charValue);
      StrCmpBefore(b.charValue, a.charValue);
      StrCmpFlips(a.charValue, b.charValue);
    }
  }

  /** The order of values. */
  ghost predicate Before(x: Value, y: Value) {
    || (x.Number? && y.Number? && x.n < y.n)
    || (x.String? && y.String? && TextBefore(x.text, y.text))
  }

  lemma AttCmpBefore(a: Attribute, b: Attribute)
    requires SameType(a, b)
    ensures AttCmp(a, b) < 0 <==> Before(ValueOf(a), ValueOf(b))
    ensures AttCmp(a, b) > 0 <==> Before(ValueOf(b), ValueOf(a))
  {
    AttCmpMeans(a, b);
  }

  // ---------- The extreme values of each type ----------

  // MAX_VARCHAR_LENGTH copies of one character, and the terminator.
  function Filled(c: Byte): (s: Chars)
    ensures s[MAX_VARCHAR_LENGTH] == 0
    ensures forall i :: 0 <= i < MAX_VARCHAR_LENGTH ==> s[i] == c
  {
    seq(MAX_VARCHAR_LENGTH, _ => c) + [0]
  }

  function Least(t: AttributeType): (a: Attribute)
    ensures TypeOf(a) == t && Comparable(a)
  {
    match t
    case KShort => Short(-0x8000_0000)
    case KInt => Int(-0x8000_0000_0000_0000)
    case KVarchar => Varchar(Filled(0))
  }

  function Greatest(t: AttributeType): (a: Attribute)
    ensures TypeOf(a) == t && Comparable(a)
  {
    match t
    case KShort => Short(0x7fff_ffff)
    case KInt => Int(0x7fff_ffff_ffff_ffff)
    case KVarchar => Varchar(Filled(255))
  }

  lemma {:induction false} LastString(s: Chars, i: nat)
    requires i <= MAX_VARCHAR_LENGTH
    requires 0 in s[i..] && 0 in Filled(255)[i..]
    ensures StrCmp(s[i..], Filled(255)[i..]) <= 0
    decreases MAX_VARCHAR_LENGTH - i
  {
    if i < MAX_VARCHAR_LENGTH && s[i] == 255 {
      assert s[i..][1..] == s[i + 1..] && Filled(255)[i..][1..] == Filled(255)[i + 1..];
      LastString(s, i + 1);
    }
  }

  lemma Extremes(a: Attribute)
    requires Comparable(a)
    ensures AttCmp(Least(TypeOf(a)), a) <= 0 && AttCmp(a, Greatest(TypeOf(a))) <= 0
  {
    if a.Varchar? {
      assert a.charValue[0..] == a.charValue && Filled(255)[0..] == Filled(255);
      LastString(a.charValue, 0);
    }
  }

  // ---------- keycmp ----------

  predicate Matching(a: FullKey, b: FullKey) {
    && |a| == |b|
    && forall i :: 0 <= i < |a| ==> SameType(a[i], b[i])
  }

  function KeyCmp(a: FullKey, b: FullKey): int
    requires Matching(a, b)
  {
    if |a| == 0 then 0
    else if AttCmp(a[0], b[0]) != 0 then AttCmp(a[0], b[0])
    else KeyCmp(a[1..], b[1..])
  }

  /** The loop of keycmp: the first attribute that differs decides. */
  method CompareKeys(a: FullKey, b: FullKey) returns (res: int)
    requires Matching(a, b)
    ensures res == KeyCmp(a, b)
  {
    var i := 0;
    while i < |a|
      invariant 0 <= i <= |a|
      invariant KeyCmp(a, b) == KeyCmp(a[i..], b[i..])
    {
      res := AttCmp(a[i], b[i]);
      if res != 0 {
        return;
      }
      assert a[i..][1..] == a[i + 1..] && b[i..][1..] == b[i + 1..];
      i := i + 1;
    }
    res := 0;
  }

  function ValuesOf(a: FullKey): seq<Value>
    requires forall i :: 0 <= i < |a| ==> Comparable(a[i])
  {
    seq(|a|, i requires 0 <= i < |a| => ValueOf(a[i]))
  }

  lemma {:induction false} KeyCmpFlips(a: FullKey, b: FullKey)
    requires Matching(a, b)
    ensures KeyCmp(b, a) == -KeyCmp(a, b)
  {
    if |a| > 0 {
      AttCmpFlips(a[0], b[0]);
      KeyCmpFlips(a[1..], b[1..]);
    }
  }

  lemma {:induction false} KeyCmpTransitive(a: FullKey, b: FullKey, c: FullKey)
    requires Matching(a, b) && Matching(b, c)
    requires KeyCmp(a, b) <= 0 && KeyCmp(b, c) <= 0
    ensures Matching(a, c)
    ensures KeyCmp(a, c) <= 0
    ensures KeyCmp(a, c) == 0 ==> KeyCmp(a, b) == 0 && KeyCmp(b, c) == 0
  {
    if |a| > 0 {
      AttCmpTransitive(a[0], b[0], c[0]);
      if AttCmp(a[0], c[0]) == 0 {
        KeyCmpTransitive(a[1..], b[1..], c[1..]);
      } else if AttCmp(a[0], b[0]) == 0 == AttCmp(b[0], c[0]) {
        AttCmpZero(a[0], b[0]);
        AttCmpZero(b[0], c[0]);
        AttCmpZero(a[0], c[0]);
      }
    }
  }

  lemma {:induction false} KeyCmpZero(a: FullKey, b: FullKey)
    requires Matching(a, b)
    ensures KeyCmp(a, b) == 0 <==> ValuesOf(a) == ValuesOf(b)
  {
    if |a| > 0 {
      AttCmpZero(a[0], b[0]);
      KeyCmpZero(a[1..], b[1..]);
      assert ValuesOf(a)[1..] == ValuesOf(a[1..]) && ValuesOf(b)[1..] == ValuesOf(b[1..]);
      assert ValuesOf(a)[0] == ValueOf(a[0]) && ValuesOf(b)[0] == ValueOf(b[0]);
      assert ValuesOf(a) == [ValueOf(a[0])] + ValuesOf(a[1..]);
      assert ValuesOf(b) == [ValueOf(b[0])] + ValuesOf(b[1..]);
    }
  }

  /** At some attribute the first key has the smaller value, and before it the values are the same. */
  ghost predicate LexBefore(a: seq<Value>, b: seq<Value>) {
    exists i: nat :: BeforeAt(a, b, i)
  }

  ghost predicate BeforeAt(a: seq<Value>, b: seq<Value>, i: nat) {
    i < |a| && i < |b| && Before(a[i], b[i]) && a[..i] == b[..i]
  }

  lemma BeforeAtMore(x: Value, a: seq<Value>, y: Value, b: seq<Value>, i: nat)
    ensures BeforeAt([x] + a, [y] + b, 0) <==> Before(x, y)
    ensures BeforeAt([x] + a, [y] + b, i + 1) <==> x == y && BeforeAt(a, b, i)
  {
    var xa, yb := [x] + a, [y] + b;
    if i < |a| && i < |b| {
      assert xa[i + 1] == a[i] && yb[i + 1] == b[i];
      assert xa[..i + 1] == [x] + a[..i] && yb[..i + 1] == [y] + b[..i];
      assert xa[..i + 1][0] == x && yb[..i + 1][0] == y;
      assert xa[..i + 1][1..] == a[..i] && yb[..i + 1][1..] == b[..i];
    }
  }

  lemma LexBeforeMore(x: Value, a: seq<Value>, y: Value, b: seq<Value>)
    ensures LexBefore([x] + a, [y] + b) <==> Before(x, y) || (x == y && LexBefore(a, b))
  {
    BeforeAtMore(x, a, y, b, 0);
    if LexBefore([x] + a, [y] + b) {
      var i: nat :| BeforeAt([x] + a, [y] + b, i);
      if i > 0 { BeforeAtMore(x, a, y, b, i - 1); }
    }
    if LexBefore(a, b) {
      var i: nat :| BeforeAt(a, b, i);
      BeforeAtMore(x, a, y, b, i);
    }
  }

  /** keycmp is the lexicographic order of the keys' values. */
  lemma {:induction false} KeyCmpMeans(a: FullKey, b: FullKey)
    requires Matching(a, b)
    ensures KeyCmp(a, b) < 0 <==> LexBefore(ValuesOf(a), ValuesOf(b))
    ensures KeyCmp(a, b) > 0 <==> LexBefore(ValuesOf(b), ValuesOf(a))
  {
    if |a| > 0 {
      AttCmpBefore(a[0], b[0]);
      AttCmpZero(a[0], b[0]);
      KeyCmpMeans(a[1..], b[1..]);
      var x, y, xs, ys := ValueOf(a[0]), ValueOf(b[0]), ValuesOf(a[1..]), ValuesOf(b[1..]);
      assert ValuesOf(a) == [x] + xs && ValuesOf(b) == [y] + ys;
      LexBeforeMore(x, xs, y, ys);
      LexBeforeMore(y, ys, x, xs);
    }
  }

  // ---------- CheckBounds ----------

  /** Both attributes are given and the first is the greater one. */
  predicate Exceeds(a: Option<Attribute>, b: Option<Attribute>)
    requires a.Some? && b.Some? ==> SameType(a.value, b.value)
  {
    a.Some? && b.Some? && AttCmp(a.value, b.value) > 0
  }

  predicate MatchingBounds(a: Key, b: Key) {
    && |a| == |b|
    && forall i :: 0 <= i < |a| ==> (a[i].Some? && b[i].Some? ==> SameType(a[i].value, b[i].value))
  }

  predicate AtMost(a: Key, b: Key)
    requires MatchingBounds(a, b)
  {
    forall i :: 0 <= i < |a| ==> !Exceeds(a[i], b[i])
  }

  /** Returns whether no attribute of a exceeds its bound, and if not the first one that does. */
  method CheckBounds(a: Key, b: Key) returns (ok: bool, index: nat)
    requires MatchingBounds(a, b)
    ensures ok <==> AtMost(a, b)
    ensures !ok ==> index < |a| && Exceeds(a[index], b[index])
    ensures !ok ==> forall i :: 0 <= i < index ==> !Exceeds(a[i], b[i])
  {
    var i := 0;
    while i < |a|
      invariant 0 <= i <= |a|
      invariant forall j :: 0 <= j < i ==> !Exceeds(a[j], b[j])
    {
      if a[i].Some? && b[i].Some? && AttCmp(a[i].value, b[i].value) > 0 {
        assert Exceeds(a[i], b[i]);
        return false, i;
      }
      i := i + 1;
    }
    return true, 0;
  }

  /** Componentwise at most implies lexicographically at most (for bounds without NULLs). */
  lemma {:induction false} AtMostImpliesNotAfter(a: FullKey, b: FullKey)
    requires Matching(a, b)
    requires AtMost(Full(a), Full(b))
    ensures KeyCmp(a, b) <= 0
  {
    if |a| > 0 {
      assert !Exceeds(Full(a)[0], Full(b)[0]);
      assert forall i :: 0 <= i < |a| - 1 ==> Full(a)[i + 1] == Full(a[1..])[i] && Full(b)[i + 1] == Full(b[1..])[i];
      AtMostImpliesNotAfter(a[1..], b[1..]);
    }
  }
}
