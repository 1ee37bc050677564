/** The fixed-slot byte format of keys (IndexStructure in example/Index.cc). */
module Codec {
  import opened Interface
  import opened Order

  // ---------- Little-endian two's complement integers ----------

  function Power256(n: nat): (p: nat)
    ensures p > 0
  {
    if n == 0 then 1 else 256 * Power256(n - 1)
  }

  function ToBytes(x: nat, n: nat): (s: seq<Byte>)
    ensures |s| == n
  {
    if n == 0 then [] else [x % 256] + ToBytes(x / 256, n - 1)
  }

  function FromBytes(s: seq<Byte>): (x: nat)
    ensures x < Power256(|s|)
  {
    if |s| == 0 then 0 else s[0] + 256 * FromBytes(s[1..])
  }

  lemma {:induction false} FromToBytes(x: nat, n: nat)
    requires x < Power256(n)
    ensures FromBytes(ToBytes(x, n)) == x
  {
    if n > 0 {
      FromToBytes(x / 256, n - 1);
    }
  }

  lemma {:induction false} ToFromBytes(s: seq<Byte>)
    ensures ToBytes(FromBytes(s), |s|) == s
  {
    if |s| > 0 {
      ToFromBytes(s[1..]);
      assert FromBytes(s) / 256 == FromBytes(s[1..]) && FromBytes(s) % 256 == s[0];
    }
  }

  predicate Fits(x: int, n: nat) {
    0 - Power256(n) <= 2 * x < Power256(n)
  }

  function EncodeInt(x: int, n: nat): (s: seq<Byte>)
    requires Fits(x, n)
    ensures |s| == n
  {
    ToBytes(if x < 0 then x + Power256(n) else x, n)
  }

  function DecodeInt(s: seq<Byte>): (x: int)
    ensures Fits(x, |s|)
  {
    var u := FromBytes(s);
    if 2 * u < Power256(|s|) then u else u - Power256(|s|)
  }

  lemma IntRoundTrip(x: int, n: nat)
    requires Fits(x, n)
    ensures DecodeInt(EncodeInt(x, n)) == x
  {
    FromToBytes(if x < 0 then x + Power256(n) else x, n);
  }

  lemma BytesRoundTrip(s: seq<Byte>)
    ensures EncodeInt(DecodeInt(s), |s|) == s
  {
    ToFromBytes(s);
  }

  lemma Widths()
    ensures Power256(4) == 0x1_0000_0000 && Power256(8) == 0x1_0000_0000_0000_0000
  {
    assert Power256(1) == 256;
    assert Power256(2) == 0x1_0000;
    assert Power256(4) == 256 * (256 * Power256(2));
    assert Power256(8) == 256 * (256 * (256 * (256 * Power256(4))));
  }

  // ---------- One attribute ----------

  function SlotSize(t: AttributeType): nat {
    match t
    case KShort => 4
    case KInt => 8
    case KVarchar => MAX_VARCHAR_LENGTH + 1
  }

  /** The bytes of an attribute's union member. */
  function Image(a: Attribute): (s: seq<Byte>)
    ensures |s| == SlotSize(TypeOf(a))
  {
    Widths();
    match a
    case Short(v) => EncodeInt(v, 4)
    case Int(v) => EncodeInt(v, 8)
    case Varchar(v) => v
  }

  function FromImage(t: AttributeType, s: seq<Byte>): (a: Attribute)
    requires |s| == SlotSize(t)
    ensures TypeOf(a) == t
  {
    Widths();
    match t
    case KShort => Short(DecodeInt(s))
    case KInt => Int(DecodeInt(s))
    case KVarchar => Varchar(s)
  }

  // Four bytes as a number, the lowest one first.
  function Quad(a: int, b: int, c: int, d: int): int {
    a + 0x100 * b + 0x1_0000 * c + 0x100_0000 * d
  }

  lemma FirstFour(s: seq<Byte>)
    requires |s| >= 4
    ensures FromBytes(s) == Quad(s[0], s[1], s[2], s[3]) + 0x1_0000_0000 * FromBytes(s[4..])
  {
    assert s[1..][1..] == s[2..] && s[2..][1..] == s[3..] && s[3..][1..] == s[4..];
    assert FromBytes(s[3..]) == s[3] + 256 * FromBytes(s[4..]);
    assert FromBytes(s[2..]) == s[2] + 256 * FromBytes(s[3..]);
    assert FromBytes(s[1..]) == s[1] + 256 * FromBytes(s[2..]);
  }

  /** The bytes of a short attribute: two's complement in four bytes, the lowest one first. */
  lemma ShortLayout(v: Int32)
    ensures var s := Image(Short(v));
            && |s| == 4
            && v == Quad(s[0], s[1], s[2], s[3]) - (if s[3] < 128 then 0 else 0x1_0000_0000)
  {
    Widths();
    var s := Image(Short(v));
    FirstFour(s);
    FromToBytes(if v < 0 then v + 0x1_0000_0000 else v, 4);
  }

  /** The bytes of an int attribute: two's complement in eight bytes, the lowest one first. */
  lemma IntLayout(v: Int64)
    ensures var s := Image(Int(v));
            && |s| == 8
            && v == Quad(s[0], s[1], s[2], s[3]) + 0x1_0000_0000 * Quad(s[4], s[5], s[6], s[7])
                    - (if s[7] < 128 then 0 else 0x1_0000_0000_0000_0000)
  {
    Widths();
    var s := Image(Int(v));
    FirstFour(s);
    FirstFour(s[4..]);
    FromToBytes(if v < 0 then v + 0x1_0000_0000_0000_0000 else v, 8);
  }

  lemma ImageRoundTrip(a: Attribute)
    ensures FromImage(TypeOf(a), Image(a)) == a
  {
    Widths();
    match a
    case Short(v) => IntRoundTrip(v, 4);
    case Int(v) => IntRoundTrip(v, 8);
    case Varchar(_) =>
  }

  lemma SlotRoundTrip(t: AttributeType, s: seq<Byte>)
    requires |s| == SlotSize(t)
    ensures Image(FromImage(t, s)) == s
  {
    Widths();
    match t
    case KShort => BytesRoundTrip(s);
    case KInt => BytesRoundTrip(s);
    case KVarchar =>
  }

  /** The value that stands in for a NULL attribute. */
  function Wildcard(t: AttributeType, max: bool): (a: Attribute)
    ensures TypeOf(a) == t && Comparable(a)
  {
    match t
    case KShort => if max then Greatest(KShort) else Least(KShort)
    case KInt => if max then Greatest(KInt) else Least(KInt)
    case KVarchar => Varchar(Filled(127))
  }

  function OrWildcard(t: AttributeType, a: Option<Attribute>, max: bool): Attribute {
    if a.Some? then a.value else Wildcard(t, max)
  }

  /** The key with every NULL replaced by its stand-in. */
  function Filling(types: KeyType, key: Key, max: bool): (k: FullKey)
    requires Compatible(types, key)
    ensures Typed(types, k)
  {
    seq(|key|, i requires 0 <= i < |key| => OrWildcard(types[i], key[i], max))
  }

  // ---------- Whole keys ----------

  /** The offset of slot i, and the size of a whole key when i is the number of attributes. */
  function Offset(types: KeyType, i: nat): nat
    requires i <= |types|
  {
    if i == 0 then 0 else Offset(types, i - 1) + SlotSize(types[i - 1])
  }

  function KeySize(types: KeyType): nat {
    Offset(types, |types|)
  }

  lemma {:induction false} OffsetsIncrease(types: KeyType, i: nat, j: nat)
    requires i <= j <= |types|
    ensures Offset(types, i) <= Offset(types, j)
    decreases j
  {
    if i < j {
      OffsetsIncrease(types, i, j - 1);
    }
  }

  /** The first i slots of a key. */
  function EncodeSlots(types: KeyType, key: FullKey, i: nat): (s: seq<Byte>)
    requires Shaped(types, key) && i <= |types|
    ensures |s| == Offset(types, i)
  {
    if i == 0 then [] else EncodeSlots(types, key, i - 1) + Image(key[i - 1])
  }

  function Encode(types: KeyType, key: FullKey): (s: seq<Byte>)
    requires Shaped(types, key)
    ensures |s| == KeySize(types)
  {
    EncodeSlots(types, key, |types|)
  }

  /** A key's bytes are those of its attributes in their order, without gaps. */
  lemma EncodeAppends(types: KeyType, key: FullKey, t: AttributeType, a: Attribute)
    requires Shaped(types, key) && TypeOf(a) == t
    ensures Shaped(types + [t], key + [a]) && Encode(types + [t], key + [a]) == Encode(types, key) + Image(a)
  {
    SlotsOfPrefix(types, key, t, a, |types|);
  }

  lemma {:induction false} SlotsOfPrefix(types: KeyType, key: FullKey, t: AttributeType, a: Attribute, i: nat)
    requires Shaped(types, key) && TypeOf(a) == t && i <= |types|
    ensures Shaped(types + [t], key + [a]) && EncodeSlots(types + [t], key + [a], i) == EncodeSlots(types, key, i)
  {
    if i > 0 {
      SlotsOfPrefix(types, key, t, a, i - 1);
    }
  }

  /** The next slot, straight from a key that may contain NULLs. */
  lemma EncodeNext(types: KeyType, key: Key, max: bool, i: nat)
    requires Compatible(types, key) && i < |types|
    ensures EncodeSlots(types, Filling(types, key, max), i + 1) ==
            EncodeSlots(types, Filling(types, key, max), i) + Image(OrWildcard(types[i], key[i], max))
  {
    assert Filling(types, key, max)[i] == OrWildcard(types[i], key[i], max);
  }

  /** Right number of attributes and right types (varchars need no terminator to be copied). */
  predicate Shaped(types: KeyType, key: FullKey) {
    && |key| == |types|
    && forall i :: 0 <= i < |key| ==> TypeOf(key[i]) == types[i]
  }

  function Slot(types: KeyType, data: seq<Byte>, i: nat): (s: seq<Byte>)
    requires |data| == KeySize(types) && i < |types|
    ensures |s| == SlotSize(types[i])
  {
    OffsetsIncrease(types, i + 1, |types|);
    data[Offset(types, i)..Offset(types, i + 1)]
  }

  /** The first i attributes, one slot after the other. */
  function DecodeSlots(types: KeyType, data: seq<Byte>, i: nat): (k: FullKey)
    requires |data| == KeySize(types) && i <= |types|
    ensures |k| == i && forall j :: 0 <= j < i ==> TypeOf(k[j]) == types[j]
  {
    if i == 0 then [] else DecodeSlots(types, data, i - 1) + [FromImage(types[i - 1], Slot(types, data, i - 1))]
  }

  function Decode(types: KeyType, data: seq<Byte>): (k: FullKey)
    requires |data| == KeySize(types)
    ensures Shaped(types, k)
  {
    DecodeSlots(types, data, |types|)
  }

  lemma {:induction false} DecodedAt(types: KeyType, data: seq<Byte>, i: nat, n: nat)
    requires |data| == KeySize(types) && i < n <= |types|
    ensures DecodeSlots(types, data, n)[i] == FromImage(types[i], Slot(types, data, i))
  {
    if i < n - 1 {
      DecodedAt(types, data, i, n - 1);
    }
  }

  lemma SliceOfPrefix<T>(a: seq<T>, b: seq<T>, lo: nat, hi: nat)
    requires lo <= hi <= |a|
    ensures (a + b)[lo..hi] == a[lo..hi]
  {
  }

  lemma SliceOfSuffix<T>(a: seq<T>, b: seq<T>)
    ensures (a + b)[|a|..|a| + |b|] == b
  {
  }

  lemma JoinSlices<T>(s: seq<T>, lo: nat, hi: nat)
    requires lo <= hi <= |s|
    ensures s[..lo] + s[lo..hi] == s[..hi]
  {
  }

  lemma {:induction false} EncodedSlot(types: KeyType, key: FullKey, i: nat, n: nat)
    requires Shaped(types, key) && i < n <= |types|
    ensures Offset(types, i) <= Offset(types, i + 1) <= Offset(types, n)
    ensures EncodeSlots(types, key, n)[Offset(types, i)..Offset(types, i + 1)] == Image(key[i])
    decreases n
  {
    var before, last := EncodeSlots(types, key, n - 1), Image(key[n - 1]);
    if i + 1 < n {
      EncodedSlot(types, key, i, n - 1);
      SliceOfPrefix(before, last, Offset(types, i), Offset(types, i + 1));
    } else {
      SliceOfSuffix(before, last);
    }
  }

  /** Decoding an encoded key gives the key back. */
  lemma DecodeEncode(types: KeyType, key: FullKey)
    requires Shaped(types, key)
    ensures Decode(types, Encode(types, key)) == key
  {
    forall i | 0 <= i < |types|
      ensures Decode(types, Encode(types, key))[i] == key[i]
    {
      DecodedAt(types, Encode(types, key), i, |types|);
      EncodedSlot(types, key, i, |types|);
      ImageRoundTrip(key[i]);
    }
  }

  lemma {:induction false} EncodeDecodePrefix(types: KeyType, data: seq<Byte>, n: nat)
    requires |data| == KeySize(types) && n <= |types|
    ensures Offset(types, n) <= |data|
    ensures EncodeSlots(types, Decode(types, data), n) == data[..Offset(types, n)]
  {
    OffsetsIncrease(types, n, |types|);
    if n > 0 {
      EncodeDecodePrefix(types, data, n - 1);
      DecodedAt(types, data, n - 1, |types|);
      SlotRoundTrip(types[n - 1], Slot(types, data, n - 1));
      JoinSlices(data, Offset(types, n - 1), Offset(types, n));
    }
  }

  /** Encoding a decoded buffer gives the buffer back, for every buffer of the right size. */
  lemma EncodeDecode(types: KeyType, data: seq<Byte>)
    requires |data| == KeySize(types)
    ensures Encode(types, Decode(types, data)) == data
  {
    EncodeDecodePrefix(types, data, |types|);
    assert data[..Offset(types, |types|)] == data;
  }

  /** Slots do not overlap: changing one slot's bytes changes no other decoded attribute. */
  lemma SlotsDisjoint(types: KeyType, data: seq<Byte>, other: seq<Byte>, i: nat)
    requires |data| == |other| == KeySize(types) && i < |types|
    requires forall p :: 0 <= p < |data| && !(Offset(types, i) <= p < Offset(types, i + 1)) ==> data[p] == other[p]
    ensures forall j :: 0 <= j < |types| && j != i ==> Decode(types, data)[j] == Decode(types, other)[j]
  {
    forall j | 0 <= j < |types| && j != i
      ensures Decode(types, data)[j] == Decode(types, other)[j]
    {
      OffsetsIncrease(types, j + 1, |types|);
      if j < i { OffsetsIncrease(types, j + 1, i); } else { OffsetsIncrease(types, i + 1, j); }
      var lo, hi := Offset(types, j), Offset(types, j + 1);
      assert forall p :: lo <= p < hi ==> data[p] == other[p];
      assert data[lo..hi] == other[lo..hi];
      DecodedAt(types, data, j, |types|);
      DecodedAt(types, other, j, |types|);
    }
  }

  // ---------- The comparator of the ordered store ----------

  /** A stored key: right size, and every varchar in it terminated. */
  predicate KeyBytes(types: KeyType, data: seq<Byte>) {
    |data| == KeySize(types) && Typed(types, Decode(types, data))
  }

  /**
   The Dbt form of keycmp: decodes both keys and compares them.  The source is only ever given keys
   of the index; strings that are no key are placed before all keys to have a total function.
  */
  function BytesCmp(types: KeyType, a: seq<Byte>, b: seq<Byte>): int {
    if KeyBytes(types, a) && KeyBytes(types, b) then KeyCmp(Decode(types, a), Decode(types, b))
    else if KeyBytes(types, a) then 1
    else if KeyBytes(types, b) then -1
    else 0
  }

  type Comparator = (seq<Byte>, seq<Byte>) -> int

  /** The comparator that Index::Open installs in the database handle. */
  function ByteOrder(types: KeyType): Comparator {
    (a, b) => BytesCmp(types, a, b)
  }

  // Instances of the two laws below are asked for by name, which keeps the proofs that use an
  // arbitrary comparator small.
  ghost predicate Pair(a: seq<Byte>, b: seq<Byte>) { true }
  ghost predicate Triple(a: seq<Byte>, b: seq<Byte>, c: seq<Byte>) { true }

  ghost predicate TotalPreorder(cmp: Comparator) {
    && (forall a, b {:trigger Pair(a, b)} :: Pair(a, b) ==> cmp(b, a) == -cmp(a, b))
    && (forall a, b, c {:trigger Triple(a, b, c)} ::
          Triple(a, b, c) ==> cmp(a, b) <= 0 && cmp(b, c) <= 0 ==> cmp(a, c) <= 0)
  }

  lemma Flips(cmp: Comparator, a: seq<Byte>, b: seq<Byte>)
    requires TotalPreorder(cmp)
    ensures cmp(b, a) == -cmp(a, b)
  {
    assert Pair(a, b);
  }

  lemma Transitive(cmp: Comparator, a: seq<Byte>, b: seq<Byte>, c: seq<Byte>)
    requires TotalPreorder(cmp)
    requires cmp(a, b) <= 0 && cmp(b, c) <= 0
    ensures cmp(a, c) <= 0
    ensures cmp(a, c) == 0 ==> cmp(a, b) == 0 && cmp(b, c) == 0
  {
    assert Triple(a, b, c) && Pair(a, c) && Pair(a, b) && Pair(b, c);
    assert Triple(b, c, a) && Triple(c, a, b);
  }

  lemma BytesCmpFlips(types: KeyType, a: seq<Byte>, b: seq<Byte>)
    ensures BytesCmp(types, b, a) == -BytesCmp(types, a, b)
  {
    if KeyBytes(types, a) && KeyBytes(types, b) {
      KeyCmpFlips(Decode(types, a), Decode(types, b));
    }
  }

  lemma BytesCmpTransitive(types: KeyType, a: seq<Byte>, b: seq<Byte>, c: seq<Byte>)
    requires BytesCmp(types, a, b) <= 0 && BytesCmp(types, b, c) <= 0
    ensures BytesCmp(types, a, c) <= 0
  {
    if KeyBytes(types, a) && KeyBytes(types, b) && KeyBytes(types, c) {
      KeyCmpTransitive(Decode(types, a), Decode(types, b), Decode(types, c));
    }
  }

  /** The comparator is a total preorder, as a b-tree needs. */
  lemma ByteOrderTotal(types: KeyType)
    ensures TotalPreorder(ByteOrder(types))
  {
    var cmp := ByteOrder(types);
    forall a, b
      ensures cmp(b, a) == -cmp(a, b)
    {
      BytesCmpFlips(types, a, b);
    }
    forall a, b, c | cmp(a, b) <= 0 && cmp(b, c) <= 0
      ensures cmp(a, c) <= 0
    {
      BytesCmpTransitive(types, a, b, c);
    }
  }

  lemma EncodeIsKeyBytes(types: KeyType, key: FullKey)
    requires Typed(types, key)
    ensures KeyBytes(types, Encode(types, key)) && Decode(types, Encode(types, key)) == key
  {
    DecodeEncode(types, key);
  }

  /** The comparator on bytes orders encodings exactly as keycmp orders the keys. */
  lemma BytesCmpAgrees(types: KeyType, a: FullKey, b: FullKey)
    requires Typed(types, a) && Typed(types, b)
    ensures ByteOrder(types)(Encode(types, a), Encode(types, b)) == KeyCmp(a, b)
  {
    EncodeIsKeyBytes(types, a);
    EncodeIsKeyBytes(types, b);
  }
}
