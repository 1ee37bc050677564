/**
 Reading an attribute by a type that is not its own.  The value of an attribute is a union, and
 GetBDBKey and attcmp (example/Index.cc, example/Util.cc) read the caller's attributes by the types
 that the index declares.
*/
module Unions {
  import opened Interface
  import opened Codec

  /** The bytes of the union: the member that was set, and behind it what the memory held before. */
  function Bytes(a: Attribute, memory: Chars): Chars {
    Image(a) + memory[|Image(a)|..]
  }

  function ReadAs(t: AttributeType, a: Attribute, memory: Chars): (b: Attribute)
    ensures TypeOf(b) == t
  {
    FromImage(t, Bytes(a, memory)[..SlotSize(t)])
  }

  /** Read by its own type, an attribute is what it is. */
  lemma ReadAsOwn(a: Attribute, memory: Chars)
    ensures ReadAs(TypeOf(a), a, memory) == a
  {
    assert Bytes(a, memory)[..SlotSize(TypeOf(a))] == Image(a);
    ImageRoundTrip(a);
  }

  /** What reads of a key need: as many attributes as the index has, and an end of every string. */
  predicate Readable(types: KeyType, key: Key, memory: seq<Chars>) {
    && |key| == |types| == |memory|
    && forall i :: 0 <= i < |key| ==>
         types[i] == KVarchar && key[i].Some? ==> 0 in Bytes(key[i].value, memory[i])
  }

  /** The key that the index sees. */
  function KeyAs(types: KeyType, key: Key, memory: seq<Chars>): (k: Key)
    requires Readable(types, key, memory)
    ensures Compatible(types, k)
    ensures NoNulls(key) ==> NoNulls(k)
  {
    seq(|key|, i requires 0 <= i < |key| =>
      if key[i].Some? then Some(ReadAs(types[i], key[i].value, memory[i])) else None)
  }

  /** A key of the index's types is seen as it is, whatever the memory behind its values holds. */
  lemma KeyAsOwn(types: KeyType, key: Key, memory: seq<Chars>)
    requires Compatible(types, key) && |memory| == |types|
    ensures Readable(types, key, memory) && KeyAs(types, key, memory) == key
  {
    forall i | 0 <= i < |key| && key[i].Some?
      ensures types[i] == KVarchar ==> 0 in Bytes(key[i].value, memory[i])
      ensures ReadAs(types[i], key[i].value, memory[i]) == key[i].value
    {
      ReadAsOwn(key[i].value, memory[i]);
    }
  }

  /**
   The bytes under which the index keeps or looks up the caller's key.  They read back as the caller's
   values, each by the type of its slot, with a stand-in for every NULL; a key of the index's types
   that has no NULL reads back as it is.
  */
  function StoredKey(types: KeyType, key: Key, memory: seq<Chars>): (s: seq<Byte>)
    requires Readable(types, key, memory)
    ensures KeyBytes(types, s)
    ensures forall i :: 0 <= i < |key| ==>
              Decode(types, s)[i] == if key[i].Some? then ReadAs(types[i], key[i].value, memory[i]) else Wildcard(types[i], false)
    ensures Compatible(types, key) && NoNulls(key) ==> s == Encode(types, Values(key))
  {
    var filled := Filling(types, KeyAs(types, key, memory), false);
    EncodeIsKeyBytes(types, filled);
    StoredOwn(types, key, memory);
    Encode(types, filled)
  }

  lemma StoredOwn(types: KeyType, key: Key, memory: seq<Chars>)
    requires Readable(types, key, memory)
    ensures Compatible(types, key) && NoNulls(key) ==> Filling(types, KeyAs(types, key, memory), false) == Values(key)
  {
    if Compatible(types, key) && NoNulls(key) {
      KeyAsOwn(types, key, memory);
    }
  }

  // ---------- A long integer in the slot of a short one ----------

  lemma {:induction false} ToBytesPrefix(x: nat, n: nat, k: nat)
    requires k <= n
    ensures ToBytes(x, n)[..k] == ToBytes(x, k)
  {
    if k > 0 {
      ToBytesPrefix(x / 256, n - 1, k - 1);
      assert ToBytes(x, n)[..k] == [x % 256] + ToBytes(x / 256, n - 1)[..k - 1];
    }
  }

  lemma TimesAssociates(a: nat, b: nat)
    ensures (256 * a) * b == 256 * (a * b)
  {
  }

  lemma SkipsByte(x: nat, p: nat)
    ensures (x + 256 * p) % 256 == x % 256 && (x + 256 * p) / 256 == x / 256 + p
  {
  }

  lemma {:induction false} ToBytesWraps(x: nat, m: nat, n: nat)
    ensures ToBytes(x + Power256(n) * m, n) == ToBytes(x, n)
  {
    if n > 0 {
      var p := Power256(n - 1) * m;
      TimesAssociates(Power256(n - 1), m);
      SkipsByte(x, p);
      ToBytesWraps(x / 256, m, n - 1);
    }
  }

  // The low half of an eight-byte integer, as an unsigned number.
  lemma LowHalf(x: nat)
    ensures FromBytes(ToBytes(x, 8)[..4]) == x % 0x1_0000_0000
  {
    Widths();
    var r, m := x % 0x1_0000_0000, x / 0x1_0000_0000;
    ToBytesPrefix(x, 8, 4);
    assert x == r + Power256(4) * m;
    ToBytesWraps(r, m, 4);
    FromToBytes(r, 4);
  }

  // The same number with the sign of 32 bits.
  function Signed32(r: nat): int
    requires r < 0x1_0000_0000
  {
    if r < 0x8000_0000 then r else r - 0x1_0000_0000
  }

  lemma Signed32Exactly(v: int)
    ensures var w := Signed32(v % 0x1_0000_0000);
            (v - w) % 0x1_0000_0000 == 0 && (w == v <==> -0x8000_0000 <= v < 0x8000_0000)
  {
  }

  lemma SameLowHalf(v: int)
    ensures (v + 0x1_0000_0000_0000_0000) % 0x1_0000_0000 == v % 0x1_0000_0000
  {
  }

  lemma LowImage(v: Int64)
    ensures FromBytes(Image(Int(v))[..4]) == v % 0x1_0000_0000
  {
    Widths();
    SameLowHalf(v);
    LowHalf(if v < 0 then v + 0x1_0000_0000_0000_0000 else v);
  }

  lemma DecodeShort(s: seq<Byte>)
    requires |s| == 4
    ensures FromBytes(s) < 0x1_0000_0000 && DecodeInt(s) == Signed32(FromBytes(s))
  {
    Widths();
  }

  lemma NarrowedRead(v: Int64, memory: Chars)
    ensures ReadAs(KShort, Int(v), memory).shortValue == Signed32(v % 0x1_0000_0000)
  {
    Widths();
    assert Bytes(Int(v), memory)[..4] == Image(Int(v))[..4];
    LowImage(v);
    DecodeShort(Image(Int(v))[..4]);
  }

  /** A kInt attribute in a kShort slot loses its high half; it is kept exactly if it fits in 32 bits. */
  lemma NarrowedExactly(v: Int64, memory: Chars)
    ensures var w := ReadAs(KShort, Int(v), memory).shortValue;
            && (v - w) % 0x1_0000_0000 == 0
            && (w == v <==> -0x8000_0000 <= v < 0x8000_0000)
  {
    NarrowedRead(v, memory);
    Signed32Exactly(v);
  }

  lemma LongInShort(v: Int64, memory: Chars)
    ensures var types, key := [KShort], [Some(Int(v))];
            && !Compatible(types, key) && Readable(types, key, [memory])
            && KeyAs(types, key, [memory]) == [Some(ReadAs(KShort, Int(v), memory))]
  {
    var types, key := [KShort], [Some(Int(v))];
    assert TypeOf(key[0].value) != types[0];
  }

  /** A key of another type that is not refused, and stored as a different key. */
  lemma WrongTypeIsAnotherKey(memory: Chars)
    ensures var types, key := [KShort], [Some(Int(0x1_0000_0005))];
            && !Compatible(types, key) && Readable(types, key, [memory])
            && KeyAs(types, key, [memory]) == [Some(Short(5))]
  {
    LongInShort(0x1_0000_0005, memory);
    ReadFive(memory);
  }

  lemma ReadFive(memory: Chars)
    ensures ReadAs(KShort, Int(0x1_0000_0005), memory) == Short(5)
  {
    NarrowedRead(0x1_0000_0005, memory);
    IsShort(ReadAs(KShort, Int(0x1_0000_0005), memory), 5);
  }

  lemma IsShort(a: Attribute, n: Int32)
    requires TypeOf(a) == KShort && a.shortValue == n
    ensures a == Short(n)
  {
  }
}
