/** The data types of the contest interface: attributes, keys, records and status codes. */
module Interface {

  datatype Option<+T> = None | Some(value: T)

  type Byte = x: int | 0 <= x < 256
  type Int32 = x: int | -0x8000_0000 <= x < 0x8000_0000
  type Int64 = x: int | -0x8000_0000_0000_0000 <= x < 0x8000_0000_0000_0000

  const MAX_VARCHAR_LENGTH: nat := 512

  /** The character buffer of a varchar attribute, including room for the terminator. */
  type Chars = s: seq<Byte> | |s| == MAX_VARCHAR_LENGTH + 1
    witness seq(MAX_VARCHAR_LENGTH + 1, _ => 0)

  datatype AttributeType = KShort | KInt | KVarchar

  datatype Attribute =
    | Short(shortValue: Int32)
    | Int(intValue: Int64)
    | Varchar(charValue: Chars)

  function TypeOf(a: Attribute): AttributeType {
    match a
    case Short(_) => KShort
    case Int(_) => KInt
    case Varchar(_) => KVarchar
  }

  type KeyType = seq<AttributeType>

  // A key as the caller passes it: any attribute may be NULL (a wildcard).
  type Key = seq<Option<Attribute>>

  // A key without NULLs, such as every key that was read back from an index.
  type FullKey = seq<Attribute>

  type Block = seq<Byte>

  datatype Record = Record(key: Key, payload: Block)

  datatype ErrorCode =
    | KOk
    | KTransactionAborted
    | KErrorIndexExists
    | KErrorUnknownIndex
    | KErrorIteratorClosed
    | KErrorNotFound
    | KErrorTransactionClosed
    | KErrorIncompatibleKey
    | KErrorOpenTransactions
    | KErrorGenericFailure

  const K_MATCH_DUPLICATES: bv8 := 1
  const K_IGNORE_PAYLOAD: bv8 := 2

  /** A varchar must hold a terminated C string before anything may compare it. */
  predicate Comparable(a: Attribute) {
    a.Varchar? ==> 0 in a.charValue
  }

  /** Every attribute has its declared type; varchars are terminated. */
  predicate Typed(types: KeyType, key: FullKey) {
    && |key| == |types|
    && forall i :: 0 <= i < |key| ==> TypeOf(key[i]) == types[i] && Comparable(key[i])
  }

  /** The same for a key that may contain NULLs. */
  predicate Compatible(types: KeyType, key: Key) {
    && |key| == |types|
    && forall i :: 0 <= i < |key| ==>
         key[i].Some? ==> TypeOf(key[i].value) == types[i] && Comparable(key[i].value)
  }

  predicate NoNulls(key: Key) {
    forall i :: 0 <= i < |key| ==> key[i].Some?
  }

  function Values(key: Key): FullKey
    requires NoNulls(key)
  {
    seq(|key|, i requires 0 <= i < |key| => key[i].value)
  }

  function Full(key: FullKey): Key {
    seq(|key|, i requires 0 <= i < |key| => Some(key[i]))
  }
}
