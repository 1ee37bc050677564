/** Sequences of stored records in key order, and the two records a search can stop at. */
module Records {
  import opened Interface
  import opened Codec

  /** A stored record: the encoded key and the payload. */
  datatype Rec = Rec(key: seq<Byte>, data: Block)

  ghost predicate Ordered(cmp: Comparator, recs: seq<Rec>) {
    forall i, j {:trigger cmp(recs[i].key, recs[j].key)} :: 0 <= i < j < |recs| ==> cmp(recs[i].key, recs[j].key) <= 0
  }

  /** The first record at or after the key. */
  ghost function LowerBound(cmp: Comparator, recs: seq<Rec>, key: seq<Byte>): (n: nat)
    ensures n <= |recs|
    ensures forall i :: 0 <= i < n ==> cmp(recs[i].key, key) < 0
    ensures n < |recs| ==> cmp(recs[n].key, key) >= 0
  {
    if |recs| == 0 || cmp(recs[0].key, key) >= 0 then 0
    else 1 + LowerBound(cmp, recs[1..], key)
  }

  /** The first record after the key. */
  ghost function UpperBound(cmp: Comparator, recs: seq<Rec>, key: seq<Byte>): (n: nat)
    ensures n <= |recs|
    ensures forall i :: 0 <= i < n ==> cmp(recs[i].key, key) <= 0
    ensures n < |recs| ==> cmp(recs[n].key, key) > 0
  {
    if |recs| == 0 || cmp(recs[0].key, key) > 0 then 0
    else 1 + UpperBound(cmp, recs[1..], key)
  }

  /** In a sorted store the lower bound splits the records. */
  lemma AfterLowerBound(cmp: Comparator, recs: seq<Rec>, key: seq<Byte>, i: nat)
    requires TotalPreorder(cmp) && Ordered(cmp, recs)
    requires LowerBound(cmp, recs, key) <= i < |recs|
    ensures cmp(recs[i].key, key) >= 0
  {
    var n := LowerBound(cmp, recs, key);
    if n < i {
      Flips(cmp, recs[n].key, key);
      Transitive(cmp, key, recs[n].key, recs[i].key);
      Flips(cmp, key, recs[i].key);
    }
  }

  lemma AfterUpperBound(cmp: Comparator, recs: seq<Rec>, key: seq<Byte>, i: nat)
    requires TotalPreorder(cmp) && Ordered(cmp, recs)
    requires UpperBound(cmp, recs, key) <= i < |recs|
    ensures cmp(recs[i].key, key) > 0
  {
    var n := UpperBound(cmp, recs, key);
    if n < i {
      Flips(cmp, recs[n].key, key);
      Transitive(cmp, key, recs[n].key, recs[i].key);
      Flips(cmp, key, recs[i].key);
    }
  }

  ghost function Inserted(cmp: Comparator, recs: seq<Rec>, r: Rec): seq<Rec> {
    var n := UpperBound(cmp, recs, r.key);
    recs[..n] + [r] + recs[n..]
  }

  /** An insertion adds this one record to those that are there. */
  lemma InsertedMultiset(cmp: Comparator, recs: seq<Rec>, r: Rec)
    ensures multiset(Inserted(cmp, recs, r)) == multiset(recs) + multiset{r}
  {
    var n := UpperBound(cmp, recs, r.key);
    assert recs == recs[..n] + recs[n..];
  }

  /** In a sorted store the new record stands behind every record with its key or a smaller one, and before every greater one. */
  lemma InsertedBehind(cmp: Comparator, recs: seq<Rec>, r: Rec)
    requires TotalPreorder(cmp) && Ordered(cmp, recs)
    ensures exists n: nat {:trigger recs[n..]} :: n <= |recs| && Inserted(cmp, recs, r) == recs[..n] + [r] + recs[n..]
              && (forall i :: 0 <= i < |recs| ==> (cmp(recs[i].key, r.key) <= 0 <==> i < n))
  {
    var n := UpperBound(cmp, recs, r.key);
    forall i | 0 <= i < |recs|
      ensures cmp(recs[i].key, r.key) <= 0 <==> i < n
    {
      if n <= i { AfterUpperBound(cmp, recs, r.key, i); }
    }
    assert Inserted(cmp, recs, r) == recs[..n] + [r] + recs[n..];
  }

  /** Insertion at the upper bound keeps the order. */
  lemma InsertedOrdered(cmp: Comparator, recs: seq<Rec>, r: Rec)
    requires TotalPreorder(cmp) && Ordered(cmp, recs)
    ensures Ordered(cmp, Inserted(cmp, recs, r))
  {
    var n := UpperBound(cmp, recs, r.key);
    var out := Inserted(cmp, recs, r);
    forall i, j | 0 <= i < j < |out|
      ensures cmp(out[i].key, out[j].key) <= 0
    {
      assert out[i] == if i < n then recs[i] else if i == n then r else recs[i - 1];
      assert out[j] == if j < n then recs[j] else if j == n then r else recs[j - 1];
      if i == n {
        AfterUpperBound(cmp, recs, r.key, j - 1);
        Flips(cmp, recs[j - 1].key, r.key);
      }
    }
  }

  /** The records with the payloads of positions lo up to hi replaced. */
  ghost function Overwritten(recs: seq<Rec>, lo: nat, hi: nat, data: Block): (out: seq<Rec>)
    ensures |out| == |recs|
  {
    seq(|recs|, i requires 0 <= i < |recs| => if lo <= i < hi then Rec(recs[i].key, data) else recs[i])
  }

  /** The records without positions lo up to hi. */
  ghost function Without(recs: seq<Rec>, lo: nat, hi: nat): seq<Rec>
    requires lo <= hi <= |recs|
  {
    recs[..lo] + recs[hi..]
  }

  ghost predicate SameKeys(a: seq<Rec>, b: seq<Rec>) {
    |a| == |b| && forall i :: 0 <= i < |a| ==> a[i].key == b[i].key
  }

  lemma WithoutOrdered(cmp: Comparator, recs: seq<Rec>, lo: nat, hi: nat)
    requires Ordered(cmp, recs) && lo <= hi <= |recs|
    ensures Ordered(cmp, Without(recs, lo, hi))
  {
    var out := Without(recs, lo, hi);
    forall i, j | 0 <= i < j < |out|
      ensures cmp(out[i].key, out[j].key) <= 0
    {
      assert out[i] == if i < lo then recs[i] else recs[i - lo + hi];
      assert out[j] == if j < lo then recs[j] else recs[j - lo + hi];
    }
  }

  /** Every stored key is a key of the index. */
  ghost predicate AllKeys(types: KeyType, recs: seq<Rec>) {
    forall i :: 0 <= i < |recs| ==> KeyBytes(types, recs[i].key)
  }

  lemma InsertedAllKeys(types: KeyType, cmp: Comparator, recs: seq<Rec>, r: Rec)
    requires AllKeys(types, recs) && KeyBytes(types, r.key)
    ensures AllKeys(types, Inserted(cmp, recs, r))
  {
    var n := UpperBound(cmp, recs, r.key);
    var out := Inserted(cmp, recs, r);
    assert forall i :: 0 <= i < |out| ==> out[i] == if i < n then recs[i] else if i == n then r else recs[i - 1];
  }

  lemma SameKeysAllKeys(types: KeyType, a: seq<Rec>, b: seq<Rec>)
    requires AllKeys(types, a) && SameKeys(a, b)
    ensures AllKeys(types, b)
  {
  }

  lemma WithoutAllKeys(types: KeyType, recs: seq<Rec>, lo: nat, hi: nat)
    requires AllKeys(types, recs) && lo <= hi <= |recs|
    ensures AllKeys(types, Without(recs, lo, hi))
  {
    var out := Without(recs, lo, hi);
    assert forall i :: 0 <= i < |out| ==> out[i] == if i < lo then recs[i] else recs[i - lo + hi];
  }
}
