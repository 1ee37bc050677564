/** The ring of recently inserted keys in the benchmark driver (benchmark/basedriver.c). */
module Keystore {
  const BDR_KEY_PROVISIONING: nat := 1024 * 1024 * 2

  /** The cells of a slot end before those of any later slot begin. */
  lemma {:induction false} CellsInSlots(p: nat, q: nat, d: nat)
    requires p < q
    ensures p * d + d <= q * d
  {
    assert q * d == (q - 1) * d + d;
    if p < q - 1 {
      CellsInSlots(p, q - 1, d);
    }
  }

  /** Among as many consecutive insertions as the ring has slots, no two share a slot. */
  lemma SlotsDiffer(a: nat, b: nat)
    requires a < b < a + BDR_KEY_PROVISIONING
    ensures a % BDR_KEY_PROVISIONING != b % BDR_KEY_PROVISIONING
  {
  }

  lemma NextSlot(a: nat)
    ensures (a % BDR_KEY_PROVISIONING + 1) % BDR_KEY_PROVISIONING == (a + 1) % BDR_KEY_PROVISIONING
  {
  }

  /** The cells of slot `p` in a ring of keys with `d` attributes each. */
  function Slot(cells: seq<int>, d: nat, p: nat): (s: seq<int>)
    requires |cells| == BDR_KEY_PROVISIONING * d && p < BDR_KEY_PROVISIONING
  {
    CellsInSlots(p, BDR_KEY_PROVISIONING, d);
    cells[p * d..p * d + d]
  }

  ghost predicate SameOutside(old_: seq<int>, new_: seq<int>, from: nat, to: nat) {
    && |old_| == |new_|
    && forall c :: 0 <= c < |old_| && !(from <= c < to) ==> new_[c] == old_[c]
  }

  /** Writing the cells of slot `p` leaves slot `q` alone. */
  lemma OtherSlotKept(old_: seq<int>, new_: seq<int>, d: nat, p: nat, q: nat)
    requires |old_| == BDR_KEY_PROVISIONING * d
    requires p < BDR_KEY_PROVISIONING && q < BDR_KEY_PROVISIONING && p != q
    requires SameOutside(old_, new_, p * d, p * d + d)
    ensures Slot(new_, d, q) == Slot(old_, d, q)
  {
    CellsInSlots(q, BDR_KEY_PROVISIONING, d);
    if q < p {
      CellsInSlots(q, p, d);
    } else {
      CellsInSlots(p, q, d);
    }
  }

  /** Of every key that is among the last ones the ring has room for, the slot of its insertion holds it. */
  ghost predicate Recent(cells: seq<int>, d: nat, history: seq<seq<int>>)
    requires |cells| == BDR_KEY_PROVISIONING * d
  {
    forall i :: 0 <= i < |history| && |history| - BDR_KEY_PROVISIONING <= i ==>
      Slot(cells, d, i % BDR_KEY_PROVISIONING) == history[i]
  }

  lemma RecentAfterInsert(old_: seq<int>, new_: seq<int>, d: nat, history: seq<seq<int>>, key: seq<int>)
    requires |old_| == |new_| == BDR_KEY_PROVISIONING * d
    requires Recent(old_, d, history)
    requires Slot(new_, d, |history| % BDR_KEY_PROVISIONING) == key
    requires forall p: nat :: p < BDR_KEY_PROVISIONING && p != |history| % BDR_KEY_PROVISIONING ==>
               Slot(new_, d, p) == Slot(old_, d, p)
    ensures Recent(new_, d, history + [key])
  {
    forall i | 0 <= i < |history| && |history| + 1 - BDR_KEY_PROVISIONING <= i
      ensures Slot(new_, d, i % BDR_KEY_PROVISIONING) == history[i]
    {
      SlotsDiffer(i, |history|);
    }
  }

  /** The part of the driver's thread data that KeystoreInsert uses. */
  class ThreadInfo {
    const dimensions: nat
    const keystore: array<int>
    var keypos: nat
    ghost var history: seq<seq<int>>   // every key inserted so far

    ghost predicate Valid()
      reads this, keystore
    {
      && keystore.Length == BDR_KEY_PROVISIONING * dimensions
      && keypos == |history| % BDR_KEY_PROVISIONING
      && Recent(keystore[..], dimensions, history)
    }

    constructor (dimensions: nat)
      ensures Valid() && history == [] && this.dimensions == dimensions && fresh(keystore)
    {
      this.dimensions := dimensions;
      keystore := new int[BDR_KEY_PROVISIONING * dimensions];
      keypos, history := 0, [];
    }

    /** The copying loop of KeystoreInsert, into the cells from `base` on. */
    method CopyAttributes(base: nat, key: seq<int>)
      requires |key| == dimensions && base + dimensions <= keystore.Length
      modifies keystore
      ensures keystore[base..base + dimensions] == key
      ensures SameOutside(old(keystore[..]), keystore[..], base, base + dimensions)
    {
      var i := 0;
      while i < dimensions
        invariant 0 <= i <= dimensions
        invariant forall c :: 0 <= c < keystore.Length && !(base <= c < base + i) ==> keystore[c] == old(keystore[c])
        invariant keystore[base..base + i] == key[..i]
      {
        keystore[base + i] := key[i];
        i := i + 1;
      }
    }

    /** Stores the key in the next slot, alters no other slot, and goes on to the slot after it. */
    method KeystoreInsert(key: seq<int>)
      requires Valid() && |key| == dimensions
      modifies this`keypos, this`history, keystore
      ensures Valid() && history == old(history) + [key]
      ensures Slot(keystore[..], dimensions, old(keypos)) == key
      ensures SameOutside(old(keystore[..]), keystore[..],
                          old(keypos) * dimensions, old(keypos) * dimensions + dimensions)
    {
      ghost var was := keystore[..];
      CellsInSlots(keypos, BDR_KEY_PROVISIONING, dimensions);
      CopyAttributes(keypos * dimensions, key);
      assert keystore[..][keypos * dimensions..keypos * dimensions + dimensions] == key;
      forall p: nat | p < BDR_KEY_PROVISIONING && p != keypos
        ensures Slot(keystore[..], dimensions, p) == Slot(was, dimensions, p)
      {
        OtherSlotKept(was, keystore[..], dimensions, keypos, p);
      }
      RecentAfterInsert(was, keystore[..], dimensions, history, key);
      NextSlot(|history|);
      keypos := (keypos + 1) % BDR_KEY_PROVISIONING;
      history := history + [key];
    }

    /** The cells of the slot of the key inserted j calls ago hold its attributes, for as many keys as the ring has room for. */
    lemma RecentKeys(j: nat)
      requires Valid()
      requires j < |history| && j < BDR_KEY_PROVISIONING
      ensures var slot, key := (|history| - 1 - j) % (1024 * 1024 * 2), history[|history| - 1 - j];
              && |key| == dimensions && slot * dimensions + dimensions <= keystore.Length
              && forall c :: 0 <= c < dimensions ==> keystore[slot * dimensions + c] == key[c]
    {
      var slot, key := (|history| - 1 - j) % BDR_KEY_PROVISIONING, history[|history| - 1 - j];
      CellsInSlots(slot, BDR_KEY_PROVISIONING, dimensions);
      assert Slot(keystore[..], dimensions, slot) == key;
      forall c | 0 <= c < dimensions
        ensures keystore[slot * dimensions + c] == key[c]
      {
        assert keystore[..][slot * dimensions..slot * dimensions + dimensions][c] == keystore[slot * dimensions + c];
      }
    }
  }
}
