/**
 What Update and Delete do to the records, against what the interface promises: without flags one
 matching record, with kMatchDuplicates all matching records.
*/
module ModificationLaws {
  import opened Interface
  import opened Order
  import opened Codec
  import opened Records
  import opened Modification

  // ---------- The documented meaning of kMatchDuplicates ----------

  /** Every matching record gets the new payload. */
  ghost function AllReplaced(cmp: Comparator, recs: seq<Rec>, key: seq<Byte>, data: Block, ignore: bool, payload: Block): (out: seq<Rec>)
    ensures |out| == |recs|
  {
    seq(|recs|, i requires 0 <= i < |recs| =>
      if Hits(cmp, recs[i], key, data, ignore) then Rec(recs[i].key, payload) else recs[i])
  }

  /** The records that do not match, in their order. */
  ghost function NonMatching(cmp: Comparator, recs: seq<Rec>, key: seq<Byte>, data: Block, ignore: bool): seq<Rec> {
    if |recs| == 0 then []
    else (if Hits(cmp, recs[0], key, data, ignore) then [] else [recs[0]]) + NonMatching(cmp, recs[1..], key, data, ignore)
  }

  /** Nothing but matching records stands in the range that the loops sweep. */
  ghost predicate OnlyHits(cmp: Comparator, recs: seq<Rec>, key: seq<Byte>, data: Block, ignore: bool) {
    forall i :: FirstHit(cmp, recs, key, data, ignore) <= i < Stop(cmp, recs, key, data, true, ignore) ==>
      Hits(cmp, recs[i], key, data, ignore)
  }

  // ---------- Matches and ranges, without the functions of the code ----------

  /** A record matches exactly if its key has the same values and, unless payloads are ignored, its payload is the same. */
  lemma HitsMean(types: KeyType, r: Rec, key: FullKey, data: Block, ignore: bool)
    requires KeyBytes(types, r.key) && Typed(types, key)
    ensures Hits(ByteOrder(types), r, Encode(types, key), data, ignore) <==>
            ValuesOf(Decode(types, r.key)) == ValuesOf(key) && (ignore || r.data == data)
  {
    EncodeIsKeyBytes(types, key);
    KeyCmpZero(Decode(types, r.key), key);
  }

  /**
   Where the changed range ends: behind the first match, and with kMatchDuplicates at the end of the
   store if payloads are ignored, and at the first other key if not.
  */
  lemma StopMeans(cmp: Comparator, recs: seq<Rec>, key: seq<Byte>, data: Block, all: bool, ignore: bool)
    requires exists i :: 0 <= i < |recs| && Hits(cmp, recs[i], key, data, ignore)
    ensures var from, to := FirstHit(cmp, recs, key, data, ignore), Stop(cmp, recs, key, data, all, ignore);
            && from < to <= |recs|
            && (!all ==> to == from + 1)
            && (all && ignore ==> to == |recs|)
            && (all && !ignore ==>
                  && (forall i :: from < i < to ==> cmp(recs[i].key, key) == 0)
                  && (to < |recs| ==> cmp(recs[to].key, key) != 0))
  {
    var i :| 0 <= i < |recs| && Hits(cmp, recs[i], key, data, ignore);
    assert FirstHit(cmp, recs, key, data, ignore) <= i;
  }

  ghost predicate SomeMatch(cmp: Comparator, recs: seq<Rec>, key: seq<Byte>, data: Block, ignore: bool) {
    exists i :: 0 <= i < |recs| && Hits(cmp, recs[i], key, data, ignore)
  }

  /** Without a failing call Update tells whether a record matched; kErrorGenericFailure means that nothing was changed. */
  lemma UpdateTells(cmp: Comparator, was: seq<Rec>, now: seq<Rec>, key: seq<Byte>, data: Block, payload: Block,
                    all: bool, ignore: bool, at: nat, clean: bool, result: ErrorCode)
    requires Updated(was, now, FirstHit(cmp, was, key, data, ignore), Stop(cmp, was, key, data, all, ignore),
                     at, payload, all, clean, result)
    ensures clean ==> result == if SomeMatch(cmp, was, key, data, ignore) then KOk else KErrorNotFound
    ensures !clean ==> result == KErrorGenericFailure || (all && result == KErrorNotFound)
    ensures result == KErrorGenericFailure ==> now == was
  {
    var from := FirstHit(cmp, was, key, data, ignore);
    assert from < |was| <==> SomeMatch(cmp, was, key, data, ignore);
  }

  /** Without a failing call Delete tells whether a record matched, and with one it returns kErrorGenericFailure. */
  lemma DeleteTells(cmp: Comparator, was: seq<Rec>, now: seq<Rec>, key: seq<Byte>, data: Block,
                    all: bool, ignore: bool, at: nat, clean: bool, result: ErrorCode)
    requires Removed(was, now, FirstHit(cmp, was, key, data, ignore), Stop(cmp, was, key, data, all, ignore),
                     at, all, clean, result)
    ensures clean ==> result == if SomeMatch(cmp, was, key, data, ignore) then KOk else KErrorNotFound
    ensures !clean <==> result == KErrorGenericFailure
    ensures !clean && !all ==> now == was
  {
    var from := FirstHit(cmp, was, key, data, ignore);
    assert from < |was| <==> SomeMatch(cmp, was, key, data, ignore);
  }

  // ---------- The swept range covers every match ----------

  lemma EqualBetween(cmp: Comparator, recs: seq<Rec>, key: seq<Byte>, lo: nat, i: nat, hi: nat)
    requires TotalPreorder(cmp) && Ordered(cmp, recs)
    requires lo <= i <= hi < |recs|
    requires cmp(recs[lo].key, key) == 0 && cmp(recs[hi].key, key) == 0
    ensures cmp(recs[i].key, key) == 0
  {
    if lo < i < hi {
      Flips(cmp, recs[lo].key, key);
      assert cmp(recs[lo].key, recs[i].key) <= 0 && cmp(recs[i].key, recs[hi].key) <= 0;
      Transitive(cmp, key, recs[lo].key, recs[i].key);
      Transitive(cmp, recs[i].key, recs[hi].key, key);
      Flips(cmp, key, recs[i].key);
    }
  }

  /** With kMatchDuplicates no matching record is left out, and nothing before the first match is touched. */
  lemma SweepCoversMatches(cmp: Comparator, recs: seq<Rec>, key: seq<Byte>, data: Block, ignore: bool, i: nat)
    requires TotalPreorder(cmp) && Ordered(cmp, recs)
    requires i < |recs| && Hits(cmp, recs[i], key, data, ignore)
    ensures FirstHit(cmp, recs, key, data, ignore) <= i < Stop(cmp, recs, key, data, true, ignore)
  {
    var from := FirstHit(cmp, recs, key, data, ignore);
    assert from <= i;
    if !ignore && from < i {
      forall j | from + 1 <= j <= i
        ensures cmp(recs[j].key, key) == 0
      {
        EqualBetween(cmp, recs, key, from, j, i);
      }
      InRun(cmp, recs, from + 1, i + 1, key);
    }
  }

  // ---------- kMatchDuplicates: exact conditions ----------

  /**
   Update with kMatchDuplicates replaces exactly the matching records if and only if every swept
   record that does not match carries the new payload already.
  */
  lemma UpdateAllExact(cmp: Comparator, recs: seq<Rec>, key: seq<Byte>, data: Block, ignore: bool, payload: Block)
    requires TotalPreorder(cmp) && Ordered(cmp, recs)
    ensures var from, to := FirstHit(cmp, recs, key, data, ignore), Stop(cmp, recs, key, data, true, ignore);
            Overwritten(recs, from, to, payload) == AllReplaced(cmp, recs, key, data, ignore, payload) <==>
            forall i :: from <= i < to ==> Hits(cmp, recs[i], key, data, ignore) || recs[i].data == payload
  {
    var from, to := FirstHit(cmp, recs, key, data, ignore), Stop(cmp, recs, key, data, true, ignore);
    var swept, wanted := Overwritten(recs, from, to, payload), AllReplaced(cmp, recs, key, data, ignore, payload);
    forall i | 0 <= i < |recs|
      ensures swept[i] == wanted[i] <==> !(from <= i < to) || Hits(cmp, recs[i], key, data, ignore) || recs[i].data == payload
    {
      if Hits(cmp, recs[i], key, data, ignore) {
        SweepCoversMatches(cmp, recs, key, data, ignore, i);
      }
    }
    if swept != wanted {
      assert exists i :: 0 <= i < |recs| && swept[i] != wanted[i];
    }
  }

  lemma {:induction false} NonMatchingJoins(cmp: Comparator, a: seq<Rec>, b: seq<Rec>, key: seq<Byte>, data: Block, ignore: bool)
    ensures NonMatching(cmp, a + b, key, data, ignore) ==
            NonMatching(cmp, a, key, data, ignore) + NonMatching(cmp, b, key, data, ignore)
  {
    if |a| == 0 {
      assert a + b == b;
    } else {
      NonMatchingJoins(cmp, a[1..], b, key, data, ignore);
      assert (a + b)[1..] == a[1..] + b && (a + b)[0] == a[0];
      var head := if Hits(cmp, a[0], key, data, ignore) then [] else [a[0]];
      var x, y := NonMatching(cmp, a[1..], key, data, ignore), NonMatching(cmp, b, key, data, ignore);
      assert (head + x) + y == head + (x + y);
    }
  }

  lemma {:induction false} NonMatchingExtremes(cmp: Comparator, s: seq<Rec>, key: seq<Byte>, data: Block, ignore: bool)
    ensures NonMatching(cmp, s, key, data, ignore) == [] <==> forall i :: 0 <= i < |s| ==> Hits(cmp, s[i], key, data, ignore)
    ensures (forall i :: 0 <= i < |s| ==> !Hits(cmp, s[i], key, data, ignore)) ==> NonMatching(cmp, s, key, data, ignore) == s
  {
    if |s| > 0 {
      NonMatchingExtremes(cmp, s[1..], key, data, ignore);
      assert forall i :: 0 < i < |s| ==> s[i] == s[1..][i - 1];
      assert s == [s[0]] + s[1..];
    }
  }

  lemma Cancel<T>(a: seq<T>, m: seq<T>, b: seq<T>)
    ensures a + m + b == a + b <==> m == []
  {
    assert |a + m + b| == |a| + |m| + |b|;
    assert a + [] == a;
  }

  // The records before, inside and behind a range; the first and last part hold no match.
  lemma NonMatchingSplits(cmp: Comparator, recs: seq<Rec>, key: seq<Byte>, data: Block, ignore: bool, from: nat, to: nat)
    requires from <= to <= |recs|
    requires forall i :: 0 <= i < |recs| && Hits(cmp, recs[i], key, data, ignore) ==> from <= i < to
    ensures NonMatching(cmp, recs, key, data, ignore) ==
            recs[..from] + NonMatching(cmp, recs[from..to], key, data, ignore) + recs[to..]
  {
    var a, m, b := recs[..from], recs[from..to], recs[to..];
    assert recs == a + m + b;
    NonMatchingJoins(cmp, a + m, b, key, data, ignore);
    NonMatchingJoins(cmp, a, m, key, data, ignore);
    NonMatchingExtremes(cmp, a, key, data, ignore);
    NonMatchingExtremes(cmp, b, key, data, ignore);
  }

  /** Delete with kMatchDuplicates removes exactly the matching records if and only if it sweeps no other record. */
  lemma DeleteAllExact(cmp: Comparator, recs: seq<Rec>, key: seq<Byte>, data: Block, ignore: bool)
    requires TotalPreorder(cmp) && Ordered(cmp, recs)
    ensures Without(recs, FirstHit(cmp, recs, key, data, ignore), Stop(cmp, recs, key, data, true, ignore)) ==
            NonMatching(cmp, recs, key, data, ignore)
            <==> OnlyHits(cmp, recs, key, data, ignore)
  {
    var from, to := FirstHit(cmp, recs, key, data, ignore), Stop(cmp, recs, key, data, true, ignore);
    forall i | 0 <= i < |recs| && Hits(cmp, recs[i], key, data, ignore)
      ensures from <= i < to
    {
      SweepCoversMatches(cmp, recs, key, data, ignore, i);
    }
    NonMatchingSplits(cmp, recs, key, data, ignore, from, to);
    RangeExact(cmp, recs, key, data, ignore, from, to);
  }

  lemma RangeExact(cmp: Comparator, recs: seq<Rec>, key: seq<Byte>, data: Block, ignore: bool, from: nat, to: nat)
    requires from <= to <= |recs|
    ensures Without(recs, from, to) == recs[..from] + NonMatching(cmp, recs[from..to], key, data, ignore) + recs[to..]
            <==> forall i :: from <= i < to ==> Hits(cmp, recs[i], key, data, ignore)
  {
    var m := recs[from..to];
    Cancel(recs[..from], NonMatching(cmp, m, key, data, ignore), recs[to..]);
    NonMatchingExtremes(cmp, m, key, data, ignore);
    assert forall i :: 0 <= i < |m| ==> m[i] == recs[from + i];
    assert forall i :: from <= i < to ==> recs[i] == m[i - from];
  }

  // The order around the first match.
  lemma AroundFirst(cmp: Comparator, recs: seq<Rec>, key: seq<Byte>, data: Block, ignore: bool, i: nat)
    requires TotalPreorder(cmp) && Ordered(cmp, recs)
    requires FirstHit(cmp, recs, key, data, ignore) < |recs| && i < |recs|
    ensures i < FirstHit(cmp, recs, key, data, ignore) ==> cmp(recs[i].key, key) <= 0
    ensures i >= FirstHit(cmp, recs, key, data, ignore) ==> cmp(recs[i].key, key) >= 0
  {
    var from := FirstHit(cmp, recs, key, data, ignore);
    Flips(cmp, recs[from].key, key);
    if i < from {
      assert cmp(recs[i].key, recs[from].key) <= 0;
      Transitive(cmp, recs[i].key, recs[from].key, key);
    } else if from < i {
      assert cmp(recs[from].key, recs[i].key) <= 0;
      Transitive(cmp, key, recs[from].key, recs[i].key);
      Flips(cmp, key, recs[i].key);
    }
  }

  // Behind the first exact match, the loop over duplicates reaches the equal keys.
  lemma SweptMatching(cmp: Comparator, recs: seq<Rec>, key: seq<Byte>, data: Block, i: nat)
    requires TotalPreorder(cmp) && Ordered(cmp, recs)
    requires FirstHit(cmp, recs, key, data, false) <= i < |recs|
    ensures cmp(recs[i].key, key) == 0 <==> i < Stop(cmp, recs, key, data, true, false)
  {
    var from := FirstHit(cmp, recs, key, data, false);
    if cmp(recs[i].key, key) == 0 && from < i {
      forall j | from + 1 <= j <= i
        ensures cmp(recs[j].key, key) == 0
      {
        EqualBetween(cmp, recs, key, from, j, i);
      }
      InRun(cmp, recs, from + 1, i + 1, key);
    }
  }

  /**
   The condition for Delete in the caller's terms, when payloads are ignored: no record has a greater
   key, because the loop runs to the end of the store.
  */
  lemma OnlyHitsIgnoring(cmp: Comparator, recs: seq<Rec>, key: seq<Byte>, data: Block)
    requires TotalPreorder(cmp) && Ordered(cmp, recs)
    requires FirstHit(cmp, recs, key, data, true) < |recs|
    ensures OnlyHits(cmp, recs, key, data, true) <==> forall i :: 0 <= i < |recs| ==> cmp(recs[i].key, key) <= 0
  {
    forall i | 0 <= i < |recs|
      ensures i < FirstHit(cmp, recs, key, data, true) ==> cmp(recs[i].key, key) <= 0
      ensures i >= FirstHit(cmp, recs, key, data, true) ==> cmp(recs[i].key, key) >= 0
    {
      AroundFirst(cmp, recs, key, data, true, i);
    }
  }

  /**
   The condition for Delete in the caller's terms, when payloads are matched: behind the first match
   no record with an equal key has another payload, because NEXT_DUP ignores payloads.
  */
  lemma OnlyHitsMatching(cmp: Comparator, recs: seq<Rec>, key: seq<Byte>, data: Block)
    requires TotalPreorder(cmp) && Ordered(cmp, recs)
    ensures OnlyHits(cmp, recs, key, data, false) <==>
            forall i :: FirstHit(cmp, recs, key, data, false) <= i < |recs| && cmp(recs[i].key, key) == 0 ==> recs[i].data == data
  {
    forall i | FirstHit(cmp, recs, key, data, false) <= i < |recs|
      ensures cmp(recs[i].key, key) == 0 <==> i < Stop(cmp, recs, key, data, true, false)
    {
      SweptMatching(cmp, recs, key, data, i);
    }
  }

  /**
   Update with both flags replaces exactly the matching records if and only if every record with a
   greater key carries the new payload already.
  */
  lemma UpdateIgnoringExact(cmp: Comparator, recs: seq<Rec>, key: seq<Byte>, data: Block, payload: Block)
    requires TotalPreorder(cmp) && Ordered(cmp, recs)
    requires FirstHit(cmp, recs, key, data, true) < |recs|
    ensures var from, to := FirstHit(cmp, recs, key, data, true), Stop(cmp, recs, key, data, true, true);
            Overwritten(recs, from, to, payload) == AllReplaced(cmp, recs, key, data, true, payload) <==>
            forall i :: 0 <= i < |recs| && cmp(recs[i].key, key) > 0 ==> recs[i].data == payload
  {
    UpdateAllExact(cmp, recs, key, data, true, payload);
    forall i | 0 <= i < |recs|
      ensures i < FirstHit(cmp, recs, key, data, true) ==> cmp(recs[i].key, key) <= 0
      ensures i >= FirstHit(cmp, recs, key, data, true) ==> cmp(recs[i].key, key) >= 0
    {
      AroundFirst(cmp, recs, key, data, true, i);
    }
  }

  /**
   Update with kMatchDuplicates alone replaces exactly the matching records if and only if behind the
   first of them every record with that key has the old or the new payload.
  */
  lemma UpdateMatchingExact(cmp: Comparator, recs: seq<Rec>, key: seq<Byte>, data: Block, payload: Block)
    requires TotalPreorder(cmp) && Ordered(cmp, recs)
    ensures var from, to := FirstHit(cmp, recs, key, data, false), Stop(cmp, recs, key, data, true, false);
            Overwritten(recs, from, to, payload) == AllReplaced(cmp, recs, key, data, false, payload) <==>
            forall i :: from <= i < |recs| && cmp(recs[i].key, key) == 0 ==> recs[i].data == data || recs[i].data == payload
  {
    UpdateAllExact(cmp, recs, key, data, false, payload);
    forall i | FirstHit(cmp, recs, key, data, false) <= i < |recs|
      ensures cmp(recs[i].key, key) == 0 <==> i < Stop(cmp, recs, key, data, true, false)
    {
      SweptMatching(cmp, recs, key, data, i);
    }
  }

  // ---------- Results after a failure ----------

  /**
   Update reports kErrorNotFound although a record matched exactly when kMatchDuplicates is set and a
   call to the store failed behind the first put.  Records have been changed then.
  */
  lemma NotFoundThoughMatched(cmp: Comparator, was: seq<Rec>, now: seq<Rec>, key: seq<Byte>, data: Block, ignore: bool,
                              at: nat, payload: Block, all: bool, clean: bool, result: ErrorCode)
    requires exists i :: 0 <= i < |was| && Hits(cmp, was[i], key, data, ignore)
    requires var from, to := FirstHit(cmp, was, key, data, ignore), Stop(cmp, was, key, data, all, ignore);
             Updated(was, now, from, to, at, payload, all, clean, result)
    ensures var from := FirstHit(cmp, was, key, data, ignore);
            && (result == KErrorNotFound <==> all && !clean && from < at)
            && (result == KErrorNotFound ==> now[from] == Rec(was[from].key, payload))
  {
    var i :| 0 <= i < |was| && Hits(cmp, was[i], key, data, ignore);
    assert FirstHit(cmp, was, key, data, ignore) <= i;
  }

  // ---------- Without flags: one record ----------

  lemma ReplaceMultiset<T>(s: seq<T>, at: nat, x: T)
    requires at < |s|
    ensures multiset(s[at := x]) == multiset(s) - multiset{s[at]} + multiset{x}
  {
  }

  lemma RemoveMultiset<T>(s: seq<T>, at: nat)
    requires at < |s|
    ensures multiset(s[..at] + s[at + 1..]) == multiset(s) - multiset{s[at]}
  {
    assert s == s[..at] + [s[at]] + s[at + 1..];
  }

  lemma WithoutMultiset(recs: seq<Rec>, at: nat)
    requires at < |recs|
    ensures multiset(Without(recs, at, at + 1)) == multiset(recs) - multiset{recs[at]}
  {
    RemoveMultiset(recs, at);
  }

  lemma OverwriteMultiset(recs: seq<Rec>, at: nat, payload: Block)
    requires at < |recs|
    ensures multiset(Overwritten(recs, at, at + 1, payload)) ==
            multiset(recs) - multiset{recs[at]} + multiset{Rec(recs[at].key, payload)}
  {
    FirstPut(recs, at, payload);
    ReplaceMultiset(recs, at, Rec(recs[at].key, payload));
  }

  /** Update without flags replaces one matching record (k, p) by (k, p') and keeps all others. */
  lemma UpdateOne(cmp: Comparator, recs: seq<Rec>, key: seq<Byte>, data: Block, ignore: bool, payload: Block)
    ensures var from, to := FirstHit(cmp, recs, key, data, ignore), Stop(cmp, recs, key, data, false, ignore);
            var now := Overwritten(recs, from, to, payload);
            && (from == |recs| ==> now == recs)
            && (from < |recs| ==> Hits(cmp, recs[from], key, data, ignore))
            && (from < |recs| ==>
                  multiset(now) == multiset(recs) - multiset{recs[from]} + multiset{Rec(recs[from].key, payload)})
  {
    var from := FirstHit(cmp, recs, key, data, ignore);
    if from < |recs| {
      OverwriteMultiset(recs, from, payload);
    } else {
      OverwrittenNone(recs, from, payload);
    }
  }

  /** Delete without flags removes one matching record and keeps all others. */
  lemma DeleteOne(cmp: Comparator, recs: seq<Rec>, key: seq<Byte>, data: Block, ignore: bool)
    ensures var from, to := FirstHit(cmp, recs, key, data, ignore), Stop(cmp, recs, key, data, false, ignore);
            && (from == |recs| ==> Without(recs, from, to) == recs)
            && (from < |recs| ==> multiset(Without(recs, from, to)) == multiset(recs) - multiset{recs[from]})
            && (from < |recs| ==> Hits(cmp, recs[from], key, data, ignore))
  {
    var from := FirstHit(cmp, recs, key, data, ignore);
    var to := Stop(cmp, recs, key, data, false, ignore);
    assert to == if from < |recs| then from + 1 else |recs|;
    if from < |recs| {
      WithoutMultiset(recs, from);
    } else {
      WithoutNone(recs, from);
    }
  }

  // ---------- Insert followed by Delete ----------

  /** A record as the caller sees it: the values of its key and its payload. */
  datatype Logical = Logical(key: seq<Value>, payload: Block)

  ghost function LogicalOf(types: KeyType, r: Rec): Logical
    requires KeyBytes(types, r.key)
  {
    Logical(ValuesOf(Decode(types, r.key)), r.data)
  }

  ghost function LogicalRecords(types: KeyType, recs: seq<Rec>): (out: seq<Logical>)
    requires AllKeys(types, recs)
    ensures |out| == |recs|
  {
    seq(|recs|, i requires 0 <= i < |recs| => LogicalOf(types, recs[i]))
  }

  lemma EqualKeysLogical(types: KeyType, a: Rec, b: Rec)
    requires KeyBytes(types, a.key) && KeyBytes(types, b.key)
    requires BytesCmp(types, a.key, b.key) == 0 && a.data == b.data
    ensures LogicalOf(types, a) == LogicalOf(types, b)
  {
    KeyCmpZero(Decode(types, a.key), Decode(types, b.key));
  }

  lemma LogicalWithout(types: KeyType, recs: seq<Rec>, at: nat)
    requires AllKeys(types, recs) && at < |recs|
    ensures AllKeys(types, Without(recs, at, at + 1))
    ensures multiset(LogicalRecords(types, Without(recs, at, at + 1))) ==
            multiset(LogicalRecords(types, recs)) - multiset{LogicalOf(types, recs[at])}
  {
    WithoutAllKeys(types, recs, at, at + 1);
    var s, out := LogicalRecords(types, recs), LogicalRecords(types, Without(recs, at, at + 1));
    assert out == s[..at] + s[at + 1..];
    RemoveMultiset(s, at);
  }

  // The record found after an insertion is the new one or an older one that matches it.
  lemma InsertedIsFound(cmp: Comparator, recs: seq<Rec>, r: Rec)
    requires TotalPreorder(cmp)
    ensures var during := Inserted(cmp, recs, r);
            var n, from := UpperBound(cmp, recs, r.key), FirstHit(cmp, during, r.key, r.data, false);
            && from <= n < |during| && during[n] == r
            && Hits(cmp, during[from], r.key, r.data, false)
            && Without(during, n, n + 1) == recs
  {
    var during := Inserted(cmp, recs, r);
    var n := UpperBound(cmp, recs, r.key);
    Flips(cmp, r.key, r.key);
    TakenOut(recs, n, r);
    assert Hits(cmp, during[n], r.key, r.data, false);
  }

  lemma TakenOut(recs: seq<Rec>, n: nat, r: Rec)
    requires n <= |recs|
    ensures var during := recs[..n] + [r] + recs[n..];
            |during| == |recs| + 1 && during[n] == r && Without(during, n, n + 1) == recs
  {
  }

  /**
   Inserting a record and then deleting it without flags finds it and restores the records, as the
   caller sees them: an older equal record may be the one that goes.
  */
  lemma InsertThenDelete(types: KeyType, cmp: Comparator, recs: seq<Rec>, r: Rec)
    requires cmp == ByteOrder(types)
    requires AllKeys(types, recs) && KeyBytes(types, r.key)
    ensures var during := Inserted(cmp, recs, r);
            var from, to := FirstHit(cmp, during, r.key, r.data, false), Stop(cmp, during, r.key, r.data, false, false);
            && from < |during|
            && AllKeys(types, Without(during, from, to))
            && multiset(LogicalRecords(types, Without(during, from, to))) == multiset(LogicalRecords(types, recs))
  {
    var during := Inserted(cmp, recs, r);
    ByteOrderTotal(types);
    InsertedIsFound(cmp, recs, r);
    InsertedAllKeys(types, cmp, recs, r);
    var n, from := UpperBound(cmp, recs, r.key), FirstHit(cmp, during, r.key, r.data, false);
    LogicalWithout(types, during, n);
    assert during[n] == r && Without(during, n, n + 1) == recs;
    LogicalWithout(types, during, from);
    EqualKeysLogical(types, during[from], r);
  }
}
