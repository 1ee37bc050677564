/** Which records an Update or Delete call touches (example/Index.cc). */
module Modification {
  import opened Interface
  import opened Codec
  import opened Records
  import opened Store

  /** The record has an equal key and, unless payloads are ignored, this very payload. */
  predicate Hits(cmp: Comparator, r: Rec, key: seq<Byte>, data: Block, ignore: bool) {
    cmp(r.key, key) == 0 && (ignore || r.data == data)
  }

  /** The first record that matches, or the number of records. */
  ghost function FirstHit(cmp: Comparator, recs: seq<Rec>, key: seq<Byte>, data: Block, ignore: bool): (n: nat)
    ensures n <= |recs|
    ensures forall i :: 0 <= i < n ==> !Hits(cmp, recs[i], key, data, ignore)
    ensures n < |recs| ==> Hits(cmp, recs[n], key, data, ignore)
  {
    if |recs| == 0 || Hits(cmp, recs[0], key, data, ignore) then 0
    else 1 + FirstHit(cmp, recs[1..], key, data, ignore)
  }

  /** The end of the run of equal keys that starts at or behind a position. */
  ghost function RunEnd(cmp: Comparator, recs: seq<Rec>, from: nat, key: seq<Byte>): (n: nat)
    requires from <= |recs|
    ensures from <= n <= |recs|
    ensures forall i :: from <= i < n ==> cmp(recs[i].key, key) == 0
    ensures n < |recs| ==> cmp(recs[n].key, key) != 0
    decreases |recs| - from
  {
    if from == |recs| || cmp(recs[from].key, key) != 0 then from else RunEnd(cmp, recs, from + 1, key)
  }

  /**
   The end of the touched range.  With kMatchDuplicates the loop over exact matches runs to the end
   of the equal keys, and the loop that ignores payloads runs to the end of the store, because its
   guard compares a key that was decoded before the loop.
  */
  ghost function Stop(cmp: Comparator, recs: seq<Rec>, key: seq<Byte>, data: Block, all: bool, ignore: bool): (n: nat)
    ensures FirstHit(cmp, recs, key, data, ignore) < |recs| ==> FirstHit(cmp, recs, key, data, ignore) < n <= |recs|
    ensures FirstHit(cmp, recs, key, data, ignore) == |recs| ==> n == |recs|
  {
    var start := FirstHit(cmp, recs, key, data, ignore);
    if start == |recs| then |recs| else StopFrom(cmp, recs, key, all, ignore, start)
  }

  ghost function StopFrom(cmp: Comparator, recs: seq<Rec>, key: seq<Byte>, all: bool, ignore: bool, start: nat): (n: nat)
    requires start < |recs|
    ensures start < n <= |recs|
  {
    if !all then start + 1
    else if ignore then |recs|
    else RunEnd(cmp, recs, start + 1, key)
  }

  // What the search's success says about the range.
  lemma AtMatch(cmp: Comparator, recs: seq<Rec>, key: seq<Byte>, data: Block, all: bool, ignore: bool)
    requires FirstHit(cmp, recs, key, data, ignore) < |recs|
    ensures var from := FirstHit(cmp, recs, key, data, ignore);
            && cmp(recs[from].key, key) == 0
            && Stop(cmp, recs, key, data, all, ignore) == StopFrom(cmp, recs, key, all, ignore, from)
  {
    var from := FirstHit(cmp, recs, key, data, ignore);
    assert Hits(cmp, recs[from], key, data, ignore);
  }

  lemma {:induction false} HitIsLowerBound(cmp: Comparator, recs: seq<Rec>, key: seq<Byte>, data: Block)
    requires TotalPreorder(cmp) && Ordered(cmp, recs)
    ensures var n := LowerBound(cmp, recs, key);
            FirstHit(cmp, recs, key, data, true) ==
            if n < |recs| && cmp(recs[n].key, key) == 0 then n else |recs|
  {
    var n, m := LowerBound(cmp, recs, key), FirstHit(cmp, recs, key, data, true);
    if n < |recs| && cmp(recs[n].key, key) != 0 && m < |recs| {
      assert n <= m;
      Flips(cmp, recs[n].key, key);
      if n < m {
        Transitive(cmp, key, recs[n].key, recs[m].key);
        Flips(cmp, key, recs[m].key);
      }
    }
  }

  lemma {:induction false} RunEndByKeys(cmp: Comparator, a: seq<Rec>, b: seq<Rec>, from: nat, key: seq<Byte>)
    requires SameKeys(a, b) && from <= |a|
    ensures RunEnd(cmp, a, from, key) == RunEnd(cmp, b, from, key)
    decreases |a| - from
  {
    if from < |a| && cmp(a[from].key, key) == 0 {
      RunEndByKeys(cmp, a, b, from + 1, key);
    }
  }

  lemma {:induction false} InRun(cmp: Comparator, recs: seq<Rec>, from: nat, i: nat, key: seq<Byte>)
    requires from <= i <= |recs|
    requires forall j :: from <= j < i ==> cmp(recs[j].key, key) == 0
    ensures RunEnd(cmp, recs, from, key) == RunEnd(cmp, recs, i, key)
    decreases i - from
  {
    if from < i {
      InRun(cmp, recs, from + 1, i, key);
    }
  }

  lemma OverwrittenJoins(recs: seq<Rec>, lo: nat, mid: nat, hi: nat, data: Block)
    requires lo <= mid <= hi <= |recs|
    ensures Overwritten(Overwritten(recs, lo, mid, data), mid, hi, data) == Overwritten(recs, lo, hi, data)
    ensures SameKeys(recs, Overwritten(recs, lo, hi, data))
  {
  }

  lemma OverwrittenOne(recs: seq<Rec>, lo: nat, at: nat, data: Block)
    requires lo <= at < |recs|
    ensures var was := Overwritten(recs, lo, at, data);
            was[at := Rec(was[at].key, data)] == Overwritten(recs, lo, at + 1, data)
  {
  }

  lemma WithoutJoins(recs: seq<Rec>, lo: nat, mid: nat, hi: nat)
    requires lo <= mid <= hi <= |recs|
    ensures Without(Without(recs, lo, mid), lo, lo + (hi - mid)) == Without(recs, lo, hi)
    ensures forall i :: lo <= i < |Without(recs, lo, mid)| ==> Without(recs, lo, mid)[i] == recs[i - lo + mid]
  {
  }

  /**
   The outcome of one of Update's loops: the records up to `at` were overwritten, all of the range
   unless a call failed.
  */
  ghost predicate Swept(was: seq<Rec>, now: seq<Rec>, lo: nat, hi: nat, at: nat, data: Block, err: DbResult) {
    && err != Done
    && lo <= at <= hi && now == Overwritten(was, lo, at, data)
    && (err == NotFound ==> at == hi)
  }

  /** The result of Update: whether a record matched, whether one was changed, and whether no call to the store failed. */
  function UpdateResult(found: bool, changed: bool, clean: bool): ErrorCode {
    if clean then if found then KOk else KErrorNotFound
    else if changed then KErrorNotFound
    else KErrorGenericFailure
  }

  function DeleteResult(found: bool, clean: bool): ErrorCode {
    if !clean then KErrorGenericFailure else if found then KOk else KErrorNotFound
  }

  /**
   The outcome of Update on the range from `from` up to `to`: the payloads up to `at` are replaced,
   which is all of them unless a call to the store failed.
  */
  ghost predicate Updated(was: seq<Rec>, now: seq<Rec>, from: nat, to: nat, at: nat, data: Block, all: bool, clean: bool, result: ErrorCode) {
    && from <= at <= to && now == Overwritten(was, from, at, data)
    && (at == from ==> now == was)
    && (clean ==> at == to)
    && (!all && from < at ==> clean)
    && result == UpdateResult(from < to, from < at, clean)
  }

  /** The outcome of Delete: the records up to `at` are removed, all of them unless a call to the store failed. */
  ghost predicate Removed(was: seq<Rec>, now: seq<Rec>, from: nat, to: nat, at: nat, all: bool, clean: bool, result: ErrorCode) {
    && from <= at <= to <= |was| && now == Without(was, from, at)
    && (at == from ==> now == was)
    && (clean ==> at == to)
    && (!all && from < at ==> clean)
    && result == DeleteResult(from < to, clean)
  }

  lemma OverwrittenNone(was: seq<Rec>, at: nat, data: Block)
    ensures Overwritten(was, at, at, data) == was
  {
  }

  lemma FirstPut(was: seq<Rec>, at: nat, data: Block)
    requires at < |was|
    ensures was[at := Rec(was[at].key, data)] == Overwritten(was, at, at + 1, data)
    ensures SameKeys(was, Overwritten(was, at, at + 1, data))
  {
  }

  // The outcomes that Update and Delete distinguish.

  lemma NothingUpdated(was: seq<Rec>, from: nat, to: nat, data: Block, all: bool)
    requires from <= to
    ensures Updated(was, was, from, to, from, data, all, false, KErrorGenericFailure)
  {
    OverwrittenNone(was, from, data);
  }

  // The search found nothing, or failed.
  lemma MissedUpdate(was: seq<Rec>, from: nat, to: nat, data: Block, all: bool, err: DbResult)
    requires from <= to && (err == NotFound ==> from == to)
    ensures Updated(was, was, from, to, from, data, all, err == NotFound,
                    if err == NotFound then KErrorNotFound else KErrorGenericFailure)
  {
    OverwrittenNone(was, from, data);
  }

  lemma OneUpdated(was: seq<Rec>, from: nat, data: Block)
    ensures Updated(was, Overwritten(was, from, from + 1, data), from, from + 1, from + 1, data, false, true, KOk)
  {
  }

  lemma RestUpdated(was: seq<Rec>, now: seq<Rec>, from: nat, to: nat, at: nat, data: Block, err: DbResult)
    requires from < to <= |was|
    requires Swept(Overwritten(was, from, from + 1, data), now, from + 1, to, at, data, err)
    ensures Updated(was, now, from, to, at, data, true, err == NotFound, if err == NotFound then KOk else KErrorNotFound)
  {
    OverwrittenJoins(was, from, from + 1, at, data);
  }

  lemma NothingRemoved(was: seq<Rec>, from: nat, to: nat, all: bool)
    requires from <= to <= |was|
    ensures Removed(was, was, from, to, from, all, false, KErrorGenericFailure)
  {
    WithoutNone(was, from);
  }

  // The search found nothing, or failed.
  lemma MissedRemoval(was: seq<Rec>, from: nat, to: nat, all: bool, err: DbResult)
    requires from <= to <= |was| && (err == NotFound ==> from == to)
    ensures Removed(was, was, from, to, from, all, err == NotFound,
                    if err == NotFound then KErrorNotFound else KErrorGenericFailure)
  {
    WithoutNone(was, from);
  }

  lemma OneRemoved(was: seq<Rec>, from: nat)
    requires from < |was|
    ensures Removed(was, Without(was, from, from + 1), from, from + 1, from + 1, false, true, KOk)
  {
  }

  // The loop removes at one place, so it counts records from `from` on; the first one was removed before it.
  lemma RestRemoved(was: seq<Rec>, now: seq<Rec>, from: nat, to: nat, at: nat, err: DbResult)
    requires from < to <= |was|
    requires RemovalSwept(Without(was, from, from + 1), now, from, to - 1, at, err)
    ensures Removed(was, now, from, to, at + 1, true, err == NotFound, if err == NotFound then KOk else KErrorGenericFailure)
  {
    WithoutJoins(was, from, from + 1, at + 1);
  }

  lemma UpdatedAllKeys(types: KeyType, was: seq<Rec>, lo: nat, hi: nat, data: Block)
    ensures SameKeys(was, Overwritten(was, lo, hi, data))
    ensures AllKeys(types, was) ==> AllKeys(types, Overwritten(was, lo, hi, data))
  {
    if AllKeys(types, was) {
      SameKeysAllKeys(types, was, Overwritten(was, lo, hi, data));
    }
  }

  /** The outcome of one of Delete's loops: the records up to `at` were removed, all of the range unless a call failed. */
  ghost predicate RemovalSwept(was: seq<Rec>, now: seq<Rec>, lo: nat, hi: nat, at: nat, err: DbResult) {
    && err != Done
    && lo <= at <= hi <= |was| && now == Without(was, lo, at)
    && (err == NotFound ==> at == hi)
  }

  lemma WithoutNone(was: seq<Rec>, at: nat)
    requires at <= |was|
    ensures Without(was, at, at) == was
  {
  }

  lemma WithoutOne(was: seq<Rec>, lo: nat, at: nat)
    requires lo <= at <= |was|
    ensures |Without(was, lo, at)| == |was| - (at - lo)
    ensures at < |was| ==> Without(was, lo, at)[lo] == was[at]
    ensures at < |was| ==> Without(Without(was, lo, at), lo, lo + 1) == Without(was, lo, at + 1)
  {
    if at < |was| {
      WithoutJoins(was, lo, at, at + 1);
    }
  }

  lemma {:induction false} RunEndWithout(cmp: Comparator, recs: seq<Rec>, lo: nat, at: nat, key: seq<Byte>)
    requires lo < at <= |recs|
    ensures RunEnd(cmp, Without(recs, lo, lo + 1), at - 1, key) == RunEnd(cmp, recs, at, key) - 1
    decreases |recs| - at
  {
    if at < |recs| {
      assert Without(recs, lo, lo + 1)[at - 1] == recs[at];
      if cmp(recs[at].key, key) == 0 {
        RunEndWithout(cmp, recs, lo, at + 1, key);
      }
    }
  }

  // Once the first match is removed, the rest of the range is one place nearer.
  lemma RestOfRange(cmp: Comparator, was: seq<Rec>, key: seq<Byte>, ignore: bool, from: nat)
    requires from < |was|
    ensures var one, to := Without(was, from, from + 1), StopFrom(cmp, was, key, true, ignore, from);
            && from < to <= |was| && |one| == |was| - 1
            && to - 1 == if ignore then |one| else RunEnd(cmp, one, from, key)
  {
    RunEndWithout(cmp, was, from, from + 1, key);
  }

  lemma SameClass(cmp: Comparator, a: seq<Byte>, b: seq<Byte>, c: seq<Byte>)
    requires TotalPreorder(cmp) && cmp(b, c) == 0
    ensures cmp(a, b) == 0 <==> cmp(a, c) == 0
  {
    Flips(cmp, a, b);
    Flips(cmp, b, c);
    Flips(cmp, a, c);
    if cmp(a, b) == 0 {
      Transitive(cmp, a, b, c);
      Transitive(cmp, c, b, a);
    }
    if cmp(a, c) == 0 {
      Transitive(cmp, a, c, b);
      Transitive(cmp, b, c, a);
    }
  }
}
