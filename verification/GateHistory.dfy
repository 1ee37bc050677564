/** What any history of start_transaction, end_transaction and MakeReadOnly comes to (example/Index.cc). */
module GateHistory {
  import opened Gate

  /** The calls of start_transaction, end_transaction and MakeReadOnly, accepted or not. */
  datatype Event = Start(x: Txn) | End(x: Txn) | Freeze

  function Apply(g: Gate, e: Event): Gate {
    match e
    case Start(x) => g.Start(x)
    case End(x) => g.End(x)
    case Freeze => g.Close()
  }

  function After(es: seq<Event>): Gate {
    if es == [] then OPEN_GATE else Apply(After(es[..|es| - 1]), es[|es| - 1])
  }

  /** The transaction was started and has not ended since. */
  ghost predicate Unended(es: seq<Event>, x: Txn) {
    exists i :: 0 <= i < |es| && es[i] == Start(x) && forall j :: i < j < |es| ==> es[j] != End(x)
  }

  /** At this call of MakeReadOnly every transaction that was started has ended. */
  ghost predicate QuietAt(es: seq<Event>, k: nat)
    requires k < |es|
  {
    es[k] == Freeze && forall x: Txn :: !Unended(es[..k], x)
  }

  ghost predicate Frozen(es: seq<Event>) {
    exists k :: 0 <= k < |es| && QuietAt(es, k)
  }

  lemma UnendedMore(es: seq<Event>, e: Event, x: Txn)
    ensures Unended(es + [e], x) <==> e == Start(x) || (Unended(es, x) && e != End(x))
  {
    var more := es + [e];
    assert forall i :: 0 <= i < |es| ==> more[i] == es[i];
    if Unended(more, x) && e != Start(x) {
      var i :| 0 <= i < |more| && more[i] == Start(x) && forall j :: i < j < |more| ==> more[j] != End(x);
      assert es[i] == Start(x);
      assert more[|es|] != End(x);
    }
    if Unended(es, x) && e != End(x) {
      var i :| 0 <= i < |es| && es[i] == Start(x) && forall j :: i < j < |es| ==> es[j] != End(x);
      assert more[i] == Start(x);
    }
    if e == Start(x) {
      assert more[|es|] == Start(x);
    }
  }

  lemma FrozenMore(es: seq<Event>, e: Event)
    ensures Frozen(es + [e]) <==> Frozen(es) || (e == Freeze && forall x: Txn :: !Unended(es, x))
  {
    var more := es + [e];
    assert more[..|es|] == es;
    forall k | 0 <= k < |es|
      ensures QuietAt(more, k) <==> QuietAt(es, k)
    {
      assert more[..k] == es[..k];
    }
    if e == Freeze && forall x: Txn :: !Unended(es, x) {
      assert QuietAt(more, |es|);
    }
  }

  /**
   After any history of calls a structure is read-only exactly if at some call of MakeReadOnly every
   transaction that was started had ended, and unless it is, it has registered exactly those that
   have not ended.  Read-only, it has registered none: whatever was started since is refused.
  */
  lemma {:induction false} HistoryMeans(es: seq<Event>)
    ensures After(es).readOnly <==> Frozen(es)
    ensures forall x: Txn :: x in After(es).transactions <==> !Frozen(es) && Unended(es, x)
  {
    if es != [] {
      var before, e := es[..|es| - 1], es[|es| - 1];
      assert es == before + [e];
      HistoryMeans(before);
      FrozenMore(before, e);
      forall x: Txn
        ensures x in After(es).transactions <==> !Frozen(es) && Unended(es, x)
      {
        UnendedMore(before, e, x);
      }
    }
  }
}
