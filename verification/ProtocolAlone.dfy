/** Runs in which one thread moves on while no other thread holds a mutex. */
module ProtocolAlone {
  import opened Interface
  import opened Protocol
  import opened ProtocolFacts
  import opened ProtocolInvariant
  import opened ProtocolProgress

  /** No other thread holds a mutex. */
  ghost predicate Alone(st: State, t: Thread) {
    forall u: Thread, m: Mutex :: u != t ==> !st.At(u).Holds(m)
  }

  /** The longer run brings the thread to this code; no other thread has moved. */
  ghost predicate Reaches(run: seq<State>, longer: seq<State>, t: Thread, c: Code, shared: Shared)
    requires |run| > 0
  {
    |longer| > 0 &&
    var st, st' := Last(run), Last(longer);
    && run <= longer && Run(longer) && Alone(st', t)
    && st'.At(t) == Activity(c, Entry(c).Some?) && st'.shared == shared
    && forall u: Thread :: u != t ==> st'.At(u) == st.At(u)
  }

  lemma NotHeldYet(c: Code, m: Mutex)
    requires Entry(c) == Some(m)
    ensures !Activity(c, true).Holds(m)
  {
  }

  lemma OwnersHold(st: State)
    requires Inv(st)
    ensures forall m: Mutex :: m in st.owner ==> st.At(st.owner[m]).Holds(m)
  {
  }

  // Through one critical section.
  lemma Section(run: seq<State>, t: Thread, c: Code, e: Effect) returns (longer: seq<State>)
    requires Run(run) && Alone(Last(run), t) && Last(run).At(t).waiting
    requires Work(Last(run).shared, t, Last(run).At(t).code, c, e)
    ensures Reaches(run, longer, t, c, Apply(Last(run).shared, e))
  {
    RunInv(run, |run| - 1);
    var m := Entry(Last(run).At(t).code).value;
    NotHeldYet(Last(run).At(t).code, m);
    OwnersHold(Last(run));
    longer := Takes(run, t);
    longer := Does(longer, t, c, e);
  }

  // Through a step that needs no mutex, or a call.
  lemma Passage(run: seq<State>, t: Thread, c: Code, e: Effect) returns (longer: seq<State>)
    requires Run(run) && Alone(Last(run), t) && Moves(Last(run), t, c, e)
    ensures Reaches(run, longer, t, c, Apply(Last(run).shared, e))
  {
    longer := Does(run, t, c, e);
  }

  ghost predicate Ready(run: seq<State>, t: Thread) {
    |run| > 0 && Run(run) && Alone(Last(run), t) && Last(run).At(t) == Activity(Idle, false)
  }
}
