/** A concrete run in which an index is deleted while another thread opens a handle of it. */
module ProtocolLateHandle {
  import opened Gate
  import opened Protocol
  import opened ProtocolFacts
  import opened ProtocolProgress
  import opened ProtocolRemoval

  const NAME: Name := "a"
  const LATE := Handle(0, NAME, 0)

  const CREATED := Shared(map[NAME := 0], 1, map[], map[], {}, {}, 0, {NAME}, {}, {})

  ghost predicate NobodyLocks(st: State) {
    forall m: Mutex :: m !in st.owner
  }

  /** Thread 0 creates the index. */
  lemma Created() returns (run: seq<State>)
    ensures Run(run) && NobodyLocks(Last(run)) && Last(run).shared == CREATED
    ensures Last(run).At(0) == Last(run).At(1) == Activity(Idle, false)
  {
    run := [State(map[], map[], Shared(map[], 0, map[], map[], {}, {}, 0, {}, {}, {}))];
    run := Does(run, 0, CreateInsert(NAME), CreateDatabase(NAME));
    run := Takes(run, 0);
    run := Does(run, 0, Idle, InsertStructure(NAME));
  }

  /** Thread 1 looks it up, and has not registered its handle yet. */
  lemma Found() returns (run: seq<State>)
    ensures Run(run) && NobodyLocks(Last(run)) && Last(run).shared == CREATED.(nextHandle := 1)
    ensures Last(run).At(0) == Activity(Idle, false) && Last(run).At(1) == Activity(OpenRegister(LATE), true)
  {
    run := Created();
    run := Does(run, 1, OpenFind(NAME), Nothing);
    run := Takes(run, 1);
    run := Does(run, 1, OpenRegister(LATE), NewHandle);
  }

  /** Thread 0 is at MakeReadOnly. */
  lemma AtGate() returns (run: seq<State>)
    ensures Run(run) && Last(run).shared == CREATED.(nextHandle := 1)
    ensures Last(run).At(0) == Activity(RemoveGate(NAME, 0), true) && Last(run).At(1) == Activity(OpenRegister(LATE), true)
    ensures forall m: Mutex :: m in Last(run).owner <==> m == ManagerMutex
    ensures Last(run).owner[ManagerMutex] == 0
  {
    run := Found();
    run := Does(run, 0, RemoveFind(NAME), Nothing);
    run := Takes(run, 0);
    run := Does(run, 0, RemoveGate(NAME, 0), Nothing);
  }

  const FROZEN := CREATED.(nextHandle := 1, gates := map[0 := Gate(true, {})])

  /** Thread 0 is past MakeReadOnly. */
  lemma PastGate() returns (run: seq<State>)
    ensures Run(run) && Last(run).shared == FROZEN
    ensures Last(run).At(0) == Activity(RemoveHandles(NAME, 0, {}), false) && Last(run).At(1) == Activity(OpenRegister(LATE), true)
    ensures forall m: Mutex :: m in Last(run).owner <==> m == ManagerMutex
    ensures Last(run).owner[ManagerMutex] == 0
  {
    run := AtGate();
    run := Takes(run, 0);
    assert Apply(Last(run).shared, Freeze(0)) == FROZEN;
    run := Does(run, 0, RemoveHandles(NAME, 0, {}), Freeze(0));
  }

  /** Thread 0 deletes the index, which has no registered handle. */
  lemma Deleted() returns (run: seq<State>)
    ensures Run(run) && NobodyLocks(Last(run))
    ensures Last(run).At(1) == Activity(OpenRegister(LATE), true)
    ensures Gone(Last(run).shared, 0) && NoneOpen(Last(run).shared, 0) && NAME in Last(run).shared.databases
  {
    run := PastGate();
    run := Does(run, 0, RemoveDatabase(NAME), EraseStructure(NAME));
  }

  /** Thread 1 goes on before the database is dropped. */
  lemma RegisteredLate() returns (run: seq<State>)
    ensures Run(run) && Gone(Last(run).shared, 0) && NAME in Last(run).shared.databases
    ensures Last(run).At(1) == Activity(OpenDatabase(LATE), false)
  {
    run := Deleted();
    run := Takes(run, 1);
    run := Does(run, 1, OpenDatabase(LATE), SetHandles(0, Last(run).shared.HandlesOf(0) + {LATE}));
  }

  /** An open handle of a deleted index. */
  lemma LateHandle() returns (run: seq<State>)
    ensures Run(run)
    ensures Gone(Last(run).shared, LATE.home) && LATE in Last(run).shared.open
  {
    run := RegisteredLate();
    run := Does(run, 1, Idle, OpenHandle(LATE));
  }
}
