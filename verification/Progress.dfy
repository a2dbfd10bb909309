/**
 What the main thread can always still do: go back to accepting, take in one
 more connection, and shut down with every thread joined and freed.
 */
module Progress {
  import opened Lines
  import opened ThreadList
  import opened Lifecycle
  import opened Reaping

  /** Back at `accept`, or through with the final loop; `conns` are the connections there are. */
  predicate Arrived(e: State, conns: set<nat>, accepting: bool) {
    && e.workers.Keys == conns
    && if accepting then e.main == Accepting else e.main == FreeingAll && e.list == []
  }

  /** Some continuation without a new connection gets there. */
  ghost predicate CanGet(s: State, accepting: bool) {
    exists ts :: Runs(s, ts) && Arrived(After(s, ts), s.workers.Keys, accepting)
  }

  lemma StepGets(s: State, t: Step, accepting: bool)
    requires Enabled(s, t) && Next(s, t).workers.Keys == s.workers.Keys && CanGet(Next(s, t), accepting)
    ensures CanGet(s, accepting)
  {
    var ts :| Runs(Next(s, t), ts) && Arrived(After(Next(s, t), ts), s.workers.Keys, accepting);
    RunsCons(s, t, ts);
  }

  lemma AlreadyThere(s: State, accepting: bool)
    requires Arrived(s, s.workers.Keys, accepting)
    ensures CanGet(s, accepting)
  {
    assert Runs(s, []) && After(s, []) == s;
  }

  /** How many steps a thread has yet to take. */
  function StepsLeft(s: State, conn: nat): nat {
    if conn !in s.workers || s.workers[conn].pc == Exited then 0
    else if s.workers[conn].pc == Marked then 1 else 2
  }

  /** A thread that has not exited can take its next step; that leaves the main thread where it is. */
  lemma WorkerMoves(s: State, conn: nat) returns (t: Step)
    requires Inv(s) && conn in s.workers && s.workers[conn].pc != Exited
    ensures Enabled(s, t) && Inv(Next(s, t))
    ensures var s' := Next(s, t);
            && s'.workers.Keys == s.workers.Keys && s'.main == s.main
            && Conns(s'.list) == Conns(s.list) && StepsLeft(s', conn) < StepsLeft(s, conn)
  {
    if s.workers[conn].pc == Running {
      t := Mark(conn);
      MarkKeepsConns(s, conn);
    } else {
      t := Exit(conn);
    }
    StepKeeps(s, t);
  }

  /** The visited thread, once it has exited, can be joined. */
  lemma VisitJoins(s: State, conn: nat)
    requires Inv(s) && Pending(s.main) == [] && conn in Conns(s.list) && StepsLeft(s, conn) == 0
    ensures conn in s.workers && EntryId(s.list, conn, s.workers[conn].tid) && Joins(s, s.workers[conn].tid, conn)
  {
    ListedJoinsUnjoined(s, conn);
  }

  // ---------------------------------------------------------------- reaping

  /** What a visit of the loop does when the thread is not in the way of it. */
  lemma Visit(s: State) returns (t: Step)
    requires Inv(s) && s.main.Reaping? && s.main.todo != []
    requires IsComplete(s.list, s.main.todo[0]) ==> StepsLeft(s, s.main.todo[0]) == 0
    ensures Enabled(s, t) && Inv(Next(s, t))
    ensures Next(s, t).workers.Keys == s.workers.Keys
    ensures InLoop(Next(s, t).main) && Todo(Next(s, t).main) == s.main.todo[1..]
  {
    var conn := s.main.todo[0];
    assert conn in Todo(s.main);
    if IsComplete(s.list, conn) {
      VisitJoins(s, conn);
      t := Join(conn);
    } else {
      t := Skip;
    }
    StepKeeps(s, t);
  }

  lemma {:induction false} LoopEnds(s: State)
    requires Inv(s) && InLoop(s.main)
    ensures CanGet(s, true)
    decreases |Todo(s.main)|, if s.main.Removing? then 1 else 0, if Todo(s.main) == [] then 0 else StepsLeft(s, Todo(s.main)[0])
  {
    if s.main.Removing? {
      StepKeeps(s, Remove);
      RemoveOnly(s);
      LoopEnds(Next(s, Remove));
      StepGets(s, Remove, true);
    } else if s.main.todo == [] {
      AlreadyThere(Next(s, EndReap), true);
      StepGets(s, EndReap, true);
    } else if IsComplete(s.list, s.main.todo[0]) && StepsLeft(s, s.main.todo[0]) > 0 {
      var t := WorkerMoves(s, s.main.todo[0]);
      LoopEnds(Next(s, t));
      StepGets(s, t, true);
    } else {
      var t := Visit(s);
      LoopEnds(Next(s, t));
      StepGets(s, t, true);
    }
  }

  lemma RemoveOnly(s: State)
    requires Inv(s) && s.main.Removing?
    ensures Enabled(s, Remove)
    ensures Next(s, Remove).workers == s.workers && Next(s, Remove).main == Reaping(s.main.todo)
  {
    var k := RemovedOwn(s, s.main.conn);
  }

  /** From every state in which the server serves, it comes back to accepting. */
  lemma BackToAccepting(s: State)
    requires Inv(s) && Serving(s.main)
    ensures CanGet(s, true)
  {
    if s.main == Accepting {
      AlreadyThere(s, true);
    } else if s.main.Spawned? {
      StepKeeps(s, AddEntry);
      LoopEnds(Next(s, AddEntry));
      StepGets(s, AddEntry, true);
    } else {
      LoopEnds(s);
    }
  }

  // -------------------------------------------------------------- final loop

  lemma FinalRemoveOnly(s: State)
    requires Inv(s) && s.main.FreeRemoving?
    ensures Enabled(s, FinalRemove)
    ensures var s' := Next(s, FinalRemove);
            s'.workers == s.workers && s'.main == FreeingAll && |s'.list| < |s.list|
  {
    var k := RemovedOwn(s, s.main.conn);
  }

  lemma FirstJoins(s: State)
    requires Inv(s) && s.main.FreeingAll? && s.list != [] && StepsLeft(s, s.list[0].conn) == 0
    ensures Enabled(s, FinalJoin(s.list[0].conn))
  {
    assert s.list[0] in s.list && EntryInv(s.workers, s.list[0]);
    InListInConns(s.list, s.list[0]);
    VisitJoins(s, s.list[0].conn);
  }

  lemma {:induction false} FinalLoopEnds(s: State)
    requires Inv(s) && (s.main.FreeingAll? || s.main.FreeRemoving?)
    ensures CanGet(s, false)
    decreases |s.list|, if s.main.FreeRemoving? then 0 else 1, if s.list == [] then 0 else StepsLeft(s, s.list[0].conn)
  {
    if s.main.FreeRemoving? {
      StepKeeps(s, FinalRemove);
      FinalRemoveOnly(s);
      FinalLoopEnds(Next(s, FinalRemove));
      StepGets(s, FinalRemove, false);
    } else if s.list == [] {
      AlreadyThere(s, false);
    } else if StepsLeft(s, s.list[0].conn) > 0 {
      var t := WorkerMoves(s, s.list[0].conn);
      assert Conns(Next(s, t).list)[0] == Conns(s.list)[0];
      FinalLoopEnds(Next(s, t));
      StepGets(s, t, false);
    } else {
      var t := FinalJoin(s.list[0].conn);
      FirstJoins(s);
      StepKeeps(s, t);
      FinalLoopEnds(Next(s, t));
      StepGets(s, t, false);
    }
  }

  /** A way on to a goal, then a way on from there. */
  lemma {:induction false} RunsAppend(s: State, ts: seq<Step>, us: seq<Step>)
    requires Runs(s, ts) && Runs(After(s, ts), us)
    ensures Runs(s, ts + us) && After(s, ts + us) == After(After(s, ts), us)
    decreases |ts|
  {
    if ts == [] {
      assert ts + us == us;
    } else {
      RunsAppend(Next(s, ts[0]), ts[1..], us);
      RunsCons(s, ts[0], ts[1..] + us);
      assert [ts[0]] + (ts[1..] + us) == ts + us;
    }
  }

  lemma ShutdownFromAccepting(s: State)
    requires Inv(s) && s.main == Accepting
    ensures CanGet(s, false)
  {
    StepKeeps(s, Shutdown);
    FinalLoopEnds(Next(s, Shutdown));
    StepGets(s, Shutdown, false);
  }

  lemma CanShutDown(s: State)
    requires Inv(s)
    ensures CanGet(s, false)
  {
    if Serving(s.main) {
      BackToAccepting(s);
      var ts :| Runs(s, ts) && Arrived(After(s, ts), s.workers.Keys, true);
      RunKeeps(s, ts);
      var m := After(s, ts);
      ShutdownFromAccepting(m);
      var us :| Runs(m, us) && Arrived(After(m, us), m.workers.Keys, false);
      RunsAppend(s, ts, us);
    } else {
      FinalLoopEnds(s);
    }
  }

  // ------------------------------------------------------------- main results

  /** The final loop is over, every one of these threads was joined, and its entry freed. */
  ghost predicate AllCleared(s: State, conns: set<nat>) {
    s.main == FreeingAll && s.list == [] && forall c :: c in conns ==> c in s.joined && c in s.freed
  }

  lemma ArrivedIsCleared(e: State, conns: set<nat>)
    requires Inv(e) && Arrived(e, conns, false)
    ensures AllCleared(e, conns)
  {
    InvIsSafe(e);
  }

  /** Some continuation shuts the server down with all its threads joined and freed. */
  ghost predicate CanClear(s: State) {
    exists us :: Runs(s, us) && AllCleared(After(s, us), s.workers.Keys)
  }

  lemma InvCanClear(s: State)
    requires Inv(s)
    ensures CanClear(s)
  {
    CanShutDown(s);
    var us :| Runs(s, us) && Arrived(After(s, us), s.workers.Keys, false);
    RunKeeps(s, us);
    ArrivedIsCleared(After(s, us), s.workers.Keys);
  }

  /** From wherever a run has got, the server can shut down with all its threads joined and freed. */
  lemma ShutdownClearsAll(ts: seq<Step>)
    requires Runs(START, ts)
    ensures CanClear(After(START, ts))
  {
    StartInv();
    RunKeeps(START, ts);
    InvCanClear(After(START, ts));
  }

  /** An id no thread has had. */
  lemma {:induction false} UnusedId(workers: map<nat, Worker>, conns: set<nat>) returns (tid: nat)
    requires conns <= workers.Keys
    ensures forall c :: c in conns ==> workers[c].tid < tid
    decreases conns
  {
    if conns == {} {
      tid := 0;
    } else {
      var c :| c in conns;
      tid := UnusedId(workers, conns - {c});
      if tid <= workers[c].tid {
        tid := workers[c].tid + 1;
      }
    }
  }

  lemma SpawnAndAdd(s: State, conn: nat) returns (us: seq<Step>)
    requires s.main == Accepting && conn !in s.workers
    ensures Runs(s, us) && After(s, us).added == s.added + [conn] && conn in Conns(After(s, us).list)
  {
    var tid := UnusedId(s.workers, s.workers.Keys);
    var s' := Next(s, Spawn(conn, tid));
    RunsCons(s', AddEntry, []);
    RunsCons(s, Spawn(conn, tid), [AddEntry] + []);
    us := [Spawn(conn, tid)] + ([AddEntry] + []);
    InListInConns(Next(s', AddEntry).list, Next(s', AddEntry).list[0]);
  }

  /** Some continuation takes in this connection: its thread is created and its entry added. */
  ghost predicate CanTakeIn(s: State, conn: nat) {
    exists us :: Runs(s, us) && conn in After(s, us).added && conn in Conns(After(s, us).list)
  }

  lemma InvCanTakeIn(s: State, conn: nat)
    requires Inv(s) && Serving(s.main) && conn !in s.workers
    ensures CanTakeIn(s, conn)
  {
    BackToAccepting(s);
    var us :| Runs(s, us) && Arrived(After(s, us), s.workers.Keys, true);
    var vs := SpawnAndAdd(After(s, us), conn);
    RunsAppend(s, us, vs);
    assert conn in After(s, us + vs).added;
  }

  /** From wherever a run has got, as long as the server was not shut down, a further connection can be taken in. */
  lemma NextConnection(ts: seq<Step>, conn: nat)
    requires Runs(START, ts) && Serving(After(START, ts).main) && conn !in After(START, ts).workers
    ensures CanTakeIn(After(START, ts), conn)
  {
    StartInv();
    RunKeeps(START, ts);
    InvCanTakeIn(After(START, ts), conn);
  }
}
