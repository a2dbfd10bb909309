/**
 The life of the client threads as the main thread and the workers interleave:
 spawn, add to the list, mark complete, exit, reap, and the final join of all.
 The list operations are those the linked list is proved to perform. The reaping
 loop has its successor captured before an entry is removed.
 */
module Lifecycle {
  import opened Lines
  import opened ThreadList

  datatype WorkerPc = Running | Marked | Exited

  datatype Worker = Worker(tid: nat, pc: WorkerPc)

  /** Where the main thread is: `todo` are the entries its reaping loop has still to visit. */
  datatype Main =
    | Accepting
    | Spawned(conn: nat)
    | Reaping(todo: seq<nat>)
    | Removing(conn: nat, todo: seq<nat>)
    | FreeingAll
    | FreeRemoving(conn: nat)

  /**
   `bearer` is the thread an id names: the latest one created with it. `joined`,
   `freed` and `added` record, in order, the connections those operations were
   done for.
   */
  datatype State = State(workers: map<nat, Worker>, bearer: map<nat, nat>, list: seq<Entry>, main: Main,
                         joined: seq<nat>, freed: seq<nat>, added: seq<nat>)

  const START := State(map[], map[], [], Accepting, [], [], [])

  datatype Step =
    | Spawn(conn: nat, tid: nat)
    | AddEntry
    | Mark(conn: nat)
    | Exit(conn: nat)
    | Skip
    | Join(conn: nat)
    | Remove
    | EndReap
    | Shutdown
    | FinalJoin(conn: nat)
    | FinalRemove

  function Conns(es: seq<Entry>): (r: seq<nat>)
    ensures |r| == |es| && forall k :: 0 <= k < |r| ==> r[k] == es[k].conn
  {
    seq(|es|, k requires 0 <= k < |es| => es[k].conn)
  }

  /** The entry of a connection is in the list and marked complete. */
  ghost predicate IsComplete(es: seq<Entry>, conn: nat) {
    exists e :: e in es && e.conn == conn && e.complete
  }

  /** The id of the list entry of a connection, as the loop reads it from the entry. */
  ghost predicate EntryId(es: seq<Entry>, conn: nat, tid: nat) {
    exists e :: e in es && e.conn == conn && e.tid == tid
  }

  predicate Names(s: State, tid: nat, conn: nat) {
    tid in s.bearer && s.bearer[tid] == conn && conn in s.workers
  }

  /**
   `pthread_join(tid)` waits for the exit of the thread the id names, `conn`.
   Nothing here asks whether that thread was joined before.
   */
  predicate Joins(s: State, tid: nat, conn: nat) {
    Names(s, tid, conn) && s.workers[conn].pc == Exited
  }

  ghost predicate Enabled(s: State, t: Step) {
    match t
    // the system may give out the id of a joined thread again, not of one that was not joined
    case Spawn(conn, tid) =>
      s.main.Accepting? && conn !in s.workers &&
      forall c :: c in s.workers && c !in s.joined ==> s.workers[c].tid != tid
    case AddEntry => s.main.Spawned? && s.main.conn in s.workers
    case Mark(conn) => conn in s.workers && s.workers[conn].pc == Running
    case Exit(conn) => conn in s.workers && s.workers[conn].pc == Marked
    case Skip => s.main.Reaping? && s.main.todo != [] && !IsComplete(s.list, s.main.todo[0])
    case Join(conn) =>
      s.main.Reaping? && s.main.todo != [] && IsComplete(s.list, s.main.todo[0]) &&
      exists tid :: EntryId(s.list, s.main.todo[0], tid) && Joins(s, tid, conn)
    case Remove => s.main.Removing?
    case EndReap => s.main.Reaping? && s.main.todo == []
    case Shutdown => s.main.Accepting?
    case FinalJoin(conn) => s.main.FreeingAll? && s.list != [] && Joins(s, s.list[0].tid, conn)
    case FinalRemove => s.main.FreeRemoving?
  }

  /** `thread_entry_remove` with the id of the given connection; what it frees is the entry it finds. */
  function Removed(s: State, conn: nat): State {
    if conn in s.workers then
      match Find(s.list, s.workers[conn].tid)
      case None => s
      case Some(k) => s.(list := Without(s.list, k), freed := s.freed + [s.list[k].conn])
    else s
  }

  ghost function Next(s: State, t: Step): State
    requires Enabled(s, t)
  {
    match t
    case Spawn(conn, tid) =>
      s.(workers := s.workers[conn := Worker(tid, Running)], bearer := s.bearer[tid := conn], main := Spawned(conn))
    case AddEntry =>
      var e := Entry(s.main.conn, s.workers[s.main.conn].tid, false);
      s.(list := [e] + s.list, added := s.added + [e.conn], main := Reaping(Conns([e] + s.list)))
    case Mark(conn) =>
      s.(workers := s.workers[conn := s.workers[conn].(pc := Marked)], list := MarkFirst(s.list, s.workers[conn].tid))
    case Exit(conn) => s.(workers := s.workers[conn := s.workers[conn].(pc := Exited)])
    case Skip => s.(main := Reaping(s.main.todo[1..]))
    case Join(conn) => s.(joined := s.joined + [conn], main := Removing(s.main.todo[0], s.main.todo[1..]))
    case Remove => Removed(s, s.main.conn).(main := Reaping(s.main.todo))
    case EndReap => s.(main := Accepting)
    case Shutdown => s.(main := FreeingAll)
    case FinalJoin(conn) => s.(joined := s.joined + [conn], main := FreeRemoving(s.list[0].conn))
    case FinalRemove => Removed(s, s.main.conn).(main := FreeingAll)
  }

  ghost predicate Runs(s: State, ts: seq<Step>)
    decreases |ts|
  {
    ts == [] || (Enabled(s, ts[0]) && Runs(Next(s, ts[0]), ts[1..]))
  }

  ghost function After(s: State, ts: seq<Step>): State
    requires Runs(s, ts)
    decreases |ts|
  {
    if ts == [] then s else After(Next(s, ts[0]), ts[1..])
  }

  // --------------------------------------------------------------- invariant

  ghost predicate NoDup(s: seq<nat>) {
    forall i, j :: 0 <= i < j < |s| ==> s[i] != s[j]
  }

  /** The connection joined but not yet freed, if the main thread is between the two. */
  function Pending(main: Main): seq<nat> {
    match main
    case Removing(conn, _) => [conn]
    case FreeRemoving(conn) => [conn]
    case _ => []
  }

  function Todo(main: Main): seq<nat> {
    match main
    case Reaping(todo) => todo
    case Removing(_, todo) => todo
    case _ => []
  }

  /** An entry carries its own thread's id, and is complete only after that thread said so. */
  ghost predicate EntryInv(workers: map<nat, Worker>, e: Entry) {
    && e.conn in workers && workers[e.conn].tid == e.tid
    && (e.complete ==> workers[e.conn].pc != Running)
  }

  ghost predicate EntriesInv(workers: map<nat, Worker>, list: seq<Entry>) {
    forall e :: e in list ==> EntryInv(workers, e)
  }

  /** No connection has two entries, in the list or freed. */
  ghost predicate ListInv(list: seq<Entry>, freed: seq<nat>) {
    NoDup(Conns(list)) && NoDup(freed) && forall c :: c in Conns(list) ==> c !in freed
  }

  /** The id of a thread whose entry was not freed still names that thread. */
  ghost predicate BearInv(workers: map<nat, Worker>, bearer: map<nat, nat>, freed: seq<nat>) {
    forall c :: c in workers && c !in freed ==> workers[c].tid in bearer && bearer[workers[c].tid] == c
  }

  /** Joined is freed, and what is just about to be freed; and joined threads have exited. */
  ghost predicate JoinInv(workers: map<nat, Worker>, list: seq<Entry>, main: Main, joined: seq<nat>, freed: seq<nat>) {
    && joined == freed + Pending(main)
    && (forall c :: c in Pending(main) ==> c in Conns(list))
    && (forall c :: c in joined ==> c in workers && workers[c].pc == Exited)
  }

  /** Every connection added is in the list or freed; every thread was added or is about to be. */
  ghost predicate AddInv(workers: map<nat, Worker>, list: seq<Entry>, main: Main, freed: seq<nat>, added: seq<nat>) {
    && NoDup(added)
    && (forall c :: c in added <==> c in Conns(list) || c in freed)
    && (forall c :: c in workers <==> c in added || main == Spawned(c))
    && (main.Spawned? ==> main.conn !in added)
  }

  /** The loop has yet to visit entries that are there, each once. */
  ghost predicate LoopInv(list: seq<Entry>, main: Main) {
    && NoDup(Pending(main) + Todo(main))
    && (forall c :: c in Todo(main) ==> c in Conns(list))
  }

  ghost predicate Inv(s: State) {
    && EntriesInv(s.workers, s.list)
    && ListInv(s.list, s.freed)
    && BearInv(s.workers, s.bearer, s.freed)
    && JoinInv(s.workers, s.list, s.main, s.joined, s.freed)
    && AddInv(s.workers, s.list, s.main, s.freed, s.added)
    && LoopInv(s.list, s.main)
  }

  // ------------------------------------------------------------------- steps

  lemma NoDupAppend(s: seq<nat>, x: nat)
    requires NoDup(s) && x !in s
    ensures NoDup(s + [x]) && NoDup([x] + s)
  {
  }

  lemma ConnsCons(e: Entry, es: seq<Entry>)
    ensures Conns([e] + es) == [e.conn] + Conns(es)
  {
  }

  /** Between two entries nothing is joined that was not freed. */
  lemma JoinedIsFreed(s: State)
    requires Inv(s) && Pending(s.main) == []
    ensures s.joined == s.freed
  {
  }

  lemma InListInConns(es: seq<Entry>, e: Entry)
    requires e in es
    ensures e.conn in Conns(es)
  {
    var k :| 0 <= k < |es| && es[k] == e;
    assert Conns(es)[k] == e.conn;
  }

  lemma ConnHasEntry(es: seq<Entry>, conn: nat) returns (k: nat)
    requires conn in Conns(es)
    ensures k < |es| && es[k].conn == conn && es[k] in es
  {
    k :| k < |Conns(es)| && Conns(es)[k] == conn;
  }

  lemma SpawnKeeps(s: State, t: Step)
    requires Inv(s) && Enabled(s, t) && t.Spawn?
    ensures Inv(Next(s, t))
  {
    JoinedIsFreed(s);
  }

  lemma AddKeeps(s: State, t: Step)
    requires Inv(s) && Enabled(s, t) && t.AddEntry?
    ensures Inv(Next(s, t))
  {
    var c := s.main.conn;
    var e := Entry(c, s.workers[c].tid, false);
    JoinedIsFreed(s);
    ConnsCons(e, s.list);
    NoDupAppend(Conns(s.list), c);
    NoDupAppend(s.added, c);
    assert [] + Conns([e] + s.list) == Conns([e] + s.list);
    assert s.freed + [] == s.freed;
  }

  /** A thread's id finds its own entry in the list, never another's. */
  lemma OwnEntry(s: State, conn: nat, k: nat)
    requires Inv(s) && conn in s.workers && conn !in s.freed
    requires Find(s.list, s.workers[conn].tid) == Some(k)
    ensures s.list[k].conn == conn
  {
    assert EntryInv(s.workers, s.list[k]);
    InListInConns(s.list, s.list[k]);
  }

  lemma RunningNotFreed(s: State, conn: nat)
    requires Inv(s) && conn in s.workers && s.workers[conn].pc != Exited
    ensures conn !in s.freed
  {
    assert forall x :: x in s.freed ==> x in s.joined;
  }

  /** The mark changes at most the thread's own entry. */
  lemma MarkEffect(s: State, conn: nat, j: nat)
    requires Inv(s) && conn in s.workers && s.workers[conn].pc == Running && j < |s.list|
    ensures var l := MarkFirst(s.list, s.workers[conn].tid);
            |l| == |s.list| && l[j] == if s.list[j].conn == conn then s.list[j].(complete := true) else s.list[j]
  {
    var r := Find(s.list, s.workers[conn].tid);
    assert s.list[j] in s.list && EntryInv(s.workers, s.list[j]);
    if r.Some? {
      RunningNotFreed(s, conn);
      OwnEntry(s, conn, r.value);
      OneEntryAt(s, j, r.value);
    }
  }

  lemma OneEntryAt(s: State, i: nat, j: nat)
    requires Inv(s) && i < |s.list| && j < |s.list|
    ensures s.list[i].conn == s.list[j].conn ==> i == j
  {
    assert Conns(s.list)[i] == s.list[i].conn && Conns(s.list)[j] == s.list[j].conn;
  }

  lemma MarkKeepsConns(s: State, conn: nat)
    requires Inv(s) && conn in s.workers && s.workers[conn].pc == Running
    ensures Conns(MarkFirst(s.list, s.workers[conn].tid)) == Conns(s.list)
  {
  }

  lemma MarkKeepsEntries(s: State, conn: nat)
    requires Inv(s) && conn in s.workers && s.workers[conn].pc == Running
    ensures EntriesInv(s.workers[conn := s.workers[conn].(pc := Marked)], MarkFirst(s.list, s.workers[conn].tid))
  {
    var w, l := s.workers[conn := s.workers[conn].(pc := Marked)], MarkFirst(s.list, s.workers[conn].tid);
    forall e | e in l
      ensures EntryInv(w, e)
    {
      var j :| 0 <= j < |l| && l[j] == e;
      MarkEffect(s, conn, j);
      assert EntryInv(s.workers, s.list[j]);
    }
  }

  lemma MarkKeeps(s: State, t: Step)
    requires Inv(s) && Enabled(s, t) && t.Mark?
    ensures Inv(Next(s, t))
  {
    MarkKeepsConns(s, t.conn);
    MarkKeepsEntries(s, t.conn);
  }

  lemma ExitKeeps(s: State, t: Step)
    requires Inv(s) && Enabled(s, t) && t.Exit?
    ensures Inv(Next(s, t))
  {
  }

  lemma NoDupTail(s: seq<nat>)
    requires NoDup(s) && s != []
    ensures NoDup(s[1..]) && s[0] !in s[1..]
  {
  }

  lemma LoopSkips(list: seq<Entry>, todo: seq<nat>)
    requires LoopInv(list, Reaping(todo)) && todo != []
    ensures LoopInv(list, Reaping(todo[1..]))
  {
    assert Pending(Reaping(todo)) + Todo(Reaping(todo)) == todo;
    NoDupTail(todo);
    assert Pending(Reaping(todo[1..])) + Todo(Reaping(todo[1..])) == todo[1..];
    assert forall c :: c in todo[1..] ==> c in todo;
  }

  lemma SkipKeeps(s: State, t: Step)
    requires Inv(s) && Enabled(s, t) && t.Skip?
    ensures Inv(Next(s, t))
  {
    LoopSkips(s.list, s.main.todo);
  }

  /** The id in a connection's entry names the connection's own thread. */
  lemma NamesOwn(s: State, entryConn: nat, tid: nat, conn: nat)
    requires Inv(s) && EntryId(s.list, entryConn, tid) && Names(s, tid, conn)
    ensures conn == entryConn
  {
    var e :| e in s.list && e.conn == entryConn && e.tid == tid;
    assert EntryInv(s.workers, e);
    InListInConns(s.list, e);
  }

  /** The thread joined is the one whose entry is visited. */
  lemma JoinsVisited(s: State, t: Step)
    requires Inv(s) && Enabled(s, t) && t.Join?
    ensures t.conn == s.main.todo[0] && t.conn in Conns(s.list)
  {
    var tid :| EntryId(s.list, s.main.todo[0], tid) && Joins(s, tid, t.conn);
    NamesOwn(s, s.main.todo[0], tid, t.conn);
    assert s.main.todo[0] in Todo(s.main);
  }

  lemma JoinsFirst(s: State, t: Step)
    requires Inv(s) && Enabled(s, t) && t.FinalJoin?
    ensures t.conn == s.list[0].conn && t.conn in Conns(s.list)
  {
    assert s.list[0] in s.list;
    assert EntryId(s.list, s.list[0].conn, s.list[0].tid);
    NamesOwn(s, s.list[0].conn, s.list[0].tid, t.conn);
    InListInConns(s.list, s.list[0]);
  }

  /** A join of a thread that has an entry records it as about to be freed. */
  lemma JoinRecorded(s: State, conn: nat, main: Main)
    requires Inv(s) && Pending(s.main) == [] && conn in Conns(s.list)
    requires conn in s.workers && s.workers[conn].pc == Exited && Pending(main) == [conn]
    ensures JoinInv(s.workers, s.list, main, s.joined + [conn], s.freed)
  {
    JoinedIsFreed(s);
  }

  lemma JoinKeeps(s: State, t: Step)
    requires Inv(s) && Enabled(s, t) && t.Join?
    ensures Inv(Next(s, t))
  {
    var todo := s.main.todo;
    JoinsVisited(s, t);
    JoinRecorded(s, t.conn, Removing(todo[0], todo[1..]));
    assert LoopInv(s.list, Removing(todo[0], todo[1..])) by {
      assert [] + todo == todo && [todo[0]] + todo[1..] == todo;
    }
  }

  lemma FinalJoinKeeps(s: State, t: Step)
    requires Inv(s) && Enabled(s, t) && t.FinalJoin?
    ensures Inv(Next(s, t))
  {
    JoinsFirst(s, t);
    JoinRecorded(s, t.conn, FreeRemoving(s.list[0].conn));
  }

  lemma ConnsWithout(es: seq<Entry>, k: nat)
    requires k < |es|
    ensures Conns(Without(es, k)) == Without(Conns(es), k)
  {
  }

  lemma WithoutMembers(a: seq<nat>, k: nat)
    requires NoDup(a) && k < |a|
    ensures NoDup(Without(a, k))
    ensures forall x :: x in a <==> x in Without(a, k) || x == a[k]
    ensures a[k] !in Without(a, k)
  {
    var b := Without(a, k);
    forall x | x in a
      ensures x in b || x == a[k]
    {
      var j :| 0 <= j < |a| && a[j] == x;
      assert j == k || b[if j < k then j else j - 1] == x;
    }
  }

  /** Removal frees exactly the entry whose thread was joined. */
  lemma RemovedOwn(s: State, conn: nat) returns (k: nat)
    requires Inv(s) && Pending(s.main) == [conn]
    ensures k < |s.list| && s.list[k].conn == conn
    ensures Removed(s, conn) == s.(list := Without(s.list, k), freed := s.freed + [conn])
  {
    assert conn in Pending(s.main);
    var j := ConnHasEntry(s.list, conn);
    assert EntryInv(s.workers, s.list[j]);
    k := Find(s.list, s.workers[conn].tid).value;
    OwnEntry(s, conn, k);
  }

  lemma RemoveKeeps(s: State, main: Main, conn: nat)
    requires Inv(s) && Pending(s.main) == [conn]
    requires Pending(main) == [] && Todo(main) == Todo(s.main) && !main.Spawned?
    ensures Inv(Removed(s, conn).(main := main))
  {
    var k := RemovedOwn(s, conn);
    var list, freed := Without(s.list, k), s.freed + [conn];
    ConnsWithout(s.list, k);
    WithoutMembers(Conns(s.list), k);
    assert conn in Conns(s.list) && conn !in s.freed;
    NoDupAppend(s.freed, conn);
    assert JoinInv(s.workers, list, main, s.joined, freed) by {
      assert freed + [] == freed;
    }
    assert LoopInv(list, main) by {
      TodoStays(conn, Todo(s.main));
    }
    assert EntriesInv(s.workers, list) by {
      assert forall e :: e in list ==> e in s.list;
    }
  }

  lemma TodoStays(conn: nat, todo: seq<nat>)
    requires NoDup([conn] + todo)
    ensures conn !in todo && NoDup([] + todo)
  {
    NoDupTail([conn] + todo);
    assert ([conn] + todo)[1..] == todo && [] + todo == todo;
  }

  /** Every step of the main thread or of any worker keeps the invariant. */
  lemma StepKeeps(s: State, t: Step)
    requires Inv(s) && Enabled(s, t)
    ensures Inv(Next(s, t))
  {
    match t
    case Spawn(_, _) => SpawnKeeps(s, t);
    case AddEntry => AddKeeps(s, t);
    case Mark(_) => MarkKeeps(s, t);
    case Exit(_) => ExitKeeps(s, t);
    case Skip => SkipKeeps(s, t);
    case Join(_) => JoinKeeps(s, t);
    case Remove => RemoveKeeps(s, Reaping(s.main.todo), s.main.conn);
    case EndReap =>
    case Shutdown =>
    case FinalJoin(_) => FinalJoinKeeps(s, t);
    case FinalRemove => RemoveKeeps(s, FreeingAll, s.main.conn);
  }

  lemma {:induction false} RunKeeps(s: State, ts: seq<Step>)
    requires Inv(s) && Runs(s, ts)
    ensures Inv(After(s, ts))
    decreases |ts|
  {
    if ts != [] {
      StepKeeps(s, ts[0]);
      RunKeeps(Next(s, ts[0]), ts[1..]);
    }
  }

  // ------------------------------------------------------------ main results

  lemma StartInv()
    ensures Inv(START)
  {
  }

  /** A join issued for this connection's entry waits for its own thread, which nobody joined yet. */
  ghost predicate JoinsUnjoined(s: State, conn: nat) {
    && conn in s.workers && conn !in s.joined
    && EntryId(s.list, conn, s.workers[conn].tid)
    && Names(s, s.workers[conn].tid, conn)
  }

  /** What holds after any interleaving. */
  ghost predicate Safe(s: State) {
    // ids in the list are unique
    && (forall i, j :: 0 <= i < j < |s.list| ==> s.list[i].tid != s.list[j].tid)
    // a join that either loop is about to issue is of a thread not joined before
    && (s.main.Reaping? && s.main.todo != [] ==> JoinsUnjoined(s, s.main.todo[0]))
    && (s.main.FreeingAll? && s.list != [] ==> JoinsUnjoined(s, s.list[0].conn))
    // no thread was joined twice, no entry freed twice, and none before its thread exited and was joined
    && NoDup(s.joined) && NoDup(s.freed)
    && (forall c :: c in s.freed ==> c in s.joined)
    && (forall c :: c in s.joined ==> c in s.workers && s.workers[c].pc == Exited)
    // every entry added is still in the list or was freed
    && (forall c :: c in s.added <==> c in Conns(s.list) || c in s.freed)
    // after the final loop every thread ever started was joined, and its entry freed
    && (s.main == FreeingAll && s.list == []
        ==> forall c :: c in s.workers <==> c in s.freed && c in s.joined)
  }

  lemma IdsUnique(s: State, i: nat, j: nat)
    requires Inv(s) && i < j < |s.list|
    ensures s.list[i].tid != s.list[j].tid
  {
    var a, b := s.list[i], s.list[j];
    assert a in s.list && b in s.list;
    assert EntryInv(s.workers, a) && EntryInv(s.workers, b);
    InListInConns(s.list, a);
    InListInConns(s.list, b);
    OneEntryAt(s, i, j);
  }

  lemma ListedJoinsUnjoined(s: State, conn: nat)
    requires Inv(s) && Pending(s.main) == [] && conn in Conns(s.list)
    ensures JoinsUnjoined(s, conn)
  {
    var k := ConnHasEntry(s.list, conn);
    assert EntryInv(s.workers, s.list[k]);
    assert EntryId(s.list, conn, s.list[k].tid);
    JoinedIsFreed(s);
  }

  lemma JoinedOnce(s: State)
    requires Inv(s)
    ensures NoDup(s.joined)
  {
    if Pending(s.main) == [] {
      JoinedIsFreed(s);
    } else {
      var c := Pending(s.main)[0];
      assert c in Pending(s.main) && Pending(s.main) == [c];
      NoDupAppend(s.freed, c);
    }
  }

  lemma InvIsSafe(s: State)
    requires Inv(s)
    ensures Safe(s)
  {
    forall i, j | 0 <= i < j < |s.list|
      ensures s.list[i].tid != s.list[j].tid
    {
      IdsUnique(s, i, j);
    }
    JoinedOnce(s);
    if s.main.Reaping? && s.main.todo != [] {
      assert s.main.todo[0] in Todo(s.main);
      ListedJoinsUnjoined(s, s.main.todo[0]);
    }
    if s.main.FreeingAll? && s.list != [] {
      InListInConns(s.list, s.list[0]);
      ListedJoinsUnjoined(s, s.list[0].conn);
    }
  }

  lemma LifecycleSafety(ts: seq<Step>)
    requires Runs(START, ts)
    ensures Safe(After(START, ts))
  {
    StartInv();
    RunKeeps(START, ts);
    InvIsSafe(After(START, ts));
  }
}
