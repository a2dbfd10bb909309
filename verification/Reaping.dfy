/**
 When the reaping loop gets to a thread. It joins exactly the threads that marked
 themselves complete after they were added to the list.
 */
module Reaping {
  import opened Lines
  import opened ThreadList
  import opened Lifecycle

  ghost predicate ShutsDown(ts: seq<Step>) {
    exists k :: 0 <= k < |ts| && ts[k].Shutdown?
  }

  /** A reaping loop comes to its end within the run. */
  ghost predicate EndsLoop(ts: seq<Step>) {
    exists k :: 0 <= k < |ts| && ts[k].EndReap?
  }

  predicate InLoop(main: Main) {
    main.Reaping? || main.Removing?
  }

  predicate Serving(main: Main) {
    !main.FreeingAll? && !main.FreeRemoving?
  }

  /** The current loop, or if there is none the next one, still comes by this connection. */
  predicate Ahead(main: Main, conn: nat) {
    InLoop(main) ==> conn in Todo(main)
  }

  // ---------------------------------------------------------------- the mark

  lemma CompleteAt(es: seq<Entry>, k: nat)
    requires k < |es| && es[k].complete
    ensures IsComplete(es, es[k].conn)
  {
    assert es[k] in es;
  }

  lemma ListedUnlessSpawned(s: State, conn: nat)
    requires Inv(s) && conn in s.workers && s.workers[conn].pc == Running
    ensures conn in Conns(s.list) <==> s.main != Spawned(conn)
  {
    RunningNotFreed(s, conn);
  }

  /** A mark shows in the list exactly when its thread's entry was added before. */
  lemma MarkShows(s: State, conn: nat)
    requires Inv(s) && Enabled(s, Mark(conn))
    ensures IsComplete(Next(s, Mark(conn)).list, conn) <==> s.main != Spawned(conn)
  {
    var l := MarkFirst(s.list, s.workers[conn].tid);
    ListedUnlessSpawned(s, conn);
    MarkKeepsConns(s, conn);
    if s.main != Spawned(conn) {
      var k := ConnHasEntry(s.list, conn);
      MarkEffect(s, conn, k);
      CompleteAt(l, k);
    } else if IsComplete(l, conn) {
      var e :| e in l && e.conn == conn && e.complete;
      InListInConns(l, e);
    }
  }

  // ------------------------------------------------------------ a mark unseen

  /** The thread is past its mark, and its entry shows nothing or is not there yet. */
  ghost predicate Unseen(s: State, conn: nat) {
    && conn in s.workers && s.workers[conn].pc != Running && conn !in s.joined
    && !IsComplete(s.list, conn)
  }

  lemma SubListUnseen(es: seq<Entry>, es': seq<Entry>, conn: nat)
    requires !IsComplete(es, conn) && forall e :: e in es' && e.conn == conn ==> !e.complete || e in es
    ensures !IsComplete(es', conn)
  {
  }

  lemma UnseenAtMark(s: State, t: Step, conn: nat)
    requires Inv(s) && Enabled(s, t) && Unseen(s, conn) && t.Mark?
    ensures Unseen(Next(s, t), conn)
  {
    var l := MarkFirst(s.list, s.workers[t.conn].tid);
    forall e | e in l && e.conn == conn
      ensures e in s.list
    {
      var j :| 0 <= j < |l| && l[j] == e;
      MarkEffect(s, t.conn, j);
    }
    SubListUnseen(s.list, l, conn);
  }

  lemma UnseenAtJoin(s: State, t: Step, conn: nat)
    requires Inv(s) && Enabled(s, t) && Unseen(s, conn) && t.Join?
    ensures Unseen(Next(s, t), conn)
  {
    JoinsVisited(s, t);
  }

  lemma UnseenAtRemove(s: State, t: Step, conn: nat)
    requires Inv(s) && Enabled(s, t) && Unseen(s, conn) && t.Remove?
    ensures Unseen(Next(s, t), conn)
  {
    var k := RemovedOwn(s, s.main.conn);
    SubListUnseen(s.list, Without(s.list, k), conn);
  }

  /** No step but the final loop's joins a thread whose mark was not seen. */
  lemma UnseenStep(s: State, t: Step, conn: nat)
    requires Inv(s) && Enabled(s, t) && Unseen(s, conn) && Serving(s.main) && !t.Shutdown?
    ensures Unseen(Next(s, t), conn) && Serving(Next(s, t).main)
  {
    if t.Mark? {
      UnseenAtMark(s, t, conn);
    } else if t.Join? {
      UnseenAtJoin(s, t, conn);
    } else if t.Remove? {
      UnseenAtRemove(s, t, conn);
    } else if t.AddEntry? {
      SubListUnseen(s.list, Next(s, t).list, conn);
    }
  }

  lemma {:induction false} UnseenStays(s: State, ts: seq<Step>, conn: nat)
    requires Inv(s) && Runs(s, ts) && Unseen(s, conn) && Serving(s.main) && !ShutsDown(ts)
    ensures Unseen(After(s, ts), conn)
    decreases |ts|
  {
    if ts != [] {
      assert !ts[0].Shutdown?;
      StepKeeps(s, ts[0]);
      UnseenStep(s, ts[0], conn);
      NoShutdownLater(ts);
      UnseenStays(Next(s, ts[0]), ts[1..], conn);
    }
  }

  lemma NoShutdownLater(ts: seq<Step>)
    requires !ShutsDown(ts) && ts != []
    ensures !ShutsDown(ts[1..])
  {
    forall k | 0 <= k < |ts[1..]|
      ensures !ts[1..][k].Shutdown?
    {
      assert ts[1..][k] == ts[k + 1];
    }
  }

  // -------------------------------------------------------------- a mark seen

  /** The entry shows the mark, and a loop will come by it. */
  ghost predicate Awaited(s: State, conn: nat) {
    IsComplete(s.list, conn) && Ahead(s.main, conn)
  }

  lemma ExtendedComplete(es: seq<Entry>, es': seq<Entry>, conn: nat)
    requires IsComplete(es, conn) && forall e :: e in es && e.conn == conn && e.complete ==> e in es'
    ensures IsComplete(es', conn)
  {
  }

  lemma AwaitedAtAdd(s: State, t: Step, conn: nat)
    requires Inv(s) && Enabled(s, t) && Awaited(s, conn) && t.AddEntry?
    ensures Awaited(Next(s, t), conn)
  {
    var l := Next(s, t).list;
    ExtendedComplete(s.list, l, conn);
    var e :| e in l && e.conn == conn && e.complete;
    InListInConns(l, e);
  }

  lemma AwaitedAtMark(s: State, t: Step, conn: nat)
    requires Inv(s) && Enabled(s, t) && Awaited(s, conn) && t.Mark?
    ensures Awaited(Next(s, t), conn)
  {
    var l := MarkFirst(s.list, s.workers[t.conn].tid);
    forall e | e in s.list && e.conn == conn && e.complete
      ensures e in l
    {
      var j :| 0 <= j < |s.list| && s.list[j] == e;
      MarkEffect(s, t.conn, j);
      assert l[j] == e;
    }
    ExtendedComplete(s.list, l, conn);
  }

  lemma OthersStay(es: seq<Entry>, k: nat, e: Entry)
    requires k < |es| && e in es && es[k].conn != e.conn
    ensures e in Without(es, k)
  {
    var j :| 0 <= j < |es| && es[j] == e;
    assert Without(es, k)[if j < k then j else j - 1] == e;
  }

  lemma AwaitedAtRemove(s: State, t: Step, conn: nat)
    requires Inv(s) && Enabled(s, t) && Awaited(s, conn) && t.Remove? && conn !in s.joined
    ensures Awaited(Next(s, t), conn)
  {
    var k := RemovedOwn(s, s.main.conn);
    var l := Without(s.list, k);
    assert s.main.conn in Pending(s.main);
    assert s.main.conn in s.joined;
    forall e | e in s.list && e.conn == conn && e.complete
      ensures e in l
    {
      OthersStay(s.list, k, e);
    }
    ExtendedComplete(s.list, l, conn);
  }

  lemma AwaitedAtVisit(s: State, t: Step, conn: nat)
    requires Inv(s) && Enabled(s, t) && Awaited(s, conn) && (t.Skip? || t.Join?)
    ensures Awaited(Next(s, t), conn) || conn in Next(s, t).joined
  {
    assert s.main.todo == [s.main.todo[0]] + s.main.todo[1..];
    if t.Join? {
      JoinsVisited(s, t);
    }
  }

  /** One step nearer: a thread whose mark shows is joined or still ahead; at the end of the loop it is joined. */
  lemma AwaitedStep(s: State, t: Step, conn: nat)
    requires Inv(s) && Enabled(s, t) && Awaited(s, conn) && conn !in s.joined
    ensures Awaited(Next(s, t), conn) || conn in Next(s, t).joined
    ensures !t.EndReap?
  {
    if t.AddEntry? {
      AwaitedAtAdd(s, t, conn);
    } else if t.Mark? {
      AwaitedAtMark(s, t, conn);
    } else if t.Remove? {
      AwaitedAtRemove(s, t, conn);
    } else if t.Skip? || t.Join? {
      AwaitedAtVisit(s, t, conn);
    }
  }

  lemma {:induction false} JoinedStays(s: State, ts: seq<Step>, conn: nat)
    requires Runs(s, ts) && conn in s.joined
    ensures conn in After(s, ts).joined
    decreases |ts|
  {
    if ts != [] {
      JoinedStays(Next(s, ts[0]), ts[1..], conn);
    }
  }

  lemma {:induction false} AwaitedIsJoined(s: State, ts: seq<Step>, conn: nat)
    requires Inv(s) && Runs(s, ts) && Awaited(s, conn) && EndsLoop(ts)
    ensures conn in After(s, ts).joined
    decreases |ts|
  {
    if conn in s.joined {
      JoinedStays(s, ts, conn);
    } else {
      var s' := Next(s, ts[0]);
      StepKeeps(s, ts[0]);
      AwaitedStep(s, ts[0], conn);
      if conn in s'.joined {
        JoinedStays(s', ts[1..], conn);
      } else {
        EndsLoopLater(ts);
        AwaitedIsJoined(s', ts[1..], conn);
      }
    }
  }

  lemma EndsLoopLater(ts: seq<Step>)
    requires EndsLoop(ts) && !ts[0].EndReap?
    ensures EndsLoop(ts[1..])
  {
    var k :| 0 <= k < |ts| && ts[k].EndReap?;
    assert ts[1..][k - 1] == ts[k];
  }

  // ------------------------------------------------------------- main results

  /**
   A thread past its mark is joined by the next loop that comes by it exactly
   when its entry shows the mark.
   */
  lemma ReapedIffSeen(s: State, ts: seq<Step>, conn: nat)
    requires Inv(s) && Runs(s, ts) && Serving(s.main) && !ShutsDown(ts)
    requires conn in s.workers && s.workers[conn].pc != Running && conn !in s.joined
    requires Ahead(s.main, conn) && EndsLoop(ts)
    ensures conn in After(s, ts).joined <==> IsComplete(s.list, conn)
  {
    if IsComplete(s.list, conn) {
      AwaitedIsJoined(s, ts, conn);
    } else {
      UnseenStays(s, ts, conn);
    }
  }

  /**
   What happens to a thread is decided when it marks itself: with its entry
   added, the loop that comes by next joins it; between creation and addition,
   no loop ever does.
   */
  lemma ReapedIffMarkedAfterAdd(s: State, ts: seq<Step>, conn: nat)
    requires Inv(s) && Enabled(s, Mark(conn)) && Runs(Next(s, Mark(conn)), ts)
    requires Serving(s.main) && !ShutsDown(ts) && Ahead(s.main, conn) && EndsLoop(ts)
    ensures conn in After(Next(s, Mark(conn)), ts).joined <==> s.main != Spawned(conn)
  {
    var s' := Next(s, Mark(conn));
    StepKeeps(s, Mark(conn));
    MarkShows(s, conn);
    RunningNotJoined(s, conn);
    ReapedIffSeen(s', ts, conn);
  }

  lemma RunningNotJoined(s: State, conn: nat)
    requires Inv(s) && conn in s.workers && s.workers[conn].pc == Running
    ensures conn !in s.joined
  {
  }

  /** The new thread runs to its mark before the main thread adds its entry. */
  ghost const EARLY := [Spawn(0, 0), Mark(0), AddEntry]

  /** The same thread marks itself while the main thread's loop is on its way to the entry. */
  ghost const LATE := [Spawn(0, 0), AddEntry, Mark(0), Exit(0), Join(0), Remove, EndReap]

  lemma RunsCons(s: State, t: Step, ts: seq<Step>)
    requires Enabled(s, t) && Runs(Next(s, t), ts)
    ensures Runs(s, [t] + ts) && After(s, [t] + ts) == After(Next(s, t), ts)
  {
    assert ([t] + ts)[1..] == ts;
  }

  /** Three steps from the start lose a mark. */
  lemma EarlyMarkRun()
    ensures Runs(START, EARLY)
    ensures var s := After(START, EARLY); Unseen(s, 0) && 0 in Conns(s.list) && Serving(s.main)
  {
    var s1 := Next(START, Spawn(0, 0));
    var s2 := Next(s1, Mark(0));
    assert s2.list == [];
    var s3 := Next(s2, AddEntry);
    assert s3.list == [Entry(0, 0, false)];
    InListInConns(s3.list, s3.list[0]);
    RunsCons(s2, AddEntry, []);
    RunsCons(s1, Mark(0), [AddEntry]);
    RunsCons(START, Spawn(0, 0), [Mark(0)] + [AddEntry]);
    assert EARLY == [Spawn(0, 0)] + ([Mark(0)] + ([AddEntry] + []));
  }

  /** After that run no loop ever joins the thread, whatever follows short of a shutdown. */
  lemma EarlyMarkIsNeverReaped(ts: seq<Step>)
    requires Runs(START, EARLY) && Runs(After(START, EARLY), ts) && !ShutsDown(ts)
    ensures 0 !in After(After(START, EARLY), ts).joined
  {
    EarlyMarkRun();
    StartInv();
    RunKeeps(START, EARLY);
    UnseenStays(After(START, EARLY), ts, 0);
  }

  lemma LateVisit(s: State)
    requires s.list == [Entry(0, 0, true)] && s.main == Reaping([0])
    requires s.workers == map[0 := Worker(0, Exited)] && s.bearer == map[0 := 0]
    ensures Runs(s, [Join(0), Remove, EndReap])
    ensures var e := After(s, [Join(0), Remove, EndReap]);
            e.joined == s.joined + [0] && e.main == Accepting && e.workers == s.workers
  {
    assert s.list[0] in s.list;
    assert IsComplete(s.list, 0) && EntryId(s.list, 0, 0) && Joins(s, 0, 0);
    var s5 := Next(s, Join(0));
    var s6 := Next(s5, Remove);
    RunsCons(s6, EndReap, []);
    RunsCons(s5, Remove, [EndReap]);
    RunsCons(s, Join(0), [Remove, EndReap]);
  }

  lemma LateMark(s: State)
    requires s.list == [Entry(0, 0, false)] && s.main == Reaping([0])
    requires s.workers == map[0 := Worker(0, Running)] && s.bearer == map[0 := 0]
    ensures Runs(s, [Mark(0), Exit(0), Join(0), Remove, EndReap])
    ensures var e := After(s, [Mark(0), Exit(0), Join(0), Remove, EndReap]);
            e.joined == s.joined + [0] && e.main == Accepting && e.workers == map[0 := Worker(0, Exited)]
  {
    var s3 := Next(s, Mark(0));
    var s4 := Next(s3, Exit(0));
    assert s4.list == [Entry(0, 0, true)] && s4.workers == map[0 := Worker(0, Exited)];
    LateVisit(s4);
    RunsCons(s3, Exit(0), [Join(0), Remove, EndReap]);
    RunsCons(s, Mark(0), [Exit(0), Join(0), Remove, EndReap]);
  }

  /**
   With the mark after the addition the very first loop joins it; and then a next
   thread may well get the id of the one joined.
   */
  lemma LateMarkRun()
    ensures Runs(START, LATE) && After(START, LATE).joined == [0]
    ensures After(START, LATE).workers == map[0 := Worker(0, Exited)] && Enabled(After(START, LATE), Spawn(1, 0))
  {
    var rest := [Mark(0), Exit(0), Join(0), Remove, EndReap];
    var s1 := Next(START, Spawn(0, 0));
    var s2 := Next(s1, AddEntry);
    assert s2.list == [Entry(0, 0, false)] && s2.main == Reaping([0]);
    LateMark(s2);
    RunsCons(s1, AddEntry, rest);
    RunsCons(START, Spawn(0, 0), [AddEntry] + rest);
    assert LATE == [Spawn(0, 0)] + ([AddEntry] + rest);
  }
}
