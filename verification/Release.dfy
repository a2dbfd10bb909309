/**
 When the file mutex comes free again: always, unless a seek failed or the
 holder is about to seek in an empty store.
 */
module Release {
  import opened Lines
  import opened Ring
  import opened Store
  import opened Positions
  import opened Framing
  import opened Server

  /** Some continuation of the run brings the mutex back. */
  ghost predicate CanRelease(s: State) {
    exists ts :: Runs(s, ts, true) && After(s, ts, true).mutex == None
  }

  ghost predicate SomeoneStuck(s: State) {
    exists i :: i in s.clients && s.clients[i].stuck
  }

  /** The holder has a seek packet before it and there is nothing to seek in. */
  predicate SeeksInNothing(s: State) {
    var h := Holder(s);
    h.Some? && h.value.pc == Locked && IsSeek(h.value.buffer) && Visible(s.dev.log) == []
  }

  lemma RunsOne(s: State, t: Step)
    requires Enabled(s, t)
    ensures Runs(s, [t], true) && After(s, [t], true) == Next(s, t, true)
  {
    RunsCons(s, t, []);
    assert [t] + [] == [t];
  }

  lemma {:induction false} RunsAppend(s: State, ts: seq<Step>, us: seq<Step>)
    requires Runs(s, ts, true) && Runs(After(s, ts, true), us, true)
    ensures Runs(s, ts + us, true) && After(s, ts + us, true) == After(After(s, ts, true), us, true)
    decreases |ts|
  {
    if ts == [] {
      assert ts + us == us;
    } else {
      var s' := Next(s, ts[0], true);
      RunsAppend(s', ts[1..], us);
      RunsCons(s, ts[0], ts[1..] + us);
      assert [ts[0]] + (ts[1..] + us) == ts + us;
    }
  }

  // ------------------------------------------------------- what a seek decides

  function SeekResult(s: State, t: Step): Option<nat>
    requires t.Seek?
  {
    LiteralSeek(Lengths(s.dev.log), t.index % UINT32, t.offset % UINT32)
  }

  /** After a seek the mutex can come free exactly when the seek found its place. */
  lemma SeekReleases(s: State, t: Step)
    requires Inv(s) && Enabled(s, t) && t.Seek?
    ensures CanRelease(Next(s, t, true)) <==> SeekResult(s, t).Some?
  {
    var s' := Next(s, t, true);
    StepKeeps(s, t, true);
    if SeekResult(s, t).Some? {
      RunsOne(s', Unlock(t.i));
      assert Runs(s', [Unlock(t.i)], true) && After(s', [Unlock(t.i)], true).mutex == None;
    } else {
      StuckNeverReleases(s', t.i);
    }
  }

  lemma StuckNeverReleases(s: State, i: nat)
    requires Inv(s) && i in s.clients && s.clients[i].stuck
    ensures !CanRelease(s)
  {
    forall ts | Runs(s, ts, true)
      ensures After(s, ts, true).mutex != None
    {
      FailedSeekFreezes(s, ts, i);
    }
  }

  /** Some seek of the run finds no place. */
  ghost predicate SeekFails(s: State, ts: seq<Step>)
    requires Runs(s, ts, true)
    decreases |ts|
  {
    ts != [] && ((ts[0].Seek? && SeekResult(s, ts[0]).None?) || SeekFails(Next(s, ts[0], true), ts[1..]))
  }

  lemma StuckStep(s: State, t: Step)
    requires Enabled(s, t) && !SomeoneStuck(s)
    ensures SomeoneStuck(Next(s, t, true)) <==> t.Seek? && SeekResult(s, t).None?
  {
    var s' := Next(s, t, true);
    if t.Seek? && SeekResult(s, t).None? {
      assert s'.clients[t.i].stuck;
    }
  }

  /** Over a whole run a thread gets stuck exactly when a seek fails. */
  lemma {:induction false} StuckIffSeekFails(s: State, ts: seq<Step>)
    requires Inv(s) && Runs(s, ts, true) && !SomeoneStuck(s)
    ensures SomeoneStuck(After(s, ts, true)) <==> SeekFails(s, ts)
    decreases |ts|
  {
    if ts != [] {
      var s' := Next(s, ts[0], true);
      StepKeeps(s, ts[0], true);
      StuckStep(s, ts[0]);
      if SomeoneStuck(s') {
        var i :| i in s'.clients && s'.clients[i].stuck;
        FailedSeekFreezes(s', ts[1..], i);
      } else {
        StuckIffSeekFails(s', ts[1..]);
      }
    }
  }

  // ------------------------------------------------ when the mutex comes free

  lemma NewlineReleases(s: State, i: nat)
    requires i in s.clients && s.clients[i].pc == BodyWritten
    ensures CanRelease(s)
  {
    var s1 := Next(s, WriteNewline(i, _ => _ => 0), true);
    RunsOne(s1, Unlock(i));
    RunsCons(s, WriteNewline(i, _ => _ => 0), [Unlock(i)]);
  }

  /** One step more in front of a release. */
  lemma StepReleases(s: State, t: Step)
    requires Enabled(s, t) && CanRelease(Next(s, t, true))
    ensures CanRelease(s)
  {
    var s' := Next(s, t, true);
    var ts :| Runs(s', ts, true) && After(s', ts, true).mutex == None;
    RunsCons(s, t, ts);
  }

  lemma UnlockReleases(s: State, i: nat)
    requires i in s.clients && s.clients[i].pc == Unlocking
    ensures CanRelease(s)
  {
    RunsOne(s, Unlock(i));
  }

  /** The holder of a packet that is no seek always gets to release the mutex. */
  lemma WriterReleases(s: State, i: nat)
    requires i in s.clients && InSection(s.clients[i].pc)
    requires s.clients[i].pc == Locked ==> !IsSeek(s.clients[i].buffer)
    ensures CanRelease(s)
  {
    if s.clients[i].pc == Unlocking {
      UnlockReleases(s, i);
    } else if s.clients[i].pc == BodyWritten {
      NewlineReleases(s, i);
    } else {
      var t := WriteBody(i, _ => _ => 0);
      NewlineReleases(Next(s, t, true), i);
      StepReleases(s, t);
    }
  }

  lemma {:induction false} SomePositive(s: seq<nat>) returns (k: nat)
    requires Sum(s) > 0
    ensures k < |s| && s[k] > 0
  {
    if s[0] > 0 {
      k := 0;
    } else {
      k := SomePositive(s[1..]);
      k := k + 1;
    }
  }

  /** Some seek succeeds exactly when there is something to seek in. */
  lemma SeekPossible(log: seq<Data>, index: nat, offset: nat) returns (cmd: nat)
    ensures Visible(log) == [] ==> LiteralSeek(Lengths(log), index, offset).None?
    ensures Visible(log) != [] ==> cmd < CAPACITY && LiteralSeek(Lengths(log), cmd, 0).Some?
  {
    LiteralSeekInside(Lengths(log), index, offset);
    LengthsLastTen(log);
    FlattenSum(LastTen(log));
    PhysicalSum(Lengths(log));
    cmd := 0;
    if Visible(log) != [] {
      cmd := SomePositive(Slots(Lengths(log), 0));
    }
  }

  lemma GoodSeek(s: State, i: nat) returns (t: Step)
    requires Visible(s.dev.log) != []
    ensures t.Seek? && t.i == i && SeekResult(s, t).Some?
  {
    var cmd := SeekPossible(s.dev.log, 0, 0);
    t := Seek(i, cmd, 0);
    assert t.index % UINT32 == cmd && t.offset % UINT32 == 0;
  }

  lemma SeekerReleases(s: State, i: nat)
    requires Inv(s) && i in s.clients && s.clients[i].pc == Locked && IsSeek(s.clients[i].buffer)
    requires Visible(s.dev.log) != []
    ensures CanRelease(s)
  {
    var t := GoodSeek(s, i);
    SeekReleases(s, t);
    StepReleases(s, t);
  }

  ghost predicate Blocked(s: State) {
    SomeoneStuck(s) || SeeksInNothing(s)
  }

  lemma BlockedHolds(s: State)
    requires Inv(s) && Blocked(s)
    ensures s.mutex != None
  {
    if SomeoneStuck(s) {
      var i :| i in s.clients && s.clients[i].stuck;
      assert ClientInv(s.mutex, s.acquired, i, s.clients[i]);
    }
  }

  lemma OthersLeave(s: State, t: Step)
    requires Inv(s) && Enabled(s, t) && SeeksInNothing(s) && t.i != s.mutex.value
    ensures SeeksInNothing(Next(s, t, true))
  {
    if !t.Accept? {
      assert ClientInv(s.mutex, s.acquired, t.i, s.clients[t.i]);
    }
  }

  /** All that the holder can do there is to seek in vain. */
  lemma HolderGetsStuck(s: State, t: Step)
    requires Enabled(s, t) && SeeksInNothing(s) && t.i == s.mutex.value
    ensures SomeoneStuck(Next(s, t, true))
  {
    assert t.Seek?;
    var _ := SeekPossible(s.dev.log, t.index % UINT32, t.offset % UINT32);
    assert Next(s, t, true).clients[t.i].stuck;
  }

  lemma BlockedStep(s: State, t: Step)
    requires Inv(s) && Enabled(s, t) && Blocked(s)
    ensures Blocked(Next(s, t, true))
  {
    if SomeoneStuck(s) {
      var i :| i in s.clients && s.clients[i].stuck;
      RunsOne(s, t);
      FailedSeekFreezes(s, [t], i);
    } else if t.i == s.mutex.value {
      HolderGetsStuck(s, t);
    } else {
      OthersLeave(s, t);
    }
  }

  lemma {:induction false} BlockedStays(s: State, ts: seq<Step>)
    requires Inv(s) && Runs(s, ts, true) && Blocked(s)
    ensures After(s, ts, true).mutex != None
    decreases |ts|
  {
    if ts == [] {
      BlockedHolds(s);
    } else {
      StepKeeps(s, ts[0], true);
      BlockedStep(s, ts[0]);
      BlockedStays(Next(s, ts[0], true), ts[1..]);
    }
  }

  lemma UnblockedReleases(s: State)
    requires Inv(s) && !Blocked(s)
    ensures CanRelease(s)
  {
    if s.mutex == None {
      assert Runs(s, [], true) && After(s, [], true).mutex == None;
    } else {
      var i := s.mutex.value;
      assert ClientInv(s.mutex, s.acquired, i, s.clients[i]);
      if s.clients[i].pc == Locked && IsSeek(s.clients[i].buffer) {
        SeekerReleases(s, i);
      } else {
        WriterReleases(s, i);
      }
    }
  }

  /**
   In every state of the server the mutex can come free again exactly when no
   thread is stuck and the holder is not about to seek in an empty store.
   */
  lemma ReleaseExact(s: State)
    requires Inv(s)
    ensures CanRelease(s) <==> !SomeoneStuck(s) && !SeeksInNothing(s)
  {
    if Blocked(s) {
      forall ts | Runs(s, ts, true)
        ensures After(s, ts, true).mutex != None
      {
        BlockedStays(s, ts);
      }
    } else {
      UnblockedReleases(s);
    }
  }

  /** The same over runs from the start, in terms of the run. */
  lemma ReleaseAfterRun(ts: seq<Step>)
    requires Runs(START, ts, true)
    ensures CanRelease(After(START, ts, true)) <==> !SeekFails(START, ts) && !SeeksInNothing(After(START, ts, true))
  {
    StartInv();
    RunKeeps(START, ts, true);
    StuckIffSeekFails(START, ts);
    ReleaseExact(After(START, ts, true));
  }

  // ------------------------------------------------------------- a stuck run

  lemma {:induction false} CStringWhole(p: Data)
    requires 0 !in p
    ensures CString(p) == p
  {
    if p != [] {
      CStringWhole(p[1..]);
    }
  }

  lemma SeekTextIsSeek()
    ensures IsSeek(SEEKTO)
  {
    CStringWhole(SEEKTO);
    assert OccursAt(CString(SEEKTO), 0);
  }

  function Takes(i: nat, n: nat): seq<Step> {
    if n == 0 then [] else [Take(i)] + Takes(i, n - 1)
  }

  /** A packet and its newline, taken from the receive buffer byte by byte. */
  lemma {:induction false} TakesPacket(s: State, i: nat, rest: Data)
    requires i in s.clients && s.clients[i].pc == Receiving && s.clients[i].inbox == rest + [NL]
    requires NoNewline(rest) && |s.clients[i].buffer| + |rest| < BUFFER_SIZE
    ensures Runs(s, Takes(i, |rest| + 1), true)
    ensures var c, e := s.clients[i], After(s, Takes(i, |rest| + 1), true);
            && e.dev == s.dev && e.mutex == s.mutex && i in e.clients
            && e.clients[i].pc == WantLock && e.clients[i].buffer == c.buffer + rest
    decreases |rest|
  {
    var c := s.clients[i];
    var s' := Next(s, Take(i), true);
    if rest == [] {
      assert c.inbox == [NL] && c.buffer + rest == c.buffer;
      RunsCons(s, Take(i), []);
    } else {
      assert c.inbox[0] == rest[0] && c.inbox[1..] == rest[1..] + [NL];
      TakesPacket(s', i, rest[1..]);
      RunsCons(s, Take(i), Takes(i, |rest|));
      Associate(c.buffer, [rest[0]], rest[1..]);
      assert [rest[0]] + rest[1..] == rest;
    }
  }

  /** The first client sends a seek packet to the empty store. */
  ghost function StuckRun(index: nat, offset: nat): seq<Step> {
    [Accept(0), Recv(0, SEEKTO + [NL])] + Takes(0, |SEEKTO| + 1) + [Lock(0), Seek(0, index, offset)]
  }

  lemma SeekFailsOnEmpty(s: State, index: nat, offset: nat)
    requires 0 in s.clients && s.clients[0].pc == WantLock && s.clients[0].buffer == SEEKTO
    requires s.mutex == None && s.dev == FRESH
    ensures Runs(s, [Lock(0), Seek(0, index, offset)], true)
    ensures var e := After(s, [Lock(0), Seek(0, index, offset)], true); 0 in e.clients && e.clients[0].stuck
  {
    var t := Seek(0, index, offset);
    var s1 := Next(s, Lock(0), true);
    SeekTextIsSeek();
    var _ := SeekPossible([], index % UINT32, offset % UINT32);
    RunsOne(s1, t);
    RunsCons(s, Lock(0), [t]);
    assert [Lock(0)] + [t] == [Lock(0), t];
  }

  lemma ReceivesSeek()
    ensures Runs(START, [Accept(0), Recv(0, SEEKTO + [NL])], true)
    ensures var e := After(START, [Accept(0), Recv(0, SEEKTO + [NL])], true);
            e == START.(clients := map[0 := Client(Receiving, SEEKTO + [NL], [], 0, false, [], [])])
  {
    var t := Recv(0, SEEKTO + [NL]);
    var s1 := Next(START, Accept(0), true);
    RunsOne(s1, t);
    RunsCons(START, Accept(0), [t]);
    assert [Accept(0)] + [t] == [Accept(0), t];
  }

  /** From the start to a stuck thread, whatever numbers the packet asks for; no continuation releases the mutex. */
  lemma StuckRunIsReal(index: nat, offset: nat)
    ensures Runs(START, StuckRun(index, offset), true)
    ensures SomeoneStuck(After(START, StuckRun(index, offset), true))
    ensures !CanRelease(After(START, StuckRun(index, offset), true))
  {
    var first, takes := [Accept(0), Recv(0, SEEKTO + [NL])], Takes(0, |SEEKTO| + 1);
    ReceivesSeek();
    TakesPacket(After(START, first, true), 0, SEEKTO);
    RunsAppend(START, first, takes);
    SeekFailsOnEmpty(After(START, first + takes, true), index, offset);
    RunsAppend(START, first + takes, [Lock(0), Seek(0, index, offset)]);
    var e := After(START, StuckRun(index, offset), true);
    StartInv();
    RunKeeps(START, StuckRun(index, offset), true);
    StuckNeverReleases(e, 0);
  }

  // ------------------------------------------------------ the stuck thread itself

  lemma WaitStep(s: State, t: Step, i: nat)
    requires Inv(s) && Enabled(s, t) && i in s.clients && s.clients[i].stuck && s.clients[i].pc == WantLock
    ensures t.i != i && i in Next(s, t, true).clients && Next(s, t, true).clients[i] == s.clients[i]
    ensures Inv(Next(s, t, true))
  {
    assert ClientInv(s.mutex, s.acquired, i, s.clients[i]);
    StepKeeps(s, t, true);
  }

  /** A stuck thread at its next newline waits for the mutex it holds, for good. */
  lemma {:induction false} WaitsForItself(s: State, ts: seq<Step>, i: nat)
    requires Inv(s) && Runs(s, ts, true) && i in s.clients && s.clients[i].stuck && s.clients[i].pc == WantLock
    ensures i in After(s, ts, true).clients && After(s, ts, true).clients[i] == s.clients[i]
    ensures forall k :: 0 <= k < |ts| ==> ts[k].i != i
    decreases |ts|
  {
    if ts != [] {
      WaitStep(s, ts[0], i);
      WaitsForItself(Next(s, ts[0], true), ts[1..], i);
    }
  }

  lemma {:induction false} RunsCut(s: State, ts: seq<Step>, us: seq<Step>)
    requires Runs(s, ts, true) && Runs(s, ts + us, true)
    ensures Runs(After(s, ts, true), us, true)
    ensures After(s, ts + us, true) == After(After(s, ts, true), us, true)
    decreases |ts|
  {
    if ts == [] {
      assert ts + us == us;
    } else {
      assert (ts + us)[1..] == ts[1..] + us;
      RunsCut(Next(s, ts[0], true), ts[1..], us);
    }
  }

  lemma FailedSeekState(s: State, t: Step) returns (s': State)
    requires Inv(s) && Enabled(s, t) && t.Seek? && SeekResult(s, t).None?
    ensures s' == Next(s, t, true) && Inv(s') && t.i in s'.clients
    ensures s'.clients[t.i] == s.clients[t.i].(pc := Receiving, stuck := true)
  {
    s' := Next(s, t, true);
    StepKeeps(s, t, true);
  }

  lemma {:induction false} StuckStays(s: State, ts: seq<Step>, i: nat)
    requires Inv(s) && Runs(s, ts, true) && i in s.clients && s.clients[i].stuck
    ensures Inv(After(s, ts, true)) && i in After(s, ts, true).clients && After(s, ts, true).clients[i].stuck
  {
    RunKeeps(s, ts, true);
    FailedSeekFreezes(s, ts, i);
  }

  /**
   A thread whose seek failed goes on collecting bytes, behind the seek packet that
   is still in its buffer; with the next newline it waits for the mutex it holds
   itself, and takes no step more.
   */
  lemma FailedSeekDeadlocks(s: State, t: Step, rest: Data, ts: seq<Step>)
    requires Inv(s) && Enabled(s, t) && t.Seek? && SeekResult(s, t).None?
    requires s.clients[t.i].inbox == rest + [NL] && NoNewline(rest)
    requires |s.clients[t.i].buffer| + |rest| < BUFFER_SIZE
    ensures Runs(Next(s, t, true), Takes(t.i, |rest| + 1), true)
    ensures Runs(Next(s, t, true), Takes(t.i, |rest| + 1) + ts, true) ==>
              var e := After(Next(s, t, true), Takes(t.i, |rest| + 1) + ts, true);
              && t.i in e.clients && e.clients[t.i].pc == WantLock && e.mutex == Some(t.i)
              && e.clients[t.i].buffer == s.clients[t.i].buffer + rest
              && forall k :: 0 <= k < |ts| ==> ts[k].i != t.i
  {
    var s' := FailedSeekState(s, t);
    var takes := Takes(t.i, |rest| + 1);
    TakesPacket(s', t.i, rest);
    if Runs(s', takes + ts, true) {
      RunsCut(s', takes, ts);
      StuckStays(s', takes, t.i);
      WaitsForItself(After(s', takes, true), ts, t.i);
      FailedSeekFreezes(After(s', takes, true), ts, t.i);
    }
  }
}
