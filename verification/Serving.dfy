/**
 That nothing keeps the clients from being served as long as the mutex can come
 free: from every such state some continuation serves all that a client sent.
 */
module Serving {
  import opened Lines
  import opened Ring
  import opened Store
  import opened Positions
  import opened Framing
  import opened Server
  import opened Replies
  import opened Release

  /** Every byte finds room in a write buffer of a mebibyte that holds `n` bytes now. */
  predicate Fits(n: nat, inbox: Data)
    decreases |inbox|
  {
    inbox == [] || (n < 1048576 && Fits(if inbox[0] == NL then 0 else n + 1, inbox[1..]))
  }

  predicate HasRoom(c: Client) {
    Fits(if c.pc == Receiving then |c.buffer| else 0, c.inbox)
  }

  predicate Idle(c: Client) {
    c.pc == Receiving && c.inbox == [] && !c.stuck
  }

  /** Some continuation processes and answers all that waits, without a byte more from the client. */
  ghost predicate CanServe(s: State, i: nat) {
    exists ts :: Runs(s, ts, true) && Received(ts, i) == [] && Idle(ClientOf(After(s, ts, true), i))
  }

  /** No thread is stuck, and there is something to seek in. */
  ghost predicate Smooth(s: State) {
    Inv(s) && !SomeoneStuck(s) && s.dev.log != []
  }

  ghost predicate Waits(s: State, i: nat) {
    i in s.clients && s.clients[i].pc != Closed && HasRoom(s.clients[i])
  }

  lemma StepServes(s: State, t: Step, i: nat)
    requires Enabled(s, t) && !(t.Recv? && t.i == i) && CanServe(Next(s, t, true), i)
    ensures CanServe(s, i)
  {
    var s' := Next(s, t, true);
    var ts :| Runs(s', ts, true) && Received(ts, i) == [] && Idle(ClientOf(After(s', ts, true), i));
    RunsCons(s, t, ts);
    assert ([t] + ts)[1..] == ts;
    assert Received([t] + ts, i) == [];
  }

  lemma IdleServes(s: State, i: nat)
    requires Idle(ClientOf(s, i))
    ensures CanServe(s, i)
  {
    assert Runs(s, [], true) && Received([], i) == [] && Idle(ClientOf(After(s, [], true), i));
  }

  // ---------------------------------------------------------------- the store

  lemma {:induction false} CommandsNonEmpty(acq: seq<Acquisition>)
    ensures forall line :: line in Commands(acq) ==> line != []
  {
    if acq != [] {
      CommandsNonEmpty(acq[..|acq| - 1]);
    }
  }

  lemma LastIsVisible(log: seq<Data>)
    requires log != [] && log[|log| - 1] != []
    ensures Visible(log) != []
  {
    assert log == log[..|log| - 1] + [log[|log| - 1]];
    VisibleEndsWith(log[..|log| - 1], log[|log| - 1]);
  }

  /** With a command in the log there is something to see. */
  lemma LogIsVisible(s: State)
    requires Inv(s) && s.dev.log != []
    ensures Visible(s.dev.log) != []
  {
    LogWithinCommands(s);
    CommandsNonEmpty(s.acquired);
    assert s.dev.log[|s.dev.log| - 1] in Commands(s.acquired);
    LastIsVisible(s.dev.log);
  }

  /** A step that is no failing seek leaves everything smooth. */
  lemma SmoothStep(s: State, t: Step)
    requires Smooth(s) && Enabled(s, t) && !(t.Seek? && SeekResult(s, t).None?)
    ensures Smooth(Next(s, t, true))
  {
    StepKeeps(s, t, true);
    StuckStep(s, t);
    StepLogGrows(s, t);
  }

  // ----------------------------------------------------------------- the steps

  function Rank(pc: Pc): nat {
    match pc
    case WantLock => 5
    case Locked => 4
    case BodyWritten => 3
    case Unlocking => 2
    case Draining => 1
    case Receiving => 0
    case Closed => 0
  }

  /** What a thread in the section does next. */
  lemma SectionNext(s: State, h: nat) returns (t: Step)
    requires Smooth(s) && h in s.clients && InSection(s.clients[h].pc)
    ensures Enabled(s, t) && t.i == h && (t.Unlock? || t.WriteNewline? || t.WriteBody? || t.Seek?)
    ensures t.Seek? ==> SeekResult(s, t).Some?
  {
    var c := s.clients[h];
    if c.pc == Unlocking {
      t := Unlock(h);
    } else if c.pc == BodyWritten {
      t := WriteNewline(h, _ => _ => 0);
    } else if IsSeek(c.buffer) {
      LogIsVisible(s);
      t := GoodSeek(s, h);
    } else {
      t := WriteBody(h, _ => _ => 0);
    }
  }

  lemma SectionMoves(s: State, t: Step)
    requires Enabled(s, t) && (t.Unlock? || t.WriteNewline? || t.WriteBody? || t.Seek?)
    requires t.Seek? ==> SeekResult(s, t).Some?
    ensures var c, c' := s.clients[t.i], Next(s, t, true).clients[t.i];
            && Rank(c'.pc) < Rank(c.pc) && c'.inbox == c.inbox && c'.pc != Receiving && c'.pc != Closed
  {
  }

  /** It brings the thread on, and leaves what it has still to process. */
  lemma SectionStep(s: State, h: nat) returns (t: Step)
    requires Smooth(s) && h in s.clients && InSection(s.clients[h].pc)
    ensures Enabled(s, t) && t.i == h && !t.Recv? && Smooth(Next(s, t, true))
    ensures var c, c' := s.clients[h], Next(s, t, true).clients[h];
            && Rank(c'.pc) < Rank(c.pc) && c'.inbox == c.inbox && c'.pc != Receiving && c'.pc != Closed
  {
    t := SectionNext(s, h);
    SectionMoves(s, t);
    SmoothStep(s, t);
  }

  lemma OthersUntouched(s: State, t: Step, i: nat)
    requires Enabled(s, t) && t.i != i
    ensures ClientOf(Next(s, t, true), i) == ClientOf(s, i)
    ensures i in s.clients ==> i in Next(s, t, true).clients
  {
  }

  /** Bytes left to read for a draining client. */
  function ToRead(s: State, i: nat): nat {
    if ClientOf(s, i).fPos <= |Visible(s.dev.log)| then |Visible(s.dev.log)| - ClientOf(s, i).fPos else 0
  }

  /** What there is to wait for: the holder of the mutex, or the rest to read. */
  function Ahead(s: State, i: nat): nat {
    match ClientOf(s, i).pc
    case WantLock => if s.mutex.Some? then Rank(ClientOf(s, s.mutex.value).pc) + 1 else 0
    case Draining => ToRead(s, i)
    case _ => 0
  }

  /** The next step towards serving the client, taken by it or by the holder of the mutex. */
  ghost predicate Nearer(s: State, t: Step, i: nat) {
    && i in s.clients && Enabled(s, t) && !(t.Recv? && t.i == i)
    && var s' := Next(s, t, true);
       && Smooth(s') && Waits(s', i)
       && var c, c' := s.clients[i], s'.clients[i];
          || |c'.inbox| < |c.inbox|
          || (c'.inbox == c.inbox && Rank(c'.pc) < Rank(c.pc))
          || (c'.inbox == c.inbox && c'.pc == c.pc && Ahead(s', i) < Ahead(s, i))
  }

  lemma TakeNears(s: State, i: nat)
    requires Smooth(s) && Waits(s, i) && s.clients[i].pc == Receiving && s.clients[i].inbox != []
    ensures Nearer(s, Take(i), i)
  {
    SmoothStep(s, Take(i));
  }

  lemma LockNears(s: State, i: nat)
    requires Smooth(s) && Waits(s, i) && s.clients[i].pc == WantLock && s.mutex == None
    ensures Nearer(s, Lock(i), i)
  {
    SmoothStep(s, Lock(i));
  }

  lemma HolderNears(s: State, i: nat) returns (t: Step)
    requires Smooth(s) && Waits(s, i) && s.clients[i].pc == WantLock && s.mutex.Some?
    ensures Nearer(s, t, i)
  {
    var h := s.mutex.value;
    assert ClientInv(s.mutex, s.acquired, h, s.clients[h]);
    t := SectionStep(s, h);
    OthersUntouched(s, t, i);
  }

  lemma OwnSectionNears(s: State, i: nat) returns (t: Step)
    requires Smooth(s) && Waits(s, i) && InSection(s.clients[i].pc)
    ensures Nearer(s, t, i)
  {
    t := SectionStep(s, i);
  }

  lemma ReadNears(s: State, i: nat)
    requires Smooth(s) && Waits(s, i) && Enabled(s, ReadSome(i))
    ensures Nearer(s, ReadSome(i), i)
  {
    ReadLengthBounds(s.dev.log, s.clients[i].fPos, BUFFER_SIZE);
    SmoothStep(s, ReadSome(i));
  }

  lemma DrainsEmpty(s: State, i: nat)
    requires Inv(s) && i in s.clients && s.clients[i].pc == Draining
    ensures s.clients[i].buffer == []
  {
    assert ClientInv(s.mutex, s.acquired, i, s.clients[i]);
  }

  lemma EndNears(s: State, i: nat)
    requires Smooth(s) && Waits(s, i) && Enabled(s, EndDrain(i))
    ensures Nearer(s, EndDrain(i), i)
  {
    DrainsEmpty(s, i);
    SmoothStep(s, EndDrain(i));
  }

  /** There always is such a step, until all is served. */
  lemma SomeStepNears(s: State, i: nat) returns (t: Step)
    requires Smooth(s) && Waits(s, i) && !Idle(s.clients[i])
    ensures Nearer(s, t, i)
  {
    var c := s.clients[i];
    if c.pc == Receiving {
      t := Take(i);
      TakeNears(s, i);
    } else if c.pc == WantLock && s.mutex == None {
      t := Lock(i);
      LockNears(s, i);
    } else if c.pc == WantLock {
      t := HolderNears(s, i);
    } else if InSection(c.pc) {
      t := OwnSectionNears(s, i);
    } else if ReadLength(s.dev.log, c.fPos, BUFFER_SIZE) > 0 {
      t := ReadSome(i);
      ReadNears(s, i);
    } else {
      t := EndDrain(i);
      EndNears(s, i);
    }
  }

  lemma {:induction false} SmoothServes(s: State, i: nat)
    requires Smooth(s) && Waits(s, i)
    ensures CanServe(s, i)
    decreases |s.clients[i].inbox|, Rank(s.clients[i].pc), Ahead(s, i)
  {
    if Idle(s.clients[i]) {
      IdleServes(s, i);
    } else {
      var t := SomeStepNears(s, i);
      SmoothServes(Next(s, t, true), i);
      StepServes(s, t, i);
    }
  }

  // ----------------------------------------------------------- an empty store

  /** A connection there has not been. */
  lemma {:induction false} NewId(ids: set<nat>) returns (j: nat)
    ensures forall i :: i in ids ==> i < j
    decreases ids
  {
    j := 0;
    if ids != {} {
      var i :| i in ids;
      var k := NewId(ids - {i});
      assert forall x :: x in ids ==> x == i || x in ids - {i};
      j := if k <= i then i + 1 else k;
    }
  }

  /** A step that is no seek keeps the invariant and makes nobody stuck. */
  lemma MildStep(s: State, t: Step)
    requires Inv(s) && !SomeoneStuck(s) && Enabled(s, t) && !t.Seek?
    ensures Inv(Next(s, t, true)) && !SomeoneStuck(Next(s, t, true))
  {
    StepKeeps(s, t, true);
    StuckStep(s, t);
  }

  /** Of two clients, the one waits on whatever the other one does. */
  lemma BodyServes(s: State, h: nat, i: nat)
    requires Inv(s) && !SomeoneStuck(s) && Waits(s, i)
    requires h in s.clients && s.clients[h].pc == BodyWritten
    ensures CanServe(s, i)
  {
    var t := WriteNewline(h, _ => _ => 0);
    MildStep(s, t);
    NewlineStores(s, t);
    SmoothServes(Next(s, t, true), i);
    StepServes(s, t, i);
  }

  lemma NewlineStores(s: State, t: Step)
    requires Inv(s) && Enabled(s, t) && t.WriteNewline?
    ensures Next(s, t, true).dev.log != []
  {
    DeviceBefore(s, t.i);
    PacketWritten(true, s.dev.log, s.clients[t.i].buffer, t.junk);
  }

  lemma WriterServes(s: State, h: nat, i: nat)
    requires Inv(s) && !SomeoneStuck(s) && Waits(s, i)
    requires h in s.clients && s.clients[h].pc == Locked && !IsSeek(s.clients[h].buffer)
    ensures CanServe(s, i)
  {
    var t := WriteBody(h, _ => _ => 0);
    MildStep(s, t);
    BodyServes(Next(s, t, true), h, i);
    StepServes(s, t, i);
  }

  lemma EmptyLineServes(s: State, j: nat, i: nat)
    requires Inv(s) && !SomeoneStuck(s) && Waits(s, i) && s.mutex == None
    requires j in s.clients && j != i && s.clients[j].pc == WantLock && s.clients[j].buffer == []
    ensures CanServe(s, i)
  {
    MildStep(s, Lock(j));
    WriterServes(Next(s, Lock(j), true), j, i);
    StepServes(s, Lock(j), i);
  }

  lemma LineServes(s: State, j: nat, i: nat)
    requires Inv(s) && !SomeoneStuck(s) && Waits(s, i) && s.mutex == None
    requires j in s.clients && j != i && s.clients[j] == NEWCOMER
    ensures CanServe(s, i)
  {
    var s1 := Next(s, Recv(j, [NL]), true);
    MildStep(s, Recv(j, [NL]));
    MildStep(s1, Take(j));
    EmptyLineServes(Next(s1, Take(j), true), j, i);
    StepServes(s1, Take(j), i);
    StepServes(s, Recv(j, [NL]), i);
  }

  /** With the mutex free, another client may come and put something into the store. */
  lemma FreeServes(s: State, i: nat)
    requires Inv(s) && !SomeoneStuck(s) && Waits(s, i) && s.mutex == None
    ensures CanServe(s, i)
  {
    var j := NewId(s.clients.Keys);
    assert i in s.clients.Keys;
    MildStep(s, Accept(j));
    LineServes(Next(s, Accept(j), true), j, i);
    StepServes(s, Accept(j), i);
  }

  lemma UnlockServes(s: State, h: nat, i: nat)
    requires Inv(s) && !SomeoneStuck(s) && Waits(s, i)
    requires h in s.clients && s.clients[h].pc == Unlocking
    ensures CanServe(s, i)
  {
    MildStep(s, Unlock(h));
    FreeServes(Next(s, Unlock(h), true), i);
    StepServes(s, Unlock(h), i);
  }

  lemma UnblockedServes(s: State, i: nat)
    requires Inv(s) && !Blocked(s) && Waits(s, i)
    ensures CanServe(s, i)
  {
    if s.mutex == None {
      FreeServes(s, i);
    } else {
      var h := s.mutex.value;
      assert ClientInv(s.mutex, s.acquired, h, s.clients[h]);
      if s.clients[h].pc == Unlocking {
        UnlockServes(s, h, i);
      } else if s.clients[h].pc == BodyWritten {
        BodyServes(s, h, i);
      } else if IsSeek(s.clients[h].buffer) {
        SmoothServes(s, i);
      } else {
        WriterServes(s, h, i);
      }
    }
  }

  // ------------------------------------------------------------- main results

  /** Some continuation serves and answers all the lines of these bytes, without a byte more from the client. */
  ghost predicate CanServeAll(s: State, i: nat, bytes: Data) {
    exists us :: Runs(s, us, true) && Received(us, i) == [] && Idle(ClientOf(After(s, us, true), i))
                 && PacketsOf(After(s, us, true).acquired, i) == Split(bytes)
  }

  lemma IdleHasServed(e: State, i: nat, bytes: Data)
    requires Inv(e) && i in e.clients && Idle(e.clients[i]) && Arrived(e, i) == bytes
    ensures PacketsOf(e.acquired, i) == Split(bytes)
  {
    ServedAreReceived(e, i, bytes);
  }

  lemma {:induction false} ClientsStay(s: State, ts: seq<Step>, i: nat)
    requires Runs(s, ts, true) && i in s.clients
    ensures i in After(s, ts, true).clients
    decreases |ts|
  {
    if ts != [] {
      ClientsStay(Next(s, ts[0], true), ts[1..], i);
    }
  }

  lemma InvServesAll(s: State, i: nat)
    requires Inv(s) && CanRelease(s) && Waits(s, i)
    ensures CanServeAll(s, i, Arrived(s, i))
  {
    ReleaseExact(s);
    UnblockedServes(s, i);
    var us :| Runs(s, us, true) && Received(us, i) == [] && Idle(ClientOf(After(s, us, true), i));
    RunReceives(s, us, i);
    assert Arrived(s, i) + [] == Arrived(s, i);
    RunKeeps(s, us, true);
    ClientsStay(s, us, i);
    IdleHasServed(After(s, us, true), i, Arrived(s, i));
  }

  /**
   From wherever a run has got: as long as the mutex can come free, some
   continuation serves every line a client has sent, in the order it sent them.
   */
  lemma EveryLineServed(ts: seq<Step>, i: nat)
    requires Runs(START, ts, true) && CanRelease(After(START, ts, true)) && Waits(After(START, ts, true), i)
    ensures CanServeAll(After(START, ts, true), i, Received(ts, i))
  {
    RunFromStart(ts, i);
    InvServesAll(After(START, ts, true), i);
  }

  /** A client that hung up takes no further step. */
  lemma {:induction false} ClosedIsFinal(s: State, ts: seq<Step>, i: nat)
    requires Runs(s, ts, true) && i in s.clients && s.clients[i].pc == Closed
    ensures i in After(s, ts, true).clients && After(s, ts, true).clients[i] == s.clients[i]
    ensures forall k :: 0 <= k < |ts| ==> ts[k].i != i
    decreases |ts|
  {
    if ts != [] {
      OthersUntouched(s, ts[0], i);
      ClosedIsFinal(Next(s, ts[0], true), ts[1..], i);
    }
  }

  lemma HangUpIsFinal(s: State, ts: seq<Step>, i: nat)
    requires Enabled(s, HangUp(i)) && Runs(Next(s, HangUp(i), true), ts, true)
    ensures ClientOf(After(Next(s, HangUp(i), true), ts, true), i) == s.clients[i].(pc := Closed)
    ensures forall k :: 0 <= k < |ts| ==> ts[k].i != i
  {
    ClosedIsFinal(Next(s, HangUp(i), true), ts, i);
  }
}
