/**
 The server's client threads over one device, as steps that interleave freely.
 A step is one device call, one mutex operation, or one local action of one
 thread; `file_mutex` is all that keeps packets apart.
 */
module Server {
  import opened Lines
  import opened Ring
  import opened Store
  import opened Positions
  import opened Framing

  datatype Pc = Receiving | WantLock | Locked | BodyWritten | Unlocking | Draining | Closed

  /**
   `inbox` is the unprocessed rest of the receive buffer, `buffer` is
   `write_buffer[..write_buffer_index]`. A thread is stuck once a seek failed:
   it goes on receiving without having released the mutex. `consumed` and `sent`
   record all bytes processed and all bytes answered.
   */
  datatype Client = Client(pc: Pc, inbox: Data, buffer: Data, fPos: nat, stuck: bool, consumed: Data, sent: Data)

  /** A packet for which the mutex was acquired. */
  datatype Acquisition = Acquisition(client: nat, packet: Data)

  datatype State = State(dev: Device, mutex: Option<nat>, clients: map<nat, Client>, acquired: seq<Acquisition>)

  const START := State(FRESH, None, map[], [])

  /** The thread of a new connection. */
  const NEWCOMER := Client(Receiving, [], [], 0, false, [], [])

  function ClientOf(s: State, i: nat): Client {
    if i in s.clients then s.clients[i] else NEWCOMER
  }

  datatype Step =
    | Accept(i: nat)
    | Recv(i: nat, chunk: Data)
    | Take(i: nat)
    | Lock(i: nat)
    | WriteBody(i: nat, junk: Junk)
    | WriteNewline(i: nat, junk: Junk)
    | Seek(i: nat, index: nat, offset: nat)
    | Unlock(i: nat)
    | ReadSome(i: nat)
    | EndDrain(i: nat)
    | HangUp(i: nat)

  ghost predicate Enabled(s: State, t: Step) {
    if t.Accept? then t.i !in s.clients
    else
      t.i in s.clients &&
      var c := s.clients[t.i];
      match t
      case Recv(_, chunk) => c.pc == Receiving && c.inbox == [] && 0 < |chunk| <= BUFFER_SIZE
      case Take(_) => c.pc == Receiving && c.inbox != [] && |c.buffer| < BUFFER_SIZE
      case Lock(_) => c.pc == WantLock && s.mutex == None
      case WriteBody(_, _) => c.pc == Locked && !IsSeek(c.buffer)
      case WriteNewline(_, _) => c.pc == BodyWritten
      case Seek(_, _, _) => c.pc == Locked && IsSeek(c.buffer)
      case Unlock(_) => c.pc == Unlocking
      case ReadSome(_) => c.pc == Draining && ReadLength(s.dev.log, c.fPos, BUFFER_SIZE) > 0
      case EndDrain(_) => c.pc == Draining && ReadLength(s.dev.log, c.fPos, BUFFER_SIZE) == 0
      case HangUp(_) => c.pc == Receiving && c.inbox == []
  }

  /** The device write of a run: as coded, or as the splitter promises. */
  function DeviceWrite(literal: bool, d: Device, data: Data, junk: Junk): Device {
    if literal then LiteralWrite(d, data, junk) else ReferenceWrite(d, data)
  }

  /** `recv` appends to the inbox; one byte is taken from it at a time. */
  function TakeByteOf(c: Client): Client
    requires c.inbox != []
  {
    var c' := c.(inbox := c.inbox[1..], consumed := c.consumed + [c.inbox[0]]);
    if c.inbox[0] == NL then c'.(pc := WantLock) else c'.(buffer := c.buffer + [c.inbox[0]])
  }

  function SeekOf(c: Client, log: seq<Data>, index: nat, offset: nat): Client {
    var r := LiteralSeek(Lengths(log), index % UINT32, offset % UINT32);
    if r.Some? then c.(pc := Unlocking, fPos := r.value) else c.(pc := Receiving, stuck := true)
  }

  ghost function Chunk(s: State, c: Client): Data
    requires ReadLength(s.dev.log, c.fPos, BUFFER_SIZE) > 0
  {
    ReadLengthBounds(s.dev.log, c.fPos, BUFFER_SIZE);
    Visible(s.dev.log)[c.fPos..c.fPos + ReadLength(s.dev.log, c.fPos, BUFFER_SIZE)]
  }

  /** What the step does to the thread that takes it. */
  ghost function Moved(s: State, t: Step): Client
    requires Enabled(s, t)
  {
    if t.Accept? then NEWCOMER
    else
      var c := s.clients[t.i];
      match t
      case Recv(_, chunk) => c.(inbox := chunk)
      case Take(_) => TakeByteOf(c)
      case Lock(_) => c.(pc := Locked)
      case WriteBody(_, _) => c.(pc := BodyWritten)
      case WriteNewline(_, _) => c.(pc := Unlocking)
      case Seek(_, index, offset) => SeekOf(c, s.dev.log, index, offset)
      case Unlock(_) => c.(pc := Draining, buffer := [])
      case ReadSome(_) => c.(fPos := c.fPos + |Chunk(s, c)|, sent := c.sent + Chunk(s, c))
      case EndDrain(_) => c.(pc := Receiving)
      case HangUp(_) => c.(pc := Closed)
  }

  ghost function Next(s: State, t: Step, literal: bool): State
    requires Enabled(s, t)
  {
    var s' := s.(clients := s.clients[t.i := Moved(s, t)]);
    match t
    case Lock(i) => s'.(mutex := Some(i), acquired := s.acquired + [Acquisition(i, s.clients[i].buffer)])
    case WriteBody(i, junk) => s'.(dev := DeviceWrite(literal, s.dev, s.clients[i].buffer, junk))
    case WriteNewline(_, junk) => s'.(dev := DeviceWrite(literal, s.dev, [NL], junk))
    case Unlock(_) => s'.(mutex := None)
    case _ => s'
  }

  ghost predicate Runs(s: State, ts: seq<Step>, literal: bool)
    decreases |ts|
  {
    ts == [] || (Enabled(s, ts[0]) && Runs(Next(s, ts[0], literal), ts[1..], literal))
  }

  ghost function After(s: State, ts: seq<Step>, literal: bool): State
    requires Runs(s, ts, literal)
    decreases |ts|
  {
    if ts == [] then s else After(Next(s, ts[0], literal), ts[1..], literal)
  }

  lemma RunsCons(s: State, t: Step, ts: seq<Step>)
    requires Enabled(s, t) && Runs(Next(s, t, true), ts, true)
    ensures Runs(s, [t] + ts, true) && After(s, [t] + ts, true) == After(Next(s, t, true), ts, true)
  {
    assert ([t] + ts)[1..] == ts;
  }

  // ------------------------------------------------------------- invariant

  /** The command an acquisition adds: none for a seek packet. */
  function CommandOf(a: Acquisition): seq<Data> {
    if IsSeek(a.packet) then [] else [a.packet + [NL]]
  }

  function Commands(acq: seq<Acquisition>): seq<Data> {
    if acq == [] then [] else Commands(acq[..|acq| - 1]) + CommandOf(acq[|acq| - 1])
  }

  /** The packets of one client, as lines. */
  function PacketsOf(acq: seq<Acquisition>, i: nat): seq<Data> {
    if acq == [] then []
    else
      var a := acq[|acq| - 1];
      PacketsOf(acq[..|acq| - 1], i) + if a.client == i then [a.packet + [NL]] else []
  }

  predicate InSection(pc: Pc) {
    pc == Locked || pc == BodyWritten || pc == Unlocking
  }

  predicate HasPacket(pc: Pc) {
    pc == WantLock || InSection(pc)
  }

  predicate HoldsMutex(c: Client) {
    InSection(c.pc) || c.stuck
  }

  /** The packets served so far are the lines received so far, up to the one being served. */
  ghost predicate Framed(acq: seq<Acquisition>, i: nat, c: Client) {
    if c.stuck then PacketsOf(acq, i) <= Split(c.consumed)
    else
      && Split(c.consumed) == PacketsOf(acq, i) + (if c.pc == WantLock then [c.buffer + [NL]] else [])
      && Tail(c.consumed) == if HasPacket(c.pc) then [] else c.buffer
  }

  /** No packet of the connection has been answered yet, nor has one been a seek. */
  ghost predicate Untouched(packets: seq<Data>, c: Client) {
    packets == [] || (|packets| == 1 && InSection(c.pc) && !IsSeek(c.buffer))
  }

  ghost predicate ClientInv(mutex: Option<nat>, acq: seq<Acquisition>, i: nat, c: Client) {
    && NoNewline(c.buffer)
    && (HoldsMutex(c) <==> mutex == Some(i))
    && (c.stuck ==> c.pc == Receiving || c.pc == WantLock || c.pc == Closed)
    && (InSection(c.pc) ==> acq != [] && acq[|acq| - 1] == Acquisition(i, c.buffer))
    && (c.pc == BodyWritten ==> !IsSeek(c.buffer))
    && (c.pc == Draining ==> c.buffer == [] && PacketsOf(acq, i) != [])
    && (Untouched(PacketsOf(acq, i), c) ==> c.fPos == 0)
    && Framed(acq, i, c)
  }

  /** The device as the acquisitions determine it, given what the holder has done so far. */
  function Expected(acq: seq<Acquisition>, holder: Option<Client>): Device {
    if acq != [] && holder.Some? && holder.value.pc == Locked then Device(Commands(acq[..|acq| - 1]), [])
    else if acq != [] && holder.Some? && holder.value.pc == BodyWritten
    then Device(Commands(acq[..|acq| - 1]), holder.value.buffer)
    else Device(Commands(acq), [])
  }

  function Holder(s: State): Option<Client> {
    if s.mutex.Some? && s.mutex.value in s.clients then Some(s.clients[s.mutex.value]) else None
  }

  ghost predicate Inv(s: State) {
    && (forall i :: i in s.clients ==> ClientInv(s.mutex, s.acquired, i, s.clients[i]))
    && (s.mutex.Some? ==> s.mutex.value in s.clients)
    && (forall a :: a in s.acquired ==> a.client in s.clients)
    && s.dev == Expected(s.acquired, Holder(s))
  }

  lemma PacketsAppend(acq: seq<Acquisition>, a: Acquisition, i: nat)
    ensures PacketsOf(acq + [a], i) == PacketsOf(acq, i) + if a.client == i then [a.packet + [NL]] else []
  {
    assert (acq + [a])[..|acq|] == acq;
  }

  // -------------------------------------------- the thread that takes a step

  lemma TakeNewlineKeeps(mutex: Option<nat>, acq: seq<Acquisition>, i: nat, c: Client)
    requires ClientInv(mutex, acq, i, c) && c.pc == Receiving && c.inbox != [] && c.inbox[0] == NL
    ensures ClientInv(mutex, acq, i, TakeByteOf(c))
  {
    TailNewline(c.consumed);
    PrefixGrows(PacketsOf(acq, i), Split(c.consumed), [Tail(c.consumed) + [NL]]);
    assert PacketsOf(acq, i) + [] == PacketsOf(acq, i);
  }

  lemma PrefixGrows<T>(a: seq<T>, b: seq<T>, more: seq<T>)
    ensures a <= b ==> a <= b + more
  {
  }

  lemma TakeByteKeeps(mutex: Option<nat>, acq: seq<Acquisition>, i: nat, c: Client)
    requires ClientInv(mutex, acq, i, c) && c.pc == Receiving && c.inbox != [] && c.inbox[0] != NL
    ensures ClientInv(mutex, acq, i, TakeByteOf(c))
  {
    TailByte(c.consumed, c.inbox[0]);
  }

  lemma LockKeeps(acq: seq<Acquisition>, i: nat, c: Client)
    requires ClientInv(None, acq, i, c) && c.pc == WantLock
    ensures ClientInv(Some(i), acq + [Acquisition(i, c.buffer)], i, c.(pc := Locked))
  {
    PacketsAppend(acq, Acquisition(i, c.buffer), i);
  }

  lemma SectionKeeps(acq: seq<Acquisition>, i: nat, c: Client, pc: Pc)
    requires ClientInv(Some(i), acq, i, c) && InSection(c.pc) && !c.stuck
    requires InSection(pc) && (pc == BodyWritten ==> !IsSeek(c.buffer))
    ensures ClientInv(Some(i), acq, i, c.(pc := pc))
  {
  }

  lemma SeekKeeps(acq: seq<Acquisition>, i: nat, c: Client, log: seq<Data>, index: nat, offset: nat)
    requires ClientInv(Some(i), acq, i, c) && c.pc == Locked && IsSeek(c.buffer)
    ensures ClientInv(Some(i), acq, i, SeekOf(c, log, index, offset))
  {
    assert PacketsOf(acq, i) != [];
    assert PacketsOf(acq, i) + [] == PacketsOf(acq, i);
  }

  lemma UnlockKeeps(acq: seq<Acquisition>, i: nat, c: Client)
    requires ClientInv(Some(i), acq, i, c) && c.pc == Unlocking
    ensures ClientInv(None, acq, i, c.(pc := Draining, buffer := []))
  {
  }

  /** Receiving a buffer, reading, ending the drain and hanging up leave packets alone. */
  lemma QuietKeeps(mutex: Option<nat>, acq: seq<Acquisition>, i: nat, c: Client, c': Client)
    requires ClientInv(mutex, acq, i, c) && (c.pc == Receiving || c.pc == Draining)
    requires c.pc == Receiving ==> c'.fPos == c.fPos
    requires c'.buffer == c.buffer && c'.stuck == c.stuck && c'.consumed == c.consumed
    requires c'.pc == c.pc || c'.pc == Receiving || (c'.pc == Closed && c.pc == Receiving)
    ensures ClientInv(mutex, acq, i, c')
  {
  }

  lemma FreshKeeps(mutex: Option<nat>, acq: seq<Acquisition>, i: nat)
    requires mutex != Some(i) && PacketsOf(acq, i) == []
    ensures ClientInv(mutex, acq, i, NEWCOMER)
  {
    SplitNone([]);
  }

  // -------------------------------------------------------- the other threads

  lemma OtherLocks(acq: seq<Acquisition>, a: Acquisition, j: nat, c: Client)
    requires ClientInv(None, acq, j, c) && a.client != j
    ensures ClientInv(Some(a.client), acq + [a], j, c)
  {
    PacketsAppend(acq, a, j);
    assert PacketsOf(acq, j) + [] == PacketsOf(acq, j);
  }

  lemma OtherUnlocks(acq: seq<Acquisition>, i: nat, j: nat, c: Client)
    requires ClientInv(Some(i), acq, j, c) && i != j
    ensures ClientInv(None, acq, j, c)
  {
  }

  lemma {:induction false} PacketsOfNobody(acq: seq<Acquisition>, i: nat)
    requires forall a :: a in acq ==> a.client != i
    ensures PacketsOf(acq, i) == []
  {
    if acq != [] {
      PacketsOfNobody(acq[..|acq| - 1], i);
    }
  }

  // -------------------------------------------------------------- the device

  /** On the device a packet's two writes meet, the code and the splitter agree. */
  lemma PacketWritten(literal: bool, log: seq<Data>, packet: Data, junk: Junk)
    requires NoNewline(packet)
    ensures DeviceWrite(literal, Device(log, []), packet, junk) == Device(log, packet)
    ensures DeviceWrite(literal, Device(log, packet), [NL], junk) == Device(log + [packet + [NL]], [])
  {
    PacketWrites(Device(log, []), packet, junk, junk);
  }

  lemma CommandsLast(acq: seq<Acquisition>)
    requires acq != []
    ensures Commands(acq) == Commands(acq[..|acq| - 1]) + CommandOf(acq[|acq| - 1])
    ensures IsSeek(acq[|acq| - 1].packet) ==> Commands(acq) == Commands(acq[..|acq| - 1])
  {
  }

  lemma DeviceAtLock(s: State, t: Step, literal: bool)
    requires Inv(s) && Enabled(s, t) && t.Lock?
    ensures var s' := Next(s, t, literal); s'.dev == Expected(s'.acquired, Holder(s'))
  {
    var a := Acquisition(t.i, s.clients[t.i].buffer);
    assert (s.acquired + [a])[..|s.acquired|] == s.acquired;
  }

  /** The device when the holder has yet to write. */
  lemma DeviceBefore(s: State, i: nat)
    requires Inv(s) && i in s.clients && (s.clients[i].pc == Locked || s.clients[i].pc == BodyWritten)
    ensures s.mutex == Some(i) && s.acquired != [] && NoNewline(s.clients[i].buffer)
    ensures s.acquired[|s.acquired| - 1] == Acquisition(i, s.clients[i].buffer)
    ensures s.dev == Device(Commands(s.acquired[..|s.acquired| - 1]),
                            if s.clients[i].pc == Locked then [] else s.clients[i].buffer)
  {
    assert ClientInv(s.mutex, s.acquired, i, s.clients[i]);
  }

  lemma DeviceAtBody(s: State, t: Step, literal: bool)
    requires Inv(s) && Enabled(s, t) && t.WriteBody?
    ensures var s' := Next(s, t, literal); s'.dev == Expected(s'.acquired, Holder(s'))
  {
    DeviceBefore(s, t.i);
    PacketWritten(literal, s.dev.log, s.clients[t.i].buffer, t.junk);
  }

  lemma DeviceAtNewline(s: State, t: Step, literal: bool)
    requires Inv(s) && Enabled(s, t) && t.WriteNewline?
    ensures var s' := Next(s, t, literal); s'.dev == Expected(s'.acquired, Holder(s'))
  {
    DeviceBefore(s, t.i);
    assert ClientInv(s.mutex, s.acquired, t.i, s.clients[t.i]);
    PacketWritten(literal, s.dev.log, s.clients[t.i].buffer, t.junk);
    CommandsLast(s.acquired);
  }

  lemma DeviceAtSeek(s: State, t: Step, literal: bool)
    requires Inv(s) && Enabled(s, t) && t.Seek?
    ensures var s' := Next(s, t, literal); s'.dev == Expected(s'.acquired, Holder(s'))
  {
    assert ClientInv(s.mutex, s.acquired, t.i, s.clients[t.i]);
    CommandsLast(s.acquired);
  }

  lemma DeviceElsewhere(s: State, t: Step, literal: bool)
    requires Inv(s) && Enabled(s, t)
    requires !t.Lock? && !t.WriteBody? && !t.WriteNewline? && !t.Seek?
    ensures var s' := Next(s, t, literal); s'.dev == Expected(s'.acquired, Holder(s'))
  {
    if !t.Accept? {
      assert ClientInv(s.mutex, s.acquired, t.i, s.clients[t.i]);
    }
  }

  lemma DeviceKeeps(s: State, t: Step, literal: bool)
    requires Inv(s) && Enabled(s, t)
    ensures var s' := Next(s, t, literal); s'.dev == Expected(s'.acquired, Holder(s'))
  {
    if t.Lock? {
      DeviceAtLock(s, t, literal);
    } else if t.WriteBody? {
      DeviceAtBody(s, t, literal);
    } else if t.WriteNewline? {
      DeviceAtNewline(s, t, literal);
    } else if t.Seek? {
      DeviceAtSeek(s, t, literal);
    } else {
      DeviceElsewhere(s, t, literal);
    }
  }

  // --------------------------------------------------------------- the steps

  lemma MoverKeeps(s: State, t: Step, literal: bool)
    requires Inv(s) && Enabled(s, t)
    ensures var s' := Next(s, t, literal); ClientInv(s'.mutex, s'.acquired, t.i, s'.clients[t.i])
  {
    if t.Accept? {
      PacketsOfNobody(s.acquired, t.i);
      FreshKeeps(s.mutex, s.acquired, t.i);
    } else {
      var c := s.clients[t.i];
      assert ClientInv(s.mutex, s.acquired, t.i, c);
      if t.Take? && c.inbox[0] == NL {
        TakeNewlineKeeps(s.mutex, s.acquired, t.i, c);
      } else if t.Take? {
        TakeByteKeeps(s.mutex, s.acquired, t.i, c);
      } else if t.Lock? {
        LockKeeps(s.acquired, t.i, c);
      } else if t.WriteBody? {
        SectionKeeps(s.acquired, t.i, c, BodyWritten);
      } else if t.WriteNewline? {
        SectionKeeps(s.acquired, t.i, c, Unlocking);
      } else if t.Seek? {
        SeekKeeps(s.acquired, t.i, c, s.dev.log, t.index, t.offset);
      } else if t.Unlock? {
        UnlockKeeps(s.acquired, t.i, c);
      } else {
        QuietKeeps(s.mutex, s.acquired, t.i, c, Moved(s, t));
      }
    }
  }

  lemma OtherKeeps(s: State, t: Step, literal: bool, j: nat)
    requires Inv(s) && Enabled(s, t) && j in s.clients && j != t.i
    ensures var s' := Next(s, t, literal); ClientInv(s'.mutex, s'.acquired, j, s'.clients[j])
  {
    assert ClientInv(s.mutex, s.acquired, j, s.clients[j]);
    if t.Lock? {
      OtherLocks(s.acquired, Acquisition(t.i, s.clients[t.i].buffer), j, s.clients[j]);
    } else if t.Unlock? {
      assert ClientInv(s.mutex, s.acquired, t.i, s.clients[t.i]);
      OtherUnlocks(s.acquired, t.i, j, s.clients[j]);
    }
  }

  /** Every step keeps the invariant, whichever thread takes it. */
  lemma StepKeeps(s: State, t: Step, literal: bool)
    requires Inv(s) && Enabled(s, t)
    ensures Inv(Next(s, t, literal))
  {
    var s' := Next(s, t, literal);
    DeviceKeeps(s, t, literal);
    forall j | j in s'.clients
      ensures ClientInv(s'.mutex, s'.acquired, j, s'.clients[j])
    {
      if j == t.i {
        MoverKeeps(s, t, literal);
      } else {
        OtherKeeps(s, t, literal, j);
      }
    }
  }

  lemma {:induction false} RunKeeps(s: State, ts: seq<Step>, literal: bool)
    requires Inv(s) && Runs(s, ts, literal)
    ensures Inv(After(s, ts, literal))
    decreases |ts|
  {
    if ts != [] {
      StepKeeps(s, ts[0], literal);
      RunKeeps(Next(s, ts[0], literal), ts[1..], literal);
    }
  }

  // ------------------------------------------------------------ main results

  lemma StartInv()
    ensures Inv(START)
  {
  }

  lemma {:induction false} CommandOwned(acq: seq<Acquisition>, line: Data)
    requires line in Commands(acq)
    ensures exists a :: a in acq && line in PacketsOf(acq, a.client)
  {
    var last := acq[|acq| - 1];
    if line in CommandOf(last) {
      assert last in acq && line in PacketsOf(acq, last.client);
    } else {
      CommandOwned(acq[..|acq| - 1], line);
      var a :| a in acq[..|acq| - 1] && line in PacketsOf(acq[..|acq| - 1], a.client);
      assert a in acq && line in PacketsOf(acq, a.client);
    }
  }

  /** The bytes that arrived at a connection in the course of a run. */
  function Received(ts: seq<Step>, i: nat): Data
    decreases |ts|
  {
    if ts == [] then []
    else (if ts[0].Recv? && ts[0].i == i then ts[0].chunk else []) + Received(ts[1..], i)
  }

  /** The bytes of a connection that were processed or still wait in the receive buffer. */
  function Arrived(s: State, i: nat): Data {
    ClientOf(s, i).consumed + ClientOf(s, i).inbox
  }

  lemma TakeArrives(c: Client)
    requires c.inbox != []
    ensures TakeByteOf(c).consumed + TakeByteOf(c).inbox == c.consumed + c.inbox
  {
    assert c.inbox == [c.inbox[0]] + c.inbox[1..];
    Associate(c.consumed, [c.inbox[0]], c.inbox[1..]);
  }

  lemma StepReceives(s: State, t: Step, i: nat)
    requires Enabled(s, t)
    ensures Arrived(Next(s, t, true), i) == Arrived(s, i) + if t.Recv? && t.i == i then t.chunk else []
  {
    if t.i == i && t.Take? {
      TakeArrives(s.clients[i]);
    }
  }

  /** Nothing that arrives is lost, repeated or reordered on its way into packets. */
  lemma {:induction false} RunReceives(s: State, ts: seq<Step>, i: nat)
    requires Runs(s, ts, true)
    ensures Arrived(After(s, ts, true), i) == Arrived(s, i) + Received(ts, i)
    decreases |ts|
  {
    if ts == [] {
      assert Arrived(s, i) + [] == Arrived(s, i);
    } else {
      var chunk := if ts[0].Recv? && ts[0].i == i then ts[0].chunk else [];
      StepReceives(s, ts[0], i);
      RunReceives(Next(s, ts[0], true), ts[1..], i);
      Associate(Arrived(s, i), chunk, Received(ts[1..], i));
    }
  }

  lemma StartArrives(ts: seq<Step>, i: nat)
    requires Runs(START, ts, true)
    ensures Arrived(After(START, ts, true), i) == Received(ts, i)
  {
    RunReceives(START, ts, i);
    assert Arrived(START, i) == [] && [] + Received(ts, i) == Received(ts, i);
  }

  /** From the start: the invariant, and all that arrived is accounted for. */
  lemma RunFromStart(ts: seq<Step>, i: nat)
    requires Runs(START, ts, true)
    ensures Inv(After(START, ts, true)) && Arrived(After(START, ts, true), i) == Received(ts, i)
  {
    StartInv();
    RunKeeps(START, ts, true);
    StartArrives(ts, i);
  }

  lemma SplitOfPrefix(a: Data, b: Data)
    ensures Split(a) <= Split(a + b)
  {
    SplitConcat(a, b);
  }

  lemma LogWithinCommands(s: State)
    requires Inv(s)
    ensures s.dev.log <= Commands(s.acquired)
    ensures s.mutex == None ==> s.dev == Device(Commands(s.acquired), [])
  {
    if s.acquired != [] {
      CommandsLast(s.acquired);
    }
  }

  lemma LogLineOwned(s: State, line: Data) returns (i: nat)
    requires Inv(s) && line in s.dev.log
    ensures i in s.clients && line in PacketsOf(s.acquired, i)
  {
    LogWithinCommands(s);
    CommandOwned(s.acquired, line);
    var a :| a in s.acquired && line in PacketsOf(s.acquired, a.client);
    i := a.client;
  }

  /** What holds after every run `ts` from the start, however the threads interleave. */
  ghost predicate Safe(ts: seq<Step>, s: State) {
    // with the mutex free, exactly the non-seek packets in the order of acquisition, and nothing pending
    && (s.mutex == None ==> s.dev == Device(Commands(s.acquired), []))
    // with the mutex held, at most the packet being served is missing
    && s.dev.log <= Commands(s.acquired)
    // every command is a line that one client sent
    && (forall line :: line in s.dev.log ==> exists i :: i in s.clients && line in Split(Received(ts, i)))
    // each client's bytes were all processed or still wait
    && (forall i :: i in s.clients ==> s.clients[i].consumed + s.clients[i].inbox == Received(ts, i))
    // and the lines it sent were served in its own order, none twice, none skipped
    && (forall i :: i in s.clients ==> PacketsOf(s.acquired, i) <= Split(Received(ts, i)))
    && (forall i :: i in s.clients && s.clients[i].inbox == [] && s.clients[i].pc != WantLock && !s.clients[i].stuck
          ==> PacketsOf(s.acquired, i) == Split(Received(ts, i)))
  }

  lemma ServerSafety(ts: seq<Step>)
    requires Runs(START, ts, true)
    ensures Safe(ts, After(START, ts, true))
  {
    var s := After(START, ts, true);
    StartInv();
    RunKeeps(START, ts, true);
    LogWithinCommands(s);
    forall i | i in s.clients
      ensures s.clients[i].consumed + s.clients[i].inbox == Received(ts, i)
      ensures PacketsOf(s.acquired, i) <= Split(Received(ts, i))
      ensures s.clients[i].inbox == [] && s.clients[i].pc != WantLock && !s.clients[i].stuck
              ==> PacketsOf(s.acquired, i) == Split(Received(ts, i))
    {
      RunFromStart(ts, i);
      ServedAreReceived(s, i, Received(ts, i));
    }
    forall line | line in s.dev.log
      ensures exists i :: i in s.clients && line in Split(Received(ts, i))
    {
      var i := LogLineOwned(s, line);
      assert line in Split(Received(ts, i));
    }
  }

  /** The packets of one client against all that arrived from it. */
  lemma ServedAreReceived(s: State, i: nat, all: Data)
    requires Inv(s) && i in s.clients && s.clients[i].consumed + s.clients[i].inbox == all
    ensures PacketsOf(s.acquired, i) <= Split(s.clients[i].consumed) <= Split(all)
    ensures s.clients[i].inbox == [] && s.clients[i].pc != WantLock && !s.clients[i].stuck
            ==> PacketsOf(s.acquired, i) == Split(all)
  {
    var c := s.clients[i];
    assert ClientInv(s.mutex, s.acquired, i, c);
    assert PacketsOf(s.acquired, i) + [] == PacketsOf(s.acquired, i);
    SplitOfPrefix(c.consumed, c.inbox);
    assert c.inbox == [] ==> c.consumed + c.inbox == c.consumed;
  }

  lemma SameStep(s: State, t: Step)
    requires Inv(s) && Enabled(s, t)
    ensures Next(s, t, true) == Next(s, t, false)
  {
    if t.WriteBody? || t.WriteNewline? {
      DeviceBefore(s, t.i);
      PacketWritten(true, s.dev.log, s.clients[t.i].buffer, t.junk);
      PacketWritten(false, s.dev.log, s.clients[t.i].buffer, t.junk);
    }
  }

  /** On every run of the server the write loop as coded is the promised splitter: same steps, same states. */
  lemma {:induction false} LiteralIsReference(s: State, ts: seq<Step>)
    requires Inv(s)
    ensures Runs(s, ts, true) <==> Runs(s, ts, false)
    ensures Runs(s, ts, true) ==> After(s, ts, true) == After(s, ts, false)
    decreases |ts|
  {
    if ts != [] && Enabled(s, ts[0]) {
      SameStep(s, ts[0]);
      StepKeeps(s, ts[0], true);
      LiteralIsReference(Next(s, ts[0], true), ts[1..]);
    }
  }

  /** A failed seek leaves the mutex locked: from then on no packet of any client reaches the device. */
  lemma {:induction false} FailedSeekFreezes(s: State, ts: seq<Step>, i: nat)
    requires Inv(s) && Runs(s, ts, true) && i in s.clients && s.clients[i].stuck
    ensures var e := After(s, ts, true);
            e.dev == s.dev && e.acquired == s.acquired && e.mutex == Some(i) && i in e.clients && e.clients[i].stuck
    decreases |ts|
  {
    assert ClientInv(s.mutex, s.acquired, i, s.clients[i]);
    if ts != [] {
      var t := ts[0];
      if !t.Accept? {
        assert ClientInv(s.mutex, s.acquired, t.i, s.clients[t.i]);
      }
      StepKeeps(s, t, true);
      FailedSeekFreezes(Next(s, t, true), ts[1..], i);
    }
  }

  // ------------------------------------------------------- without the mutex

  lemma PiecesPend(d: Device, a: Data, b: Data, junk: Junk)
    requires d.pending == a && NoNewline(a) && NoNewline(b)
    ensures LiteralWrite(d, b, junk) == Device(d.log, a + b)
  {
    NewlinesNone(a + b);
    SplitNone(a + b);
    LiteralWriteExact(d, b, junk);
    assert d.log + [] == d.log;
  }

  /** A newline with nothing pending makes an empty command. */
  lemma EmptyCommand(log: seq<Data>, junk: Junk)
    ensures LiteralWrite(Device(log, []), [NL], junk) == Device(log + [[NL]], [])
  {
    PacketWritten(true, log, [], junk);
    assert [] + [NL] == [NL];
  }

  /** The bodies of two packets, written one after the other, and then both newlines. */
  lemma SplicedWrites(log: seq<Data>, a: Data, b: Data, junk: Junk)
    requires NoNewline(a) && NoNewline(b)
    ensures var d := LiteralWrite(LiteralWrite(Device(log, []), a, junk), b, junk);
            LiteralWrite(LiteralWrite(d, [NL], junk), [NL], junk) == Device(log + [(a + b) + [NL]] + [[NL]], [])
  {
    PiecesPend(Device(log, []), [], a, junk);
    assert [] + a == a;
    PiecesPend(Device(log, a), a, b, junk);
    PacketWritten(true, log, a + b, junk);
    EmptyCommand(log + [(a + b) + [NL]], junk);
  }

  /**
   Were the mutex not to keep two clients apart, their packets could become one
   command, followed by an empty one: a run of four steps from where both are in
   the section.
   */
  lemma UnlockedWritesSplice(s: State, i: nat, j: nat, junk: Junk)
    requires i != j && i in s.clients && j in s.clients && s.clients[i].pc == s.clients[j].pc == Locked
    requires NoNewline(s.clients[i].buffer) && !IsSeek(s.clients[i].buffer)
    requires NoNewline(s.clients[j].buffer) && !IsSeek(s.clients[j].buffer)
    requires s.dev.pending == []
    ensures var ts := [WriteBody(i, junk)] + ([WriteBody(j, junk)] + ([WriteNewline(i, junk)] + [WriteNewline(j, junk)]));
            && Runs(s, ts, true)
            && After(s, ts, true).dev
               == Device(s.dev.log + [(s.clients[i].buffer + s.clients[j].buffer) + [NL]] + [[NL]], [])
  {
    var s1 := Next(s, WriteBody(i, junk), true);
    var s2 := Next(s1, WriteBody(j, junk), true);
    var s3 := Next(s2, WriteNewline(i, junk), true);
    SplicedWrites(s.dev.log, s.clients[i].buffer, s.clients[j].buffer, junk);
    RunsCons(s3, WriteNewline(j, junk), []);
    assert [WriteNewline(j, junk)] + [] == [WriteNewline(j, junk)];
    RunsCons(s2, WriteNewline(i, junk), [WriteNewline(j, junk)]);
    RunsCons(s1, WriteBody(j, junk), [WriteNewline(i, junk)] + [WriteNewline(j, junk)]);
    RunsCons(s, WriteBody(i, junk), [WriteBody(j, junk)] + ([WriteNewline(i, junk)] + [WriteNewline(j, junk)]));
  }
}
