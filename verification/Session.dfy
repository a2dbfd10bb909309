/**
 What one client sees with nobody else on the device: a packet goes in as two
 writes and everything from the descriptor's position on comes back.
 */
module Session {
  import opened Lines
  import opened Ring
  import opened Store
  import opened Positions
  import opened Driver
  import opened Framing

  /** A read moves bytes from what is left to what was got. */
  lemma FromStep(v: Data, from: nat, got: Data, p: nat, q: nat, chunk: Data)
    requires q == p + |chunk| && (chunk != [] ==> StandsAt(chunk, v, p))
    requires got + From(v, p) == From(v, from)
    ensures (got + chunk) + From(v, q) == From(v, from)
  {
    if chunk == [] {
      assert got + chunk == got;
    } else {
      assert v[p..] == chunk + v[q..];
      Associate(got, chunk, v[q..]);
    }
  }

  /** One read of the drain loop: `got` is what came before it. */
  method ReadMore(dev: AesdDev, f: File, count: nat, ghost v: Data, ghost from: nat, ghost got: Data)
    returns (chunk: Data)
    requires dev.Valid() && count > 0 && v == Visible(dev.log)
    requires f.fPos == from + |got| && got + From(v, f.fPos) == From(v, from)
    modifies f
    ensures f.fPos == from + |got + chunk| && (got + chunk) + From(v, f.fPos) == From(v, from)
    ensures if chunk == [] then From(v, f.fPos) == [] else old(f.fPos) < f.fPos <= |v|
  {
    chunk := dev.Read(f, count);
    FromStep(v, from, got, old(f.fPos), f.fPos, chunk);
  }

  /** The read loop of the server: repeated short reads, of whatever sizes, until one returns nothing. */
  method Drain(dev: AesdDev, f: File, counts: nat -> nat) returns (reply: Data)
    requires dev.Valid() && forall k :: counts(k) > 0
    modifies f
    ensures reply == From(Visible(dev.log), old(f.fPos))
    ensures f.fPos == old(f.fPos) + |reply|
  {
    reply := [];
    ghost var v, from := Visible(dev.log), f.fPos;
    assert [] + From(v, from) == From(v, from);
    var k: nat := 0;
    var chunk := ReadMore(dev, f, counts(k), v, from, []);
    while chunk != []
      invariant f.fPos == from + |reply + chunk| && (reply + chunk) + From(v, f.fPos) == From(v, from)
      invariant if chunk == [] then From(v, f.fPos) == [] else f.fPos <= |v|
      decreases |v| - f.fPos, |chunk|
    {
      reply := reply + chunk;
      k := k + 1;
      chunk := ReadMore(dev, f, counts(k), v, from, reply);
    }
    assert (reply + []) + [] == reply;
  }

  method WritePacket(dev: AesdDev, packet: Data, junk: Junk)
    requires dev.Valid() && dev.Pending() == [] && NoNewline(packet)
    modifies dev`incompleteCommandBuffer, dev`incompleteCommandSize, dev`log, dev.ring, dev.ring.entry, dev.kernel
    ensures dev.Valid() && dev.View() == Device(old(dev.log) + [packet + [NL]], [])
  {
    PacketWrites(dev.View(), packet, junk, junk);
    var n := dev.Write(packet, junk);
    n := dev.Write([NL], junk);
  }

  /** From position 0 the answer ends with the packet. */
  lemma ReplyEndsWith(log: seq<Data>, line: Data, from: nat)
    ensures from == 0 ==> EndsWith(From(Visible(log + [line]), from), line)
  {
    VisibleEndsWith(log, line);
  }

  /** What a packet's branch under the mutex does: two writes, or one seek. */
  method Execute(dev: AesdDev, f: File, packet: Data, index: nat, offset: nat, junk: Junk) returns (ok: bool)
    requires dev.Valid() && dev.Pending() == [] && NoNewline(packet)
    modifies dev`incompleteCommandBuffer, dev`incompleteCommandSize, dev`log, dev.ring, dev.ring.entry, dev.kernel, f
    ensures dev.Valid() && dev.Pending() == []
    ensures !IsSeek(packet) ==> ok && dev.log == old(dev.log) + [packet + [NL]] && f.fPos == old(f.fPos)
    ensures IsSeek(packet) ==> dev.log == old(dev.log)
    ensures IsSeek(packet) ==>
              var r := LiteralSeek(Lengths(dev.log), index % 4294967296, offset % 4294967296);
              ok == r.Some? && f.fPos == if ok then r.value else old(f.fPos)
  {
    if IsSeek(packet) {
      ok := dev.AdjustFileOffset(f, index % UINT32, offset % UINT32);
    } else {
      WritePacket(dev, packet, junk);
      ok := true;
    }
  }

  /**
   A packet served with the file mutex held throughout its branch and no other
   client writing before the drain ends; false is the seek that fails, which is
   not answered.
   */
  method ServePacket(dev: AesdDev, f: File, packet: Data, index: nat, offset: nat, counts: nat -> nat, junk: Junk)
    returns (ok: bool, reply: Data)
    requires dev.Valid() && dev.Pending() == [] && NoNewline(packet)
    requires forall k :: counts(k) > 0
    modifies dev`incompleteCommandBuffer, dev`incompleteCommandSize, dev`log, dev.ring, dev.ring.entry, dev.kernel, f
    ensures dev.Valid() && dev.Pending() == []
    ensures dev.log == if IsSeek(packet) then old(dev.log) else old(dev.log) + [packet + [NL]]
    ensures !IsSeek(packet) ==> ok && reply == From(Visible(dev.log), old(f.fPos))
    ensures !IsSeek(packet) && old(f.fPos) == 0 ==> EndsWith(reply, packet + [NL])
    ensures IsSeek(packet) ==>
              var r := LiteralSeek(Lengths(dev.log), index % 4294967296, offset % 4294967296);
              ok == r.Some? && reply == if ok then From(Visible(dev.log), r.value) else []
  {
    ReplyEndsWith(dev.log, packet + [NL], f.fPos);
    ok := Execute(dev, f, packet, index, offset, junk);
    reply := [];
    if ok {
      reply := Drain(dev, f, counts);
    }
  }

  // -------------------------------------------------------- seek and lookup

  /** A position names at most one command and offset. */
  lemma LocatedOnce(sizes: seq<nat>, p: nat, cmd: nat, off: nat, cmd': nat, off': nat)
    requires LocatedAt(sizes, p, cmd, off) && LocatedAt(sizes, p, cmd', off')
    ensures cmd == cmd' && off == off'
  {
    LocateUnique(InOrder(sizes), cmd, off, cmd', off');
  }

  lemma SlotOfPosition(slot: nat, out: nat, k: nat)
    requires slot < CAPACITY && out < CAPACITY && k < CAPACITY
    ensures (slot + CAPACITY - out) % CAPACITY == k <==> slot == (out + k) % CAPACITY
  {
  }

  /**
   A slot and an offset in it undo the seek over commands in order: they are the
   place for which that seek gives the position, and there is no other.
   */
  ghost predicate Undoes(sizes: seq<nat>, out: nat, p: nat, r: Option<(nat, nat)>) {
    forall cmd: nat, off: nat ::
      OrderedSeek(sizes, cmd, off) == Some(p) <==> cmd < CAPACITY && r == Some(((out + cmd) % CAPACITY, off))
  }

  /** The entry the lookup names is the command the position lies in. */
  lemma LookupLocates(log: seq<Data>, w: seq<Entry>, k: nat, off: nat)
    requires SizesOf(w) == Lengths(LastTen(log)) && k < |w| && off < w[k].size
    ensures OrderedSeek(Lengths(log), k, off) == Some(Before(w, k) + off)
  {
    var order := InOrder(Lengths(log));
    OrderOfLog(log);
    assert SizesOf(w)[k] == order[k];
    assert order[..k] == SizesOf(w)[..k];
  }

  lemma LocatedUndoes(sizes: seq<nat>, out: nat, p: nat, k: nat, r: Option<(nat, nat)>)
    requires out < CAPACITY && r.Some? && r.value.0 < CAPACITY
    requires k == (r.value.0 + CAPACITY - out) % CAPACITY && OrderedSeek(sizes, k, r.value.1) == Some(p)
    ensures Undoes(sizes, out, p, r)
  {
    forall cmd: nat, off: nat
      ensures OrderedSeek(sizes, cmd, off) == Some(p)
              <==> cmd < CAPACITY && r == Some(((out + cmd) % CAPACITY, off))
    {
      if cmd < CAPACITY {
        SlotOfPosition(r.value.0, out, cmd);
      }
      if OrderedSeek(sizes, cmd, off) == Some(p) {
        LocatedOnce(sizes, p, cmd, off, k, r.value.1);
      }
    }
  }

  lemma SomethingUndoes(log: seq<Data>, w: seq<Entry>, out: nat, p: nat, k: nat, r: Option<(nat, nat)>)
    requires SizesOf(w) == Lengths(LastTen(log)) && out < CAPACITY
    requires r.Some? && r.value.0 < CAPACITY && k == (r.value.0 + CAPACITY - out) % CAPACITY
    requires k < |w| && r.value.1 < w[k].size && p == Before(w, k) + r.value.1
    ensures Undoes(Lengths(log), out, p, r)
  {
    LookupLocates(log, w, k, r.value.1);
    LocatedUndoes(Lengths(log), out, p, k, r);
  }

  lemma NothingUndoes(log: seq<Data>, out: nat, p: nat)
    requires p >= |Visible(log)|
    ensures Undoes(Lengths(log), out, p, None)
  {
    forall cmd: nat, off: nat
      ensures OrderedSeek(Lengths(log), cmd, off) != Some(p)
    {
      OrderedSeekFinds(log, cmd, off);
    }
  }

  /** In every ring the lookup undoes the seek over commands in order. */
  method LookUp(dev: AesdDev, p: nat) returns (r: Option<(nat, nat)>)
    requires dev.Valid()
    ensures r.Some? <==> p < |Visible(dev.log)|
    ensures Undoes(Lengths(dev.log), dev.ring.outOffs, p, r)
  {
    r := dev.ring.FindEntryOffsetForFpos(p);
    dev.TotalIsVisible();
    if r.None? {
      NothingUndoes(dev.log, dev.ring.outOffs, p);
    } else {
      FoundUndoes(dev, p, r);
    }
  }

  lemma FoundUndoes(dev: AesdDev, p: nat, r: Option<(nat, nat)>)
    requires dev.Valid() && r.Some? && r.value.0 < CAPACITY
    requires var w, k := dev.ring.Contents(), dev.ring.Position(r.value.0);
             k < |w| && r.value.1 < w[k].size && Before(w, k) + r.value.1 == p
    ensures Undoes(Lengths(dev.log), dev.ring.outOffs, p, r)
  {
    dev.SizesAreLengths();
    SomethingUndoes(dev.log, dev.ring.Contents(), dev.ring.outOffs, p, dev.ring.Position(r.value.0), r);
  }

  /** Where the seek as coded is the one over commands in order. */
  lemma OrderedWhen(sizes: seq<nat>, cmd: nat, off: nat)
    ensures RotationInvariant(sizes) || OutOffs(|sizes|) == 0 ==>
              LiteralSeek(sizes, cmd, off) == OrderedSeek(sizes, cmd, off)
  {
    LiteralSeekExact(sizes);
    if OutOffs(|sizes|) == 0 {
      UnrotatedSeek(sizes);
    }
  }

  /**
   With slot 0 the oldest the lookup finds just what was asked for; with slot
   sizes that rotation does not change, the slot so many places from the oldest.
   */
  ghost predicate GivesBack(sizes: seq<nat>, out: nat, cmd: nat, off: nat, r: Option<(nat, nat)>) {
    && (out == 0 ==> r == Some((cmd, off)))
    && (RotationInvariant(sizes) ==> r == Some(((out + cmd) % CAPACITY, off)))
  }

  lemma UndoneGivesBack(sizes: seq<nat>, out: nat, p: nat, r: Option<(nat, nat)>, cmd: nat, off: nat)
    requires out == OutOffs(|sizes|) && Undoes(sizes, out, p, r) && LiteralSeek(sizes, cmd, off) == Some(p)
    ensures GivesBack(sizes, out, cmd, off, r)
  {
    OrderedWhen(sizes, cmd, off);
  }

  lemma SeekUndone(dev: AesdDev, p: nat, r: Option<(nat, nat)>, cmd: nat, off: nat)
    requires dev.Valid() && Undoes(Lengths(dev.log), dev.ring.outOffs, p, r)
    requires LiteralSeek(Lengths(dev.log), cmd, off) == Some(p)
    ensures GivesBack(Lengths(dev.log), dev.ring.outOffs, cmd, off, r)
  {
    assert |Lengths(dev.log)| == |SizesOf(dev.ring.history)|;
    UndoneGivesBack(Lengths(dev.log), dev.ring.outOffs, p, r, cmd, off);
  }

  /** A seek, and the lookup that the next read makes. */
  method SeekThenLookUp(dev: AesdDev, f: File, writeCmd: nat, writeCmdOffset: nat)
    returns (ok: bool, r: Option<(nat, nat)>)
    requires dev.Valid()
    modifies f
    ensures ok <==> LiteralSeek(Lengths(dev.log), writeCmd, writeCmdOffset).Some?
    ensures r.Some? <==> ok
    ensures ok ==> GivesBack(Lengths(dev.log), dev.ring.outOffs, writeCmd, writeCmdOffset, r)
  {
    ok := dev.AdjustFileOffset(f, writeCmd, writeCmdOffset);
    r := None;
    if ok {
      r := LookUp(dev, f.fPos);
      SeekUndone(dev, f.fPos, r, writeCmd, writeCmdOffset);
    }
  }
}
