/**
 The character device: line assembly on write, short reads, size, seek and
 cleanup, over the ring and over manually managed blocks. Each method is tied
 to the log of commands ever added and to the pending bytes.
 */
module Driver {
  import opened Lines
  import opened Ring
  import opened Ledger
  import opened Store
  import opened Coded
  import opened Positions

  class File {
    var fPos: nat

    constructor ()
      ensures fPos == 0
    {
      fPos := 0;
    }
  }

  lemma SizesAppend(h: seq<Entry>, log: seq<Data>, e: Entry, d: Data)
    requires SizesOf(h) == Lengths(log) && e.size == |d|
    ensures SizesOf(h + [e]) == Lengths(log + [d])
  {
    forall k | 0 <= k < |h|
      ensures h[k].size == |log[k]|
    {
      assert SizesOf(h)[k] == Lengths(log)[k];
    }
  }

  lemma SliceShorter(v: Data, p: nat, b: Data, off: nat, n: nat)
    requires off + n <= |b| && p + |b| - off <= |v|
    requires v[p..p + |b| - off] == b[off..]
    ensures v[p..p + n] == b[off..off + n]
  {
    assert v[p..p + n] == v[p..p + |b| - off][..n];
    assert b[off..off + n] == b[off..][..n];
  }

  /** The block holds, from `off` on, the `n` bytes that stand at `p` in the contents. */
  ghost predicate Holds(live: map<Ptr, Data>, block: Ptr, off: nat, v: Data, p: nat, n: nat) {
    && block != NULL && block in live
    && off + n <= |live[block]| && StandsAt(live[block][off..off + n], v, p)
  }

  /** Part of an entry, as bytes of the contents. */
  lemma EntryPart(c: seq<Data>, k: nat, off: nat, p: nat, n: nat)
    requires k < |c| && off < |c[k]| && off + n <= |c[k]|
    requires p == Sum(Lengths(c)[..k]) + off
    ensures EntryRest(c, p) == |c[k]| - off
    ensures p + n <= |Flatten(c)| && Flatten(c)[p..p + n] == c[k][off..off + n]
  {
    EntryAt(c, k, off);
    SliceShorter(Flatten(c), p, c[k], off, n);
  }

  lemma EntryStretch(live: map<Ptr, Data>, w: seq<Entry>, c: seq<Data>, pend: Ptr, k: nat, off: nat, p: nat, n: nat)
    requires Owns(live, w, c, pend) && NULL !in live && SizesOf(w) == Lengths(c)
    requires k < |w| && off < w[k].size && off + n <= w[k].size && p == Before(w, k) + off
    ensures EntryRest(c, p) == w[k].size - off
    ensures Holds(live, w[k].buffptr, off, Flatten(c), p, n)
  {
    assert SizesOf(w)[k] == Lengths(c)[k];
    OwnsEntry(live, w, c, pend, k);
    EntryPart(c, k, off, p, n);
  }

  class AesdDev {
    const ring: CircularBuffer
    const kernel: Kernel
    var incompleteCommandBuffer: Ptr
    var incompleteCommandSize: nat

    ghost var log: seq<Data>

    ghost predicate Valid()
      reads this, ring, ring.entry, kernel
    {
      && ring.Valid()
      && kernel.Valid()
      && SizesOf(ring.history) == Lengths(log)
      && Owns(kernel.live, LastTen(ring.history), LastTen(log), incompleteCommandBuffer)
      && incompleteCommandSize == |Pending()|
    }

    function Pending(): Data
      reads this, kernel
    {
      if incompleteCommandBuffer in kernel.live then kernel.live[incompleteCommandBuffer] else []
    }

    ghost function View(): Device
      reads this, kernel
    {
      Device(log, Pending())
    }

    constructor ()
      ensures Valid() && View() == FRESH && fresh(ring) && fresh(ring.entry) && fresh(kernel)
    {
      ring := new CircularBuffer();
      kernel := new Kernel();
      incompleteCommandBuffer, incompleteCommandSize := NULL, 0;
      log := [];
    }

    // ---------------------------------------------------------------- write

    /** The pending bytes and the new ones end up in one fresh block. */
    method Stage(buf: Data)
      requires Valid()
      modifies this`incompleteCommandBuffer, this`incompleteCommandSize, kernel
      ensures Valid() && incompleteCommandBuffer != NULL
      ensures Pending() == old(Pending()) + buf
    {
      ghost var live := kernel.live;
      OwnsPendingLive(live, LastTen(ring.history), LastTen(log), incompleteCommandBuffer);
      var totalSize := incompleteCommandSize + |buf|;
      var toWrite := kernel.Extend(incompleteCommandBuffer, incompleteCommandSize, buf);
      OwnsPending(live, LastTen(ring.history), LastTen(log), incompleteCommandBuffer,
                  toWrite, kernel.live[toWrite]);
      incompleteCommandBuffer := toWrite;
      incompleteCommandSize := totalSize;
    }

    /** Copies `size` bytes from `start` into a new entry and frees the entry it evicts. */
    method AddCommand(start: nat, size: nat, junk: nat -> byte, ghost all: Data)
      requires Valid() && incompleteCommandBuffer != NULL && Pending() == all
      modifies this`log, ring, ring.entry, kernel
      ensures Valid() && Pending() == all
      ensures log == old(log) + [Slice(all, start, size, junk)]
    {
      ghost var command := Slice(all, start, size, junk);
      ghost var live := kernel.live;
      OwnsPendingLive(live, LastTen(ring.history), LastTen(log), incompleteCommandBuffer);
      var buffptr := kernel.CopyCommand(incompleteCommandBuffer, start, size, junk);
      var toAdd := Entry(buffptr, size);
      OwnsAdd(live, ring.history, log, incompleteCommandBuffer, toAdd, command);
      SizesAppend(ring.history, log, toAdd, command);
      var toFree := ring.AddEntry(toAdd);
      if toFree != NULL {
        kernel.Kfree(toFree);
      }
      log := log + [command];
    }

    method DropPending()
      requires Valid() && incompleteCommandBuffer != NULL
      modifies this`incompleteCommandBuffer, this`incompleteCommandSize, kernel
      ensures Valid() && incompleteCommandBuffer == NULL && Pending() == []
      ensures kernel.issued == old(kernel.issued)
    {
      ghost var w, c := LastTen(ring.history), LastTen(log);
      OwnsPendingLive(kernel.live, w, c, incompleteCommandBuffer);
      OwnsPending(kernel.live, w, c, incompleteCommandBuffer, NULL, []);
      kernel.Kfree(incompleteCommandBuffer);
      incompleteCommandBuffer := NULL;
      incompleteCommandSize := 0;
      OwnsPendingLive(kernel.live, w, c, NULL);
    }

    /** Keeps what follows `cmdStart` as the new pending block, or none if nothing does. */
    method KeepRest(cmdStart: nat)
      requires Valid() && incompleteCommandBuffer != NULL && cmdStart <= |Pending()|
      modifies this`incompleteCommandBuffer, this`incompleteCommandSize, kernel
      ensures Valid()
      ensures Pending() == old(Pending())[cmdStart..]
      ensures incompleteCommandBuffer == NULL <==> Pending() == []
    {
      if cmdStart < incompleteCommandSize {
        var remainingSize := incompleteCommandSize - cmdStart;
        ghost var live, w, c := kernel.live, LastTen(ring.history), LastTen(log);
        ghost var rest := Pending()[cmdStart..];
        OwnsPendingLive(live, w, c, incompleteCommandBuffer);
        var remaining := kernel.MoveRest(incompleteCommandBuffer, cmdStart);
        OwnsPending(live, w, c, incompleteCommandBuffer, remaining, rest);
        incompleteCommandBuffer := remaining;
        incompleteCommandSize := remainingSize;
      } else {
        DropPending();
      }
    }

    /** One round of the loop: adds the command that ends at `cmdBreak` and moves past it. */
    method AddNext(measure: Measure, cmdStart: nat, readSize: nat, cmdBreak: nat, junk: Junk,
                   ghost all: Data)
      returns (nextStart: nat, nextSize: nat)
      requires Valid() && incompleteCommandBuffer != NULL && Pending() == all
      requires cmdStart + readSize <= |all| && Memchr(all, cmdStart, readSize) == Some(cmdBreak)
      modifies this`log, ring, ring.entry, kernel
      ensures Valid() && Pending() == all
      ensures nextStart + nextSize <= |all| && nextSize < readSize
      ensures var size := CommandSize(measure, cmdStart, cmdBreak);
              && nextStart == cmdBreak + 1 && nextSize == Shrink(readSize, size)
              && log == old(log) + [Slice(all, cmdStart, size, junk(cmdStart))]
      ensures |log[|log| - 1]| == if measure == FromBuffer then cmdBreak + 1 else cmdBreak + 1 - cmdStart
    {
      var subcmdSize := CommandSize(measure, cmdStart, cmdBreak);
      AddCommand(cmdStart, subcmdSize, junk(cmdStart), all);
      nextStart := cmdBreak + 1;
      nextSize := Shrink(readSize, subcmdSize);
    }

    /** The loop over the newlines of the staged buffer; the code is `FromBuffer`. */
    method AddLines(measure: Measure, junk: Junk) returns (cmdStart: nat)
      requires Valid() && incompleteCommandBuffer != NULL
      modifies this`log, ring, ring.entry, kernel
      ensures Valid() && Pending() == old(Pending())
      ensures log == old(log) + Loop(measure, Pending(), 0, |Pending()|, junk).0
      ensures cmdStart == Loop(measure, Pending(), 0, |Pending()|, junk).1
    {
      cmdStart := 0;
      var readSize: nat := incompleteCommandSize;
      ghost var all, was, done := Pending(), log, [];
      var cmdBreak := Memchr(Pending(), cmdStart, readSize);
      while cmdBreak.Some?
        invariant Valid() && Pending() == all && log == was + done
        invariant cmdStart + readSize <= |all| && cmdBreak == Memchr(all, cmdStart, readSize)
        invariant Reaches(measure, all, 0, |all|, done, cmdStart, readSize, junk)
        decreases readSize
      {
        var nextStart, nextSize := AddNext(measure, cmdStart, readSize, cmdBreak.value, junk, all);
        done := ReachesNext(measure, all, was, done, cmdStart, readSize, cmdBreak.value, nextStart, nextSize, junk);
        cmdStart, readSize := nextStart, nextSize;
        cmdBreak := Memchr(Pending(), cmdStart, readSize);
      }
      ReachesEnd(measure, all, 0, |all|, done, cmdStart, readSize, junk);
    }

    /** `aesd_write` as coded. */
    method Write(buf: Data, junk: Junk) returns (retval: nat)
      requires Valid()
      modifies this`incompleteCommandBuffer, this`incompleteCommandSize, this`log, ring, ring.entry, kernel
      ensures Valid() && retval == |buf|
      ensures View() == LiteralWrite(old(View()), buf, junk)
      ensures CodedForm(old(View()), buf, View(), junk)
      ensures View() == ReferenceWrite(old(View()), buf) <==> Newlines(old(Pending()) + buf) <= 1
      ensures incompleteCommandBuffer == NULL <==> Pending() == []
    {
      LiteralWriteExact(View(), buf, junk);
      CodedHolds(View(), buf, junk);
      Stage(buf);
      var cmdStart := AddLines(FromBuffer, junk);
      KeepRest(cmdStart);
      retval := |buf|;
    }

    // --------------------------------------------------- the write as meant

    /** Not the code, but what it promises: the size of a command measured from `cmd_start`. */
    method WriteIntended(buf: Data, junk: Junk) returns (retval: nat)
      requires Valid()
      modifies this`incompleteCommandBuffer, this`incompleteCommandSize, this`log, ring, ring.entry, kernel
      ensures Valid() && retval == |buf|
      ensures View() == ReferenceWrite(old(View()), buf)
      ensures incompleteCommandBuffer == NULL <==> Pending() == []
    {
      Stage(buf);
      IntendedLoopSplits(Pending(), junk);
      var cmdStart := AddLines(FromCommand, junk);
      KeepRest(cmdStart);
      retval := |buf|;
    }

    // ----------------------------------------------------- read, size, seek

    /** The bytes of the contents as the ring counts them. */
    lemma TotalIsVisible()
      requires Valid()
      ensures Total(LastTen(ring.history)) == |Visible(log)|
    {
      SizesAreLengths();
      FlattenSum(LastTen(log));
    }

    lemma SizesAreLengths()
      requires Valid()
      ensures SizesOf(LastTen(ring.history)) == Lengths(LastTen(log))
    {
      SizesOfSlots(ring.history);
      LengthsLastTen(log);
    }

    /** What a read takes from the entry that the lookup found. */
    lemma Found(w: seq<Entry>, k: nat, off: nat, p: nat, count: nat, n: nat) returns (bytes: Data)
      requires Valid() && w == ring.Contents()
      requires k < |w| && off < w[k].size && p == Before(w, k) + off
      requires n == if count < w[k].size - off then count else w[k].size - off
      ensures |bytes| == n == ReadLength(log, p, count)
      ensures w[k].buffptr != NULL && w[k].buffptr in kernel.live && off + n <= |kernel.live[w[k].buffptr]|
      ensures kernel.live[w[k].buffptr][off..off + n] == bytes
      ensures StandsAt(bytes, Visible(log), p)
      ensures StandsAt(bytes, Flatten(log), Evicted(log) + p)
    {
      SizesAreLengths();
      EntryStretch(kernel.live, w, LastTen(log), incompleteCommandBuffer, k, off, p, n);
      bytes := kernel.live[w[k].buffptr][off..off + n];
      VisibleInHistory(log, bytes, p);
    }

    /** The part of a read behind the lookup, for the entry in `slot`. */
    method CopyOut(slot: nat, offset: nat, count: nat, ghost p: nat) returns (buf: Data)
      requires Valid() && slot < CAPACITY && offset < ring.entry[slot].size && count > 0
      requires ring.Position(slot) < |ring.Contents()| && ring.entry[slot] == ring.Contents()[ring.Position(slot)]
      requires p == Before(ring.Contents(), ring.Position(slot)) + offset
      ensures ReadsAs(log, p, count, buf)
    {
      var entry := ring.entry[slot];
      var readSize := if count < entry.size - offset then count else entry.size - offset;
      ghost var w, k := ring.Contents(), ring.Position(slot);
      ghost var bytes := Found(w, k, offset, p, count, readSize);
      if entry.buffptr == NULL {
        return [];
      }
      buf := kernel.live[entry.buffptr][offset..offset + readSize];
    }

    method Read(f: File, count: nat) returns (buf: Data)
      requires Valid()
      modifies f
      ensures ReadsAs(log, old(f.fPos), count, buf)
      ensures f.fPos == old(f.fPos) + |buf|
    {
      if count == 0 {
        ReadsNothing(log, f.fPos, count);
        return [];
      }
      TotalIsVisible();
      var readEntry := ring.FindEntryOffsetForFpos(f.fPos);
      if readEntry.None? {
        ReadsNothing(log, f.fPos, count);
        return [];
      }
      buf := CopyOut(readEntry.value.0, readEntry.value.1, count, f.fPos);
      f.fPos := f.fPos + |buf|;
    }

    /** `aesd_size`: the slots are summed in physical order. */
    method Size() returns (bytes: nat)
      requires Valid()
      ensures bytes == |Visible(log)|
    {
      bytes := 0;
      var index := 0;
      ghost var slots := SizesOf(ring.entry[..]);
      while index < CAPACITY
        invariant index <= CAPACITY
        invariant bytes == Sum(slots[..index])
      {
        SumPrefix(slots, index);
        bytes := bytes + ring.entry[index].size;
        index := index + 1;
      }
      assert slots[..CAPACITY] == slots;
      SizesOfSlots(ring.history);
      PhysicalSum(SizesOf(ring.history));
      TotalIsVisible();
    }

    /** `aesd_adjust_file_offset` as coded; false is `-EINVAL`. */
    method AdjustFileOffset(f: File, writeCmd: nat, writeCmdOffset: nat) returns (ok: bool)
      requires Valid()
      modifies f
      ensures ok <==> LiteralSeek(Lengths(log), writeCmd, writeCmdOffset).Some?
      ensures f.fPos == if ok then LiteralSeek(Lengths(log), writeCmd, writeCmdOffset).value else old(f.fPos)
      ensures ok ==> f.fPos < |Visible(log)|
    {
      SizesOfSlots(ring.history);
      TotalIsVisible();
      LiteralSeekInside(Lengths(log), writeCmd, writeCmdOffset);
      ghost var slots := SizesOf(ring.entry[..]);
      if !(writeCmd < CAPACITY) {
        return false;
      }
      if !(writeCmdOffset < ring.entry[writeCmd].size) {
        return false;
      }
      var calculatedOffset := 0;
      var index := 0;
      while index < CAPACITY
        invariant index <= writeCmd
        invariant calculatedOffset == Sum(slots[..index])
      {
        if index < writeCmd {
          SumPrefix(slots, index);
          calculatedOffset := calculatedOffset + ring.entry[index].size;
        } else if index == writeCmd {
          calculatedOffset := calculatedOffset + writeCmdOffset;
          break;
        }
        index := index + 1;
      }
      f.fPos := calculatedOffset;
      return true;
    }

    // -------------------------------------------------------------- cleanup

    /** `aesd_cleanup_module`: nothing stays live. */
    method Cleanup()
      requires Valid()
      modifies this`incompleteCommandBuffer, this`incompleteCommandSize, ring.entry, kernel
      ensures kernel.Valid() && kernel.live == map[] && kernel.freed == kernel.issued == old(kernel.issued)
    {
      if incompleteCommandBuffer != NULL {
        DropPending();
      }
      CoversSlots(kernel.live, ring.history, LastTen(log));
      FreeSlots();
    }

    method FreeSlots()
      requires kernel.Valid() && ring.entry.Length == CAPACITY
      requires Covers(kernel.live.Keys, ring.entry[..])
      modifies ring.entry, kernel
      ensures kernel.Valid() && kernel.live == map[] && kernel.issued == old(kernel.issued)
      ensures forall k :: 0 <= k < CAPACITY ==> ring.entry[k] == old(ring.entry[k]).(buffptr := NULL)
    {
      ghost var slots := ring.entry[..];
      var index := 0;
      while index < CAPACITY
        invariant index <= CAPACITY
        invariant kernel.Valid() && kernel.issued == old(kernel.issued)
        invariant Covers(kernel.live.Keys, slots[index..])
        invariant forall k :: index <= k < CAPACITY ==> ring.entry[k] == slots[k]
        invariant forall k :: 0 <= k < index ==> ring.entry[k] == slots[k].(buffptr := NULL)
      {
        assert slots[index..][1..] == slots[index + 1..];
        if ring.entry[index].buffptr != NULL {
          kernel.Kfree(ring.entry[index].buffptr);
          ring.entry[index] := ring.entry[index].(buffptr := NULL);
        }
        index := index + 1;
      }
      assert kernel.live == map[];
    }
  }
}
