/**
 Kernel memory: blocks handed out by `kmalloc` and given back by `kfree`. A
 block may be freed only while it is live, so no block is ever freed twice.
 */
module Ledger {
  import opened Lines
  import opened Ring

  /** `memcpy` out of a block; bytes past its end are whatever memory holds there. */
  function Slice(block: Data, start: nat, n: nat, junk: nat -> byte): (r: Data)
    ensures |r| == n
  {
    seq(n, i requires 0 <= i < n => if start + i < |block| then block[start + i] else junk(start + i))
  }

  lemma SliceInside(block: Data, start: nat, n: nat, junk: nat -> byte)
    requires start + n <= |block|
    ensures Slice(block, start, n, junk) == block[start..start + n]
  {
  }

  class Kernel {
    var live: map<Ptr, Data>
    var next: Ptr

    ghost var issued: set<Ptr>
    ghost var freed: set<Ptr>

    /** Every block ever handed out is either live or was freed, never both. */
    ghost predicate Valid()
      reads this
    {
      && live.Keys !! freed
      && issued == live.Keys + freed
      && NULL < next
      && forall p :: p in issued ==> NULL < p < next
    }

    constructor ()
      ensures Valid() && live == map[] && issued == {}
    {
      live, next := map[], NULL + 1;
      issued, freed := {}, {};
    }

    method Kmalloc(n: nat) returns (p: Ptr)
      requires Valid()
      modifies this
      ensures Valid() && p != NULL && p !in old(issued)
      ensures p in live && |live[p]| == n && live == old(live)[p := live[p]]
      ensures issued == old(issued) + {p} && freed == old(freed)
    {
      p := next;
      live := live[p := seq(n, _ => 0)];
      issued := issued + {p};
      next := next + 1;
    }

    method Memcpy(dst: Ptr, at: nat, src: Data)
      requires Valid() && dst in live && at + |src| <= |live[dst]|
      modifies this`live
      ensures Valid()
      ensures live == old(live)[dst := old(live)[dst][..at] + src + old(live)[dst][at + |src|..]]
    {
      live := live[dst := live[dst][..at] + src + live[dst][at + |src|..]];
    }

    method Kfree(p: Ptr)
      requires Valid() && p in live
      modifies this
      ensures Valid() && live == old(live) - {p}
      ensures issued == old(issued) && freed == old(freed) + {p}
    {
      live := live - {p};
      freed := freed + {p};
    }

    /** `kmalloc` and a `memcpy` that fills the block. */
    method Duplicate(src: Data) returns (p: Ptr)
      requires Valid()
      modifies this
      ensures Valid() && p != NULL && p !in old(live)
      ensures live == old(live)[p := src]
    {
      p := Kmalloc(|src|);
      assert live[p][..0] + src + live[p][|src|..] == src;
      Memcpy(p, 0, src);
    }

    /** A command is copied to a scratch block and from there to the entry's own block. */
    method CopyCommand(block: Ptr, start: nat, size: nat, junk: nat -> byte) returns (buffptr: Ptr)
      requires Valid() && block in live
      modifies this
      ensures Valid() && buffptr != NULL && buffptr !in old(live)
      ensures live == old(live)[buffptr := Slice(old(live)[block], start, size, junk)]
    {
      var subcmd := Duplicate(Slice(live[block], start, size, junk));
      buffptr := Duplicate(live[subcmd]);
      Kfree(subcmd);
    }

    /** What a block holds from `start` on, in a block of its own; the old block is freed. */
    method MoveRest(block: Ptr, start: nat) returns (remaining: Ptr)
      requires Valid() && block in live && start <= |live[block]|
      modifies this
      ensures Valid() && remaining != NULL && remaining !in old(live)
      ensures live == (old(live) - {block})[remaining := old(live)[block][start..]]
    {
      remaining := Duplicate(live[block][start..]);
      Kfree(block);
    }

    /** The bytes of a block, which is freed, and `buf` behind them, in one fresh block. */
    method Extend(block: Ptr, size: nat, buf: Data) returns (toWrite: Ptr)
      requires Valid() && (block == NULL ==> size == 0)
      requires block != NULL ==> block in live && |live[block]| == size
      modifies this
      ensures Valid() && toWrite != NULL && toWrite !in old(live)
      ensures var head := if block == NULL then [] else old(live)[block];
              live == (old(live) - PendingBlock(block))[toWrite := head + buf]
    {
      ghost var head := if block == NULL then [] else live[block];
      toWrite := Kmalloc(size + |buf|);
      if block != NULL {
        Memcpy(toWrite, 0, live[block]);
        Kfree(block);
      }
      assert live[toWrite][..size] == head;
      assert head + buf + live[toWrite][size + |buf|..] == head + buf;
      Memcpy(toWrite, size, buf);
    }
  }

  // -------------------------------------------------------------- ownership

  function PendingBlock(pend: Ptr): set<Ptr> {
    if pend == NULL then {} else {pend}
  }

  /**
   Memory is exactly the blocks of the ring entries `w`, each holding its
   command, and the pending block if there is one, no two of them the same.
   */
  ghost predicate Owns(live: map<Ptr, Data>, w: seq<Entry>, c: seq<Data>, pend: Ptr)
    decreases |w|
  {
    if w == [] then
      c == [] && live.Keys == PendingBlock(pend)
    else
      && c != []
      && w[0].buffptr != NULL && w[0].buffptr != pend
      && w[0].buffptr in live && live[w[0].buffptr] == c[0]
      && Owns(live - {w[0].buffptr}, w[1..], c[1..], pend)
  }

  function Blocks(w: seq<Entry>): set<Ptr> {
    if w == [] then {} else {w[0].buffptr} + Blocks(w[1..])
  }

  /** The ledger read off `Owns`: which blocks are live, that they differ, and what they hold. */
  lemma {:induction false} OwnsExactly(live: map<Ptr, Data>, w: seq<Entry>, c: seq<Data>, pend: Ptr)
    requires Owns(live, w, c, pend)
    ensures live.Keys == Blocks(w) + PendingBlock(pend)
    ensures |Blocks(w)| == |w| == |c|
    ensures pend !in Blocks(w) && NULL !in Blocks(w)
    decreases |w|
  {
    if w != [] {
      OwnsExactly(live - {w[0].buffptr}, w[1..], c[1..], pend);
      assert w[0].buffptr !in Blocks(w[1..]);
    }
  }

  lemma {:induction false} OwnsEntry(live: map<Ptr, Data>, w: seq<Entry>, c: seq<Data>, pend: Ptr, k: nat)
    requires Owns(live, w, c, pend) && k < |w|
    ensures |c| == |w| && w[k].buffptr in live && live[w[k].buffptr] == c[k] && w[k].buffptr != pend
    decreases |w|
  {
    OwnsExactly(live, w, c, pend);
    if k > 0 {
      OwnsEntry(live - {w[0].buffptr}, w[1..], c[1..], pend, k - 1);
    }
  }

  lemma {:induction false} OwnsPendingLive(live: map<Ptr, Data>, w: seq<Entry>, c: seq<Data>, pend: Ptr)
    requires Owns(live, w, c, pend)
    ensures pend != NULL <==> pend in live
    decreases |w|
  {
    if w != [] {
      OwnsPendingLive(live - {w[0].buffptr}, w[1..], c[1..], pend);
    }
  }

  /** Swapping the pending block for another one, or for none. */
  lemma {:induction false} OwnsPending(live: map<Ptr, Data>, w: seq<Entry>, c: seq<Data>, pend: Ptr,
                                       p: Ptr, d: Data)
    requires Owns(live, w, c, pend)
    ensures Owns(live - PendingBlock(pend), w, c, NULL)
    ensures p != NULL && p !in live ==> Owns((live - PendingBlock(pend))[p := d], w, c, p)
    decreases |w|
  {
    if w != [] {
      var b := w[0].buffptr;
      OwnsPending(live - {b}, w[1..], c[1..], pend, p, d);
      assert (live - {b}) - PendingBlock(pend) == (live - PendingBlock(pend)) - {b};
      if p != NULL && p !in live {
        assert ((live - {b}) - PendingBlock(pend))[p := d] == (live - PendingBlock(pend))[p := d] - {b};
      }
    }
  }

  lemma {:induction false} OwnsAppend(live: map<Ptr, Data>, w: seq<Entry>, c: seq<Data>, pend: Ptr,
                                      e: Entry, d: Data)
    requires Owns(live, w, c, pend) && e.buffptr != NULL && e.buffptr !in live && e.buffptr != pend
    ensures Owns(live[e.buffptr := d], w + [e], c + [d], pend)
    decreases |w|
  {
    if w == [] {
      assert live[e.buffptr := d] - {e.buffptr} == live;
    } else {
      var b := w[0].buffptr;
      OwnsAppend(live - {b}, w[1..], c[1..], pend, e, d);
      assert live[e.buffptr := d] - {b} == (live - {b})[e.buffptr := d];
      assert (w + [e])[1..] == w[1..] + [e] && (c + [d])[1..] == c[1..] + [d];
    }
  }

  lemma LastTenAppend<T>(h: seq<T>, e: T)
    ensures LastTen(h + [e]) == if |h| < CAPACITY then LastTen(h) + [e] else (LastTen(h) + [e])[1..]
  {
  }

  /** What adding one command does to the ledger, eviction included. */
  lemma OwnsAdd(live: map<Ptr, Data>, h: seq<Entry>, log: seq<Data>, pend: Ptr, e: Entry, d: Data)
    requires |h| == |log| && Owns(live, LastTen(h), LastTen(log), pend)
    requires e.buffptr != NULL && e.buffptr !in live && e.buffptr != pend
    ensures |h| < CAPACITY ==> Owns(live[e.buffptr := d], LastTen(h + [e]), LastTen(log + [d]), pend)
    ensures |h| >= CAPACITY ==>
              var gone := LastTen(h)[0].buffptr;
              && gone != NULL && gone in live && gone != pend
              && Owns(live[e.buffptr := d] - {gone}, LastTen(h + [e]), LastTen(log + [d]), pend)
  {
    OwnsAppend(live, LastTen(h), LastTen(log), pend, e, d);
    LastTenAppend(h, e);
    LastTenAppend(log, d);
  }

  // ---------------------------------------------------------------- cleanup

  /** The non-NULL pointers of the slots are exactly the given blocks, each once, in any order. */
  ghost predicate Covers(blocks: set<Ptr>, slots: seq<Entry>) {
    if slots == [] then blocks == {}
    else if slots[0].buffptr == NULL then Covers(blocks, slots[1..])
    else slots[0].buffptr in blocks && Covers(blocks - {slots[0].buffptr}, slots[1..])
  }

  lemma {:induction false} CoversJoin(x: set<Ptr>, a: seq<Entry>, y: set<Ptr>, b: seq<Entry>)
    requires Covers(x, a) && Covers(y, b) && x !! y
    ensures Covers(x + y, a + b)
    decreases |a|
  {
    if a == [] {
      assert a + b == b && x + y == y;
    } else {
      var p := a[0].buffptr;
      assert (a + b)[1..] == a[1..] + b;
      if p == NULL {
        CoversJoin(x, a[1..], y, b);
      } else {
        CoversJoin(x - {p}, a[1..], y, b);
        assert (x - {p}) + y == (x + y) - {p};
      }
    }
  }

  lemma {:induction false} CoversParts(z: set<Ptr>, a: seq<Entry>, b: seq<Entry>) returns (x: set<Ptr>, y: set<Ptr>)
    requires Covers(z, a + b)
    ensures Covers(x, a) && Covers(y, b) && x !! y && x + y == z
    decreases |a|
  {
    if a == [] {
      assert a + b == b;
      x, y := {}, z;
    } else {
      var p := a[0].buffptr;
      assert (a + b)[1..] == a[1..] + b;
      if p == NULL {
        x, y := CoversParts(z, a[1..], b);
      } else {
        x, y := CoversParts(z - {p}, a[1..], b);
        assert (x + {p}) - {p} == x;
        x := x + {p};
      }
    }
  }

  lemma CoversRotated(z: set<Ptr>, a: seq<Entry>, b: seq<Entry>)
    requires Covers(z, a + b)
    ensures Covers(z, b + a)
  {
    var x, y := CoversParts(z, a, b);
    CoversJoin(y, b, x, a);
    assert y + x == z;
  }

  lemma {:induction false} CoversOwned(live: map<Ptr, Data>, w: seq<Entry>, c: seq<Data>)
    requires Owns(live, w, c, NULL)
    ensures Covers(live.Keys, w)
    decreases |w|
  {
    if w != [] {
      CoversOwned(live - {w[0].buffptr}, w[1..], c[1..]);
      assert (live - {w[0].buffptr}).Keys == live.Keys - {w[0].buffptr};
    }
  }

  lemma {:induction false} CoversNothing(n: nat)
    ensures Covers({}, Pad(n, EMPTY))
  {
    if n > 0 {
      assert Pad(n, EMPTY)[1..] == Pad(n - 1, EMPTY);
      CoversNothing(n - 1);
    }
  }

  /** However the ring is rotated, its slots point to exactly the live blocks once nothing is pending. */
  lemma CoversSlots(live: map<Ptr, Data>, h: seq<Entry>, c: seq<Data>)
    requires Owns(live, LastTen(h), c, NULL)
    ensures Covers(live.Keys, Slots(h, EMPTY))
  {
    var slots, out := Slots(h, EMPTY), OutOffs(|h|);
    CoversOwned(live, LastTen(h), c);
    CoversNothing(CAPACITY - |LastTen(h)|);
    CoversJoin(live.Keys, LastTen(h), {}, Pad(CAPACITY - |LastTen(h)|, EMPTY));
    assert live.Keys + {} == live.Keys;
    Rotated(h, EMPTY);
    CoversRotated(live.Keys, slots[out..], slots[..out]);
    assert slots[..out] + slots[out..] == slots;
  }
}
