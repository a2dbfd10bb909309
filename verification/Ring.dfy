/**
 The ten-slot circular buffer. `Slots(h)` are its slots once the entries
 `h` have been added, oldest first; the class is the code, and its invariant
 ties the mutable fields to the history of entries added.
 */
module Ring {
  import opened Lines

  const CAPACITY: nat := 10

  type Ptr = nat

  const NULL: Ptr := 0

  datatype Entry = Entry(buffptr: Ptr, size: nat)

  const EMPTY := Entry(NULL, 0)

  // ---------------------------------------------------------------- history

  function LastTen<T>(h: seq<T>): seq<T> {
    if |h| <= CAPACITY then h else h[|h| - CAPACITY..]
  }

  /** The position in a history of length `n` of the newest item kept in slot `i`. */
  function NewestAt(n: nat, i: nat): (j: nat)
    requires i < CAPACITY && i < n
    ensures j < n <= j + CAPACITY && j % CAPACITY == i
  {
    n - 1 - (n - 1 - i) % CAPACITY
  }

  function OutOffs(n: nat): nat {
    if n >= CAPACITY then n % CAPACITY else 0
  }

  function Slot<T>(h: seq<T>, zero: T, i: nat): T
    requires i < CAPACITY
  {
    if i < |h| then h[NewestAt(|h|, i)] else zero
  }

  function Pad<T>(n: nat, zero: T): (r: seq<T>)
    ensures |r| == n && forall k :: 0 <= k < n ==> r[k] == zero
  {
    seq(n, _ => zero)
  }

  /** The slots after the items of `h` were stored one by one, each over the oldest slot. */
  function Slots<T>(h: seq<T>, zero: T): (r: seq<T>)
    ensures |r| == CAPACITY
  {
    if h == [] then Pad(CAPACITY, zero)
    else Slots(h[..|h| - 1], zero)[(|h| - 1) % CAPACITY := h[|h| - 1]]
  }

  lemma SlotsAppend<T>(h: seq<T>, zero: T, e: T)
    ensures Slots(h + [e], zero) == Slots(h, zero)[|h| % CAPACITY := e]
  {
    assert (h + [e])[..|h|] == h;
  }

  /** Each slot keeps the newest item of its residue class, whatever came before. */
  lemma {:induction false} SlotsClosedForm<T>(h: seq<T>, zero: T, i: nat)
    requires i < CAPACITY
    ensures Slots(h, zero)[i] == Slot(h, zero, i)
  {
    if h != [] {
      var older := h[..|h| - 1];
      SlotsClosedForm(older, zero, i);
      SlotAppend(older, zero, h[|h| - 1], i);
      assert h == older + [h[|h| - 1]];
    }
  }

  /** The two offsets and the flag step as the code steps them. */
  lemma OffsetsAppend(n: nat)
    ensures (n % CAPACITY + 1) % CAPACITY == (n + 1) % CAPACITY
    ensures (n % CAPACITY + 0) % CAPACITY == n % CAPACITY
    ensures n >= CAPACITY ==> OutOffs(n + 1) == (OutOffs(n) + 1) % CAPACITY
    ensures n < CAPACITY ==> (n + 1 >= CAPACITY <==> (n + 1) % CAPACITY == OutOffs(n))
    ensures n < CAPACITY ==> OutOffs(n + 1) == 0
  {
  }

  lemma SlotAppend<T>(h: seq<T>, zero: T, e: T, i: nat)
    requires i < CAPACITY
    ensures Slot(h + [e], zero, i) == if i == |h| % CAPACITY then e else Slot(h, zero, i)
  {
    var n := |h|;
    if i < n + 1 {
      var j := NewestAt(n + 1, i);
      if i == n % CAPACITY {
        SameResidue(n, j);
      } else {
        assert j < n;
        SameResidue(NewestAt(n, i), j);
      }
    }
  }

  lemma SameResidue(a: nat, b: nat)
    requires a % CAPACITY == b % CAPACITY
    requires a < b + CAPACITY && b < a + CAPACITY
    ensures a == b
  {
  }

  /** Walking the slots from the output offset visits the last ten items, oldest first. */
  lemma LogicalOrder<T>(h: seq<T>, zero: T, k: nat, slot: nat)
    requires k < CAPACITY && slot == (OutOffs(|h|) + k) % CAPACITY
    ensures Slots(h, zero)[slot] == if k < |LastTen(h)| then LastTen(h)[k] else zero
  {
    SlotsClosedForm(h, zero, slot);
    SlotOrder(h, zero, k);
  }

  lemma SlotOrder<T>(h: seq<T>, zero: T, k: nat)
    requires k < CAPACITY
    ensures Slot(h, zero, (OutOffs(|h|) + k) % CAPACITY) == if k < |LastTen(h)| then LastTen(h)[k] else zero
  {
    NewestAtOffset(|h|, k);
  }

  lemma NewestAtOffset(n: nat, k: nat)
    requires k < CAPACITY
    ensures n >= CAPACITY ==> NewestAt(n, (OutOffs(n) + k) % CAPACITY) == n - CAPACITY + k
    ensures n < CAPACITY ==> (OutOffs(n) + k) % CAPACITY == k
    ensures k < n < CAPACITY ==> NewestAt(n, k) == k
  {
    if n >= CAPACITY {
      assert (n - CAPACITY + k) % CAPACITY == (OutOffs(n) + k) % CAPACITY;
      SameResidue(NewestAt(n, (OutOffs(n) + k) % CAPACITY), n - CAPACITY + k);
    }
  }

  /** Rotating the slots by the output offset gives the logical contents, padded with unused slots. */
  lemma Rotated<T>(h: seq<T>, zero: T)
    ensures Slots(h, zero)[OutOffs(|h|)..] + Slots(h, zero)[..OutOffs(|h|)]
            == LastTen(h) + Pad(CAPACITY - |LastTen(h)|, zero)
  {
    var slots, out, last := Slots(h, zero), OutOffs(|h|), LastTen(h);
    var padded := last + Pad(CAPACITY - |last|, zero);
    forall k: nat | k < CAPACITY
      ensures (slots[out..] + slots[..out])[k] == padded[k]
    {
      LogicalOrder(h, zero, k, (out + k) % CAPACITY);
      RotatedAt(slots, out, k);
    }
  }

  lemma RotatedAt<T>(s: seq<T>, out: nat, k: nat)
    requires |s| == CAPACITY && out < CAPACITY && k < CAPACITY
    ensures (s[out..] + s[..out])[k] == s[(out + k) % CAPACITY]
  {
    if out + k >= CAPACITY {
      SameResidue((out + k) % CAPACITY, out + k - CAPACITY);
    }
  }

  // ------------------------------------------------------------------ sizes

  function Sum(s: seq<nat>): nat {
    if s == [] then 0 else s[0] + Sum(s[1..])
  }

  lemma {:induction false} SumAppend(a: seq<nat>, b: seq<nat>)
    ensures Sum(a + b) == Sum(a) + Sum(b)
  {
    if a == [] {
      assert a + b == b;
    } else {
      assert (a + b)[0] == a[0] && (a + b)[1..] == a[1..] + b;
      SumAppend(a[1..], b);
    }
  }

  lemma SumPrefix(s: seq<nat>, k: nat)
    requires k < |s|
    ensures Sum(s[..k + 1]) == Sum(s[..k]) + s[k]
  {
    assert s[..k + 1] == s[..k] + [s[k]];
    SumAppend(s[..k], [s[k]]);
    assert Sum([s[k]]) == s[k] + Sum([]);
  }

  lemma {:induction false} SumMonotone(s: seq<nat>, j: nat, k: nat)
    requires j <= k <= |s|
    ensures Sum(s[..j]) <= Sum(s[..k])
    decreases k - j
  {
    if j < k {
      SumPrefix(s, j);
      SumMonotone(s, j + 1, k);
    }
  }

  lemma {:induction false} SumPad(n: nat)
    ensures Sum(Pad<nat>(n, 0)) == 0
  {
    if n > 0 {
      assert Pad<nat>(n, 0)[1..] == Pad<nat>(n - 1, 0);
      SumPad(n - 1);
    }
  }

  /** The sum over the slots in physical order is the size of the logical contents. */
  lemma PhysicalSum(sizes: seq<nat>)
    ensures Sum(Slots(sizes, 0)) == Sum(LastTen(sizes))
  {
    var slots, out := Slots(sizes, 0), OutOffs(|sizes|);
    Rotated(sizes, 0);
    assert slots == slots[..out] + slots[out..];
    SumAppend(slots[..out], slots[out..]);
    SumAppend(slots[out..], slots[..out]);
    SumAppend(LastTen(sizes), Pad<nat>(CAPACITY - |LastTen(sizes)|, 0));
    SumPad(CAPACITY - |LastTen(sizes)|);
  }

  /** A byte position names at most one (entry, offset) pair. */
  lemma LocateUnique(sizes: seq<nat>, k: nat, off: nat, k': nat, off': nat)
    requires k < |sizes| && off < sizes[k]
    requires k' < |sizes| && off' < sizes[k']
    requires Sum(sizes[..k]) + off == Sum(sizes[..k']) + off'
    ensures k == k' && off == off'
  {
    SumPrefix(sizes, k);
    SumPrefix(sizes, k');
    if k < k' {
      SumMonotone(sizes, k + 1, k');
    } else if k' < k {
      SumMonotone(sizes, k' + 1, k);
    }
  }

  function SizesOf(w: seq<Entry>): (r: seq<nat>) {
    seq(|w|, k requires 0 <= k < |w| => w[k].size)
  }

  lemma {:induction false} SizesOfSlots(h: seq<Entry>)
    ensures SizesOf(Slots(h, EMPTY)) == Slots(SizesOf(h), 0)
    ensures SizesOf(LastTen(h)) == LastTen(SizesOf(h))
  {
    if h != [] {
      SizesOfSlots(h[..|h| - 1]);
      assert SizesOf(h)[..|h| - 1] == SizesOf(h[..|h| - 1]);
    }
  }

  ghost function Total(w: seq<Entry>): nat {
    Sum(SizesOf(w))
  }

  /** The bytes of the first `k` entries, all of them when there are no more than `k`. */
  ghost function Before(w: seq<Entry>, k: nat): nat {
    Sum(SizesOf(w)[..if k < |w| then k else |w|])
  }

  lemma BeforeAll(w: seq<Entry>, k: nat)
    requires k >= |w|
    ensures Before(w, k) == Total(w)
  {
    assert SizesOf(w)[..|w|] == SizesOf(w);
  }

  lemma BeforeStep(w: seq<Entry>, k: nat)
    ensures Before(w, k + 1) == Before(w, k) + (if k < |w| then w[k].size else 0) <= Total(w)
  {
    BeforeAll(w, |w|);
    if k < |w| {
      SumPrefix(SizesOf(w), k);
      SumMonotone(SizesOf(w), k + 1, |w|);
    }
  }

  lemma WalkStep(out: nat, k: nat)
    requires out < CAPACITY && k < CAPACITY
    ensures var slot := (out + k) % CAPACITY;
            (slot + CAPACITY - out) % CAPACITY == k && (slot + 1) % CAPACITY == (out + k + 1) % CAPACITY
  {
  }

  /** What the lookup meets in its `k`-th step, counted from the output offset. */
  lemma LookupStep(h: seq<Entry>, w: seq<Entry>, k: nat, slot: nat, e: Entry)
    requires k < CAPACITY && slot == (OutOffs(|h|) + k) % CAPACITY
    requires w == LastTen(h) && e == Slots(h, EMPTY)[slot]
    ensures if k < |w| then e == w[k] else e == EMPTY
    ensures Before(w, k + 1) == Before(w, k) + e.size <= Total(w)
  {
    LogicalOrder(h, EMPTY, k, slot);
    BeforeStep(w, k);
  }

  /** A full ring is about to overwrite its logically first entry. */
  lemma OldestSlot(h: seq<Entry>)
    requires |h| >= CAPACITY
    ensures Slots(h, EMPTY)[|h| % CAPACITY] == LastTen(h)[0]
  {
    OffsetsAppend(|h|);
    LogicalOrder(h, EMPTY, 0, |h| % CAPACITY);
  }

  // ------------------------------------------------------------------- code

  class CircularBuffer {
    const entry: array<Entry>
    var inOffs: nat
    var outOffs: nat
    var full: bool

    ghost var history: seq<Entry>

    ghost predicate Valid()
      reads this, entry
    {
      && entry.Length == CAPACITY
      && entry[..] == Slots(history, EMPTY)
      && inOffs == |history| % CAPACITY
      && outOffs == OutOffs(|history|)
      && full == (|history| >= CAPACITY)
    }

    ghost function Contents(): seq<Entry>
      reads this
    {
      LastTen(history)
    }

    constructor ()
      ensures Valid() && history == [] && fresh(entry)
    {
      entry := new Entry[CAPACITY](_ => EMPTY);
      inOffs, outOffs, full := 0, 0, false;
      history := [];
    }

    /** How many entries come logically before the one in this slot. */
    function Position(slot: nat): nat
      requires slot < CAPACITY && outOffs < CAPACITY
      reads this
    {
      (slot + CAPACITY - outOffs) % CAPACITY
    }

    method FindEntryOffsetForFpos(charOffset: nat) returns (r: Option<(nat, nat)>)
      requires Valid()
      ensures r.Some? <==> charOffset < Total(Contents())
      ensures r.Some? ==>
                && r.value.0 < CAPACITY
                && r.value.1 < entry[r.value.0].size
                && Position(r.value.0) < |Contents()|
                && entry[r.value.0] == Contents()[Position(r.value.0)]
                && Before(Contents(), Position(r.value.0)) + r.value.1 == charOffset
    {
      var index := outOffs;
      var temp: nat := charOffset;
      var iterations := 0;
      ghost var w := Contents();
      while true
        invariant iterations < CAPACITY
        invariant index == (outOffs + iterations) % CAPACITY
        invariant temp + Before(w, iterations) == charOffset
        decreases CAPACITY - iterations
      {
        WalkStep(outOffs, iterations);
        assert entry[index] == entry[..][index];
        LookupStep(history, w, iterations, index, entry[index]);
        if temp < entry[index].size {
          return Some((index, temp));
        }
        temp := temp - entry[index].size;
        index := (index + 1) % CAPACITY;
        iterations := iterations + 1;
        if iterations == CAPACITY {
          BeforeAll(w, CAPACITY);
          return None;
        }
      }
    }

    /** The result is the buffer of the entry that fell out of the last ten, NULL if none did. */
    method AddEntry(addEntry: Entry) returns (oldEntry: Ptr)
      requires Valid()
      modifies this, entry
      ensures Valid() && history == old(history) + [addEntry]
      ensures oldEntry == if |old(history)| < CAPACITY then NULL else old(Contents())[0].buffptr
    {
      oldEntry := NULL;
      SlotsAppend(history, EMPTY, addEntry);
      OffsetsAppend(|history|);
      if full {
        OldestSlot(history);
      }
      assert entry[inOffs] == entry[..][inOffs];
      ghost var slots := entry[..][inOffs := addEntry];
      if full {
        outOffs := (outOffs + 1) % CAPACITY;
        oldEntry := entry[inOffs].buffptr;
        entry[inOffs] := addEntry;
      } else {
        entry[inOffs] := addEntry;
      }
      inOffs := (inOffs + 1) % CAPACITY;
      if !full && inOffs == outOffs {
        full := true;
      }
      assert entry[..] == slots;
      history := history + [addEntry];
    }
  }
}
