/**
 Byte positions in the ring: reads against the whole history of commands, and
 the seek-to-command arithmetic, as coded over physical slots and as meant over
 commands in order.
 */
module Positions {
  import opened Lines
  import opened Ring
  import opened Store

  function Lengths(log: seq<Data>): (r: seq<nat>)
    ensures |r| == |log| && forall k :: 0 <= k < |r| ==> r[k] == |log[k]|
  {
    seq(|log|, k requires 0 <= k < |log| => |log[k]|)
  }

  lemma LengthsLastTen(log: seq<Data>)
    ensures Lengths(LastTen(log)) == LastTen(Lengths(log))
  {
  }

  lemma {:induction false} FlattenSum(c: seq<Data>)
    ensures |Flatten(c)| == Sum(Lengths(c))
  {
    if c != [] {
      FlattenSum(c[1..]);
      assert Lengths(c)[1..] == Lengths(c[1..]);
    }
  }

  /** The flattened contents of the ring: what a reader can see. */
  function Visible(log: seq<Data>): Data {
    Flatten(LastTen(log))
  }

  function Forgotten(log: seq<Data>): seq<Data> {
    log[..|log| - |LastTen(log)|]
  }

  /** Bytes of all the commands that fell out of the ring. */
  function Evicted(log: seq<Data>): nat {
    |Flatten(Forgotten(log))|
  }

  // ------------------------------------------------------------------ reads

  /** Bytes from position `p` to the end of the entry that holds it; 0 past the end. */
  function EntryRest(c: seq<Data>, p: nat): nat {
    if c == [] then 0
    else if p < |c[0]| then |c[0]| - p
    else EntryRest(c[1..], p - |c[0]|)
  }

  function ReadLength(log: seq<Data>, p: nat, count: nat): nat {
    var rest := EntryRest(LastTen(log), p);
    if count < rest then count else rest
  }

  lemma {:induction false} EntryRestBounds(c: seq<Data>, p: nat)
    ensures EntryRest(c, p) > 0 <==> p < |Flatten(c)|
    ensures p <= |Flatten(c)| ==> p + EntryRest(c, p) <= |Flatten(c)|
  {
    if c != [] && p >= |c[0]| {
      EntryRestBounds(c[1..], p - |c[0]|);
    }
  }

  /** A read returns no bytes exactly at or past the end (or when none are asked for), and never runs over. */
  lemma ReadLengthBounds(log: seq<Data>, p: nat, count: nat)
    ensures ReadLength(log, p, count) > 0 <==> count > 0 && p < |Visible(log)|
    ensures p <= |Visible(log)| ==> p + ReadLength(log, p, count) <= |Visible(log)|
  {
    EntryRestBounds(LastTen(log), p);
  }

  lemma ShiftSlice(a: Data, b: Data, p: nat, q: nat)
    requires p <= q <= |b|
    ensures (a + b)[|a| + p..|a| + q] == b[p..q]
  {
  }

  lemma FirstAt(c: seq<Data>, off: nat)
    requires c != [] && off < |c[0]|
    ensures |c[0]| <= |Flatten(c)| && Flatten(c)[off..|c[0]|] == c[0][off..]
  {
    assert Flatten(c)[..|c[0]|] == c[0];
  }

  /** Where an entry lies in the flattened contents. */
  lemma {:induction false} EntryAt(c: seq<Data>, k: nat, off: nat)
    requires k < |c| && off < |c[k]|
    ensures var p := Sum(Lengths(c)[..k]) + off;
            && EntryRest(c, p) == |c[k]| - off
            && p + |c[k]| - off <= |Flatten(c)|
            && Flatten(c)[p..p + |c[k]| - off] == c[k][off..]
  {
    if k == 0 {
      FirstAt(c, off);
    } else {
      var p := Sum(Lengths(c[1..])[..k - 1]) + off;
      EntryAt(c[1..], k - 1, off);
      PrefixTail(c, k);
      ShiftSlice(c[0], Flatten(c[1..]), p, p + |c[k]| - off);
    }
  }

  lemma PrefixTail(c: seq<Data>, k: nat)
    requires 0 < k <= |c|
    ensures Sum(Lengths(c)[..k]) == |c[0]| + Sum(Lengths(c[1..])[..k - 1])
  {
    assert Lengths(c)[..k][1..] == Lengths(c[1..])[..k - 1];
  }

  /** A read from inside a command takes what is asked for, up to the command's end. */
  lemma ReadTakes(log: seq<Data>, k: nat, off: nat, count: nat)
    requires k < |LastTen(log)| && off < |LastTen(log)[k]|
    ensures var rest := |LastTen(log)[k]| - off;
            ReadLength(log, Sum(Lengths(LastTen(log))[..k]) + off, count) == if count <= rest then count else rest
  {
    EntryAt(LastTen(log), k, off);
  }

  // ---------------------------------------------------------------- history

  /** What is visible is the history with the evicted bytes cut off the front. */
  lemma VisibleIsHistorySuffix(log: seq<Data>)
    ensures Evicted(log) <= |Flatten(log)|
    ensures Visible(log) == Flatten(log)[Evicted(log)..]
  {
    assert log == Forgotten(log) + LastTen(log);
    FlattenAppend(Forgotten(log), LastTen(log));
  }

  lemma HistoryGrows(log: seq<Data>, more: seq<Data>)
    ensures Flatten(log + more) == Flatten(log) + Flatten(more)
    ensures Evicted(log) <= Evicted(log + more)
  {
    FlattenAppend(log, more);
    ForgottenGrows(log, more);
    PrefixLength(Forgotten(log), Forgotten(log + more));
  }

  lemma ForgottenGrows(log: seq<Data>, more: seq<Data>)
    ensures Forgotten(log) <= Forgotten(log + more)
  {
  }

  lemma PrefixLength(a: seq<Data>, b: seq<Data>)
    requires a <= b
    ensures |Flatten(a)| <= |Flatten(b)|
  {
    assert b == a + b[|a|..];
    FlattenAppend(a, b[|a|..]);
  }

  /** These bytes stand at place `at`. */
  ghost predicate StandsAt(bytes: Data, h: Data, at: nat) {
    at + |bytes| <= |h| && h[at..at + |bytes|] == bytes
  }

  lemma StandsInSuffix(bytes: Data, h: Data, e: nat, p: nat)
    requires e <= |h| && StandsAt(bytes, h[e..], p)
    ensures StandsAt(bytes, h, e + p)
  {
  }

  lemma StandsInPrefix(bytes: Data, h: Data, more: Data, at: nat)
    requires StandsAt(bytes, h, at)
    ensures StandsAt(bytes, h + more, at)
  {
  }

  lemma VisibleInHistory(log: seq<Data>, bytes: Data, p: nat)
    requires StandsAt(bytes, Visible(log), p)
    ensures StandsAt(bytes, Flatten(log), Evicted(log) + p)
  {
    VisibleIsHistorySuffix(log);
    StandsInSuffix(bytes, Flatten(log), Evicted(log), p);
  }

  lemma StandsInLater(log: seq<Data>, later: seq<Data>, bytes: Data, at: nat)
    requires log <= later && StandsAt(bytes, Flatten(log), at)
    ensures StandsAt(bytes, Flatten(later), at)
  {
    assert later == log + later[|log|..];
    FlattenAppend(log, later[|log|..]);
    StandsInPrefix(bytes, Flatten(log), Flatten(later[|log|..]), at);
  }

  /**
   However many commands are added afterwards, the bytes a read at `p` returned
   are those of the history from `Evicted(log) + p` on.
   */
  lemma ReadIsHistory(log: seq<Data>, later: seq<Data>, bytes: Data, p: nat)
    requires StandsAt(bytes, Visible(log), p) && log <= later
    ensures StandsAt(bytes, Flatten(later), Evicted(log) + p)
  {
    VisibleInHistory(log, bytes, p);
    StandsInLater(log, later, bytes, Evicted(log) + p);
  }

  /** The commands that fell out of the ring between two times. */
  function Lost(log: seq<Data>, later: seq<Data>): seq<Data>
    requires log <= later
  {
    Forgotten(later)[|Forgotten(log)|..]
  }

  lemma EvictedBetween(log: seq<Data>, later: seq<Data>)
    requires log <= later
    ensures Evicted(later) == Evicted(log) + |Flatten(Lost(log, later))|
  {
    assert Forgotten(later) == Forgotten(log) + Lost(log, later);
    FlattenAppend(Forgotten(log), Lost(log, later));
  }

  /** From `at` on stand the one, `missed` more bytes, and the other. */
  ghost predicate GapBetween(h: Data, at: nat, first: Data, missed: nat, second: Data) {
    var b := at + |first|;
    var c := b + missed;
    c + |second| <= |h| && h[at..c + |second|] == first + h[b..c] + second
  }

  lemma StandWithGap(h: Data, e: nat, e': nat, p: nat, first: Data, missed: nat, second: Data)
    requires StandsAt(first, h, e + p) && StandsAt(second, h, e' + (p + |first|)) && e' == e + missed
    ensures GapBetween(h, e + p, first, missed, second)
  {
  }

  /**
   Two reads in a row, each standing where `ReadsAs` has it, with commands added
   in between. In the history the first read, the bytes missed and the second
   read follow each other, and what is missed is as long as the commands that
   were evicted in between.
   */
  lemma ReadGap(log: seq<Data>, later: seq<Data>, p: nat, first: Data, second: Data)
    requires log <= later
    requires StandsAt(first, Flatten(log), Evicted(log) + p)
    requires StandsAt(second, Flatten(later), Evicted(later) + (p + |first|))
    ensures GapBetween(Flatten(later), Evicted(log) + p, first, |Flatten(Lost(log, later))|, second)
  {
    StandsInLater(log, later, first, Evicted(log) + p);
    EvictedBetween(log, later);
    StandWithGap(Flatten(later), Evicted(log), Evicted(later), p, first, |Flatten(Lost(log, later))|, second);
  }

  /**
   What a read at `p` returns: nothing exactly at the end or for a zero count, and
   otherwise bytes that stand at `p` in the contents and, in the history of all
   commands, behind the evicted bytes.
   */
  ghost predicate ReadsAs(log: seq<Data>, p: nat, count: nat, buf: Data) {
    && |buf| == ReadLength(log, p, count)
    && (buf == [] <==> count == 0 || p >= |Visible(log)|)
    && (buf != [] ==> StandsAt(buf, Visible(log), p) && StandsAt(buf, Flatten(log), Evicted(log) + p))
  }

  lemma ReadsNothing(log: seq<Data>, p: nat, count: nat)
    requires count == 0 || p >= |Visible(log)|
    ensures ReadsAs(log, p, count, [])
  {
    ReadLengthBounds(log, p, count);
  }

  /** What is left to read from position `p`. */
  function From(v: Data, p: nat): Data {
    if p <= |v| then v[p..] else []
  }

  /** The bytes between two positions, none when they are not there. */
  function Between(v: Data, p: nat, q: nat): Data {
    if p <= q <= |v| then v[p..q] else []
  }

  /** While nothing non-empty is evicted, new commands only extend what is visible. */
  lemma VisibleExtends(log: seq<Data>, more: seq<Data>)
    requires Evicted(log + more) == Evicted(log)
    ensures Visible(log + more) == Visible(log) + Flatten(more)
  {
    VisibleIsHistorySuffix(log);
    VisibleIsHistorySuffix(log + more);
    FlattenAppend(log, more);
    DropConcat(Flatten(log), Flatten(more), Evicted(log));
  }

  lemma DropConcat(h: Data, more: Data, e: nat)
    requires e <= |h|
    ensures (h + more)[e..] == h[e..] + more
  {
  }

  /**
   A write changes the size by the bytes of the commands it completes less the
   bytes it evicts, and every byte written is evicted, visible or pending.
   */
  lemma SizeChange(d: Device, data: Data)
    ensures var d' := ReferenceWrite(d, data);
            && |Visible(d'.log)| + Evicted(d'.log)
               == |Visible(d.log)| + Evicted(d.log) + |Flatten(Split(d.pending + data))|
            && Evicted(d'.log) + |Visible(d'.log)| + |d'.pending|
               == Evicted(d.log) + |Visible(d.log)| + |d.pending| + |data|
  {
    var d' := ReferenceWrite(d, data);
    VisibleIsHistorySuffix(d.log);
    VisibleIsHistorySuffix(d'.log);
    FlattenAppend(d.log, Split(d.pending + data));
    ReferenceConservesBytes(d, data);
  }

  lemma TenStay(log: seq<Data>)
    requires |log| <= 10
    ensures Visible(log) == Flatten(log) && Evicted(log) == 0
  {
    assert Forgotten(log) == [];
  }

  lemma WindowMoves(log: seq<Data>, c: Data)
    requires |log| >= 10
    ensures |LastTen(log)| == 10 && LastTen(log) == [log[|log| - 10]] + LastTen(log)[1..]
    ensures LastTen(log + [c]) == LastTen(log)[1..] + [c]
  {
  }

  lemma ForgottenMoves(log: seq<Data>, c: Data)
    requires |log| >= 10
    ensures Forgotten(log + [c]) == Forgotten(log) + [log[|log| - 10]]
  {
  }

  lemma FlattenMoves(oldest: Data, rest: seq<Data>, c: Data)
    ensures Flatten([oldest] + rest) + c == oldest + Flatten(rest + [c])
  {
    FlattenCons(oldest, rest);
    FlattenAppend(rest, [c]);
    FlattenOne(c);
    assert (oldest + Flatten(rest)) + c == oldest + (Flatten(rest) + c);
  }

  /** Up to ten commands are all kept; from then on each further one evicts just the oldest kept. */
  lemma NextEvictsOldest(log: seq<Data>, c: Data)
    requires |log| >= 10
    ensures |LastTen(log)| == 10 && LastTen(log + [c]) == LastTen(log)[1..] + [c]
    ensures Evicted(log + [c]) == Evicted(log) + |log[|log| - 10]|
    ensures Visible(log) + c == log[|log| - 10] + Visible(log + [c])
  {
    var oldest := log[|log| - 10];
    WindowMoves(log, c);
    ForgottenMoves(log, c);
    FlattenAppend(Forgotten(log), [oldest]);
    FlattenOne(oldest);
    FlattenMoves(oldest, LastTen(log)[1..], c);
  }

  ghost predicate EndsWith(v: Data, c: Data) {
    |c| <= |v| && v[|v| - |c|..] == c
  }

  /** The newest command is what the contents end with. */
  lemma VisibleEndsWith(log: seq<Data>, c: Data)
    ensures EndsWith(Visible(log + [c]), c)
  {
    var w := LastTen(log + [c]);
    var older := w[..|w| - 1];
    assert w == older + [c];
    FlattenAppend(older, [c]);
    FlattenOne(c);
  }

  // ------------------------------------------------------------------- seek

  /** `aesd_adjust_file_offset`: command numbers are physical slots, sizes are summed from slot 0. */
  function LiteralSeek(sizes: seq<nat>, cmd: nat, off: nat): Option<nat> {
    var slots := Slots(sizes, 0);
    if cmd < CAPACITY && off < slots[cmd] then Some(Sum(slots[..cmd]) + off) else None
  }

  /** The slots as a reader meets them. */
  function InOrder(sizes: seq<nat>): (r: seq<nat>)
    ensures |r| == CAPACITY
  {
    Slots(sizes, 0)[OutOffs(|sizes|)..] + Slots(sizes, 0)[..OutOffs(|sizes|)]
  }

  /** The seek over commands in the order they were written. */
  function OrderedSeek(sizes: seq<nat>, cmd: nat, off: nat): Option<nat> {
    var order := InOrder(sizes);
    if cmd < CAPACITY && off < order[cmd] then Some(Sum(order[..cmd]) + off) else None
  }

  /** Position `p` is byte `off` of the `cmd`-th visible command. */
  ghost predicate LocatedAt(sizes: seq<nat>, p: nat, cmd: nat, off: nat) {
    var order := InOrder(sizes);
    cmd < CAPACITY && off < order[cmd] && Sum(order[..cmd]) + off == p
  }

  /** Every slot is as long as the entry that many places from the oldest. */
  ghost predicate RotationInvariant(sizes: seq<nat>) {
    forall k :: 0 <= k < CAPACITY ==> Slots(sizes, 0)[k] == InOrder(sizes)[k]
  }

  lemma SumBelow(a: seq<nat>, b: seq<nat>)
    requires |a| == |b| && forall k :: 0 <= k < |a| ==> a[k] <= b[k]
    ensures Sum(a) <= Sum(b)
    ensures Sum(a) == Sum(b) ==> a == b
  {
    if a != [] {
      SumBelow(a[1..], b[1..]);
      assert a == [a[0]] + a[1..] && b == [b[0]] + b[1..];
    }
  }

  lemma InOrderSum(sizes: seq<nat>)
    ensures Sum(InOrder(sizes)) == Sum(Slots(sizes, 0))
  {
    var s, o := Slots(sizes, 0), OutOffs(|sizes|);
    assert s == s[..o] + s[o..];
    SumAppend(s[..o], s[o..]);
    SumAppend(s[o..], s[..o]);
  }

  ghost predicate SeekRoundTrips(sizes: seq<nat>) {
    forall cmd: nat, off: nat :: LiteralSeek(sizes, cmd, off).Some?
      ==> LocatedAt(sizes, LiteralSeek(sizes, cmd, off).value, cmd, off)
  }

  ghost predicate SeekIsOrdered(sizes: seq<nat>) {
    forall cmd: nat, off: nat :: LiteralSeek(sizes, cmd, off) == OrderedSeek(sizes, cmd, off)
  }

  /** One direction of the round trip needs only the last byte of every slot. */
  lemma RoundTripBounds(sizes: seq<nat>)
    requires SeekRoundTrips(sizes)
    ensures RotationInvariant(sizes)
  {
    var slots, order := Slots(sizes, 0), InOrder(sizes);
    forall k: nat | k < CAPACITY
      ensures slots[k] <= order[k]
    {
      if slots[k] > 0 {
        assert LiteralSeek(sizes, k, slots[k] - 1).Some?;
      }
    }
    InOrderSum(sizes);
    SumBelow(slots, order);
  }

  /**
   The seek as coded always lands on the command and offset it was asked for
   exactly when the slot sizes are unchanged by rotation, and exactly then it
   agrees with the seek over commands in order, failures included.
   */
  lemma LiteralSeekExact(sizes: seq<nat>)
    ensures SeekRoundTrips(sizes) <==> RotationInvariant(sizes)
    ensures SeekIsOrdered(sizes) <==> RotationInvariant(sizes)
  {
    if RotationInvariant(sizes) {
      assert Slots(sizes, 0) == InOrder(sizes);
    }
    if SeekIsOrdered(sizes) {
      assert SeekRoundTrips(sizes) by {
        forall cmd: nat, off: nat | LiteralSeek(sizes, cmd, off).Some?
          ensures LocatedAt(sizes, LiteralSeek(sizes, cmd, off).value, cmd, off)
        {
          assert LiteralSeek(sizes, cmd, off) == OrderedSeek(sizes, cmd, off);
        }
      }
    }
    if SeekRoundTrips(sizes) {
      RoundTripBounds(sizes);
    }
  }

  /** Eleven commands, the last of two bytes: asking for command 0 lands inside command 1. */
  lemma SeekDeviates()
    ensures var sizes := Pad(10, 1) + [2];
            LiteralSeek(sizes, 0, 1) == Some(1) && LocatedAt(sizes, 1, 1, 0) && !LocatedAt(sizes, 1, 0, 1)
  {
    var sizes: seq<nat> := Pad(10, 1) + [2];
    SlotsClosedForm(sizes, 0, 0);
    assert Slots(sizes, 0)[0] == 2;
    Rotated(sizes, 0);
    assert LastTen(sizes) == sizes[1..];
    var order := InOrder(sizes);
    assert order[0] == sizes[1] && order[1] == sizes[2];
    assert order[..1] == [1];
    assert Sum(order[..1]) == 1 + Sum([]);
  }

  /** With the oldest entry in slot 0 the condition holds. */
  lemma UnrotatedSeek(sizes: seq<nat>)
    requires OutOffs(|sizes|) == 0
    ensures SeekRoundTrips(sizes) && SeekIsOrdered(sizes)
  {
    assert Slots(sizes, 0)[0..] + Slots(sizes, 0)[..0] == Slots(sizes, 0);
    assert InOrder(sizes) == Slots(sizes, 0);
    LiteralSeekExact(sizes);
  }

  /** Whatever the rotation, a successful seek lands inside the contents. */
  lemma LiteralSeekInside(sizes: seq<nat>, cmd: nat, off: nat)
    ensures LiteralSeek(sizes, cmd, off).Some? ==> LiteralSeek(sizes, cmd, off).value < Sum(LastTen(sizes))
  {
    if LiteralSeek(sizes, cmd, off).Some? {
      var slots := Slots(sizes, 0);
      SumPrefix(slots, cmd);
      SumMonotone(slots, cmd + 1, CAPACITY);
      assert slots[..CAPACITY] == slots;
      PhysicalSum(sizes);
    }
  }

  /**
   Which seeks succeed as coded: those of an offset inside the newest command
   whose number is the slot's, counted modulo ten from the very first.
   */
  lemma LiteralSeekDefined(sizes: seq<nat>, cmd: nat, off: nat)
    ensures LiteralSeek(sizes, cmd, off).Some?
            <==> cmd < 10 && exists j: nat :: j < |sizes| <= j + 10 && j % 10 == cmd && off < sizes[j]
  {
    if cmd < CAPACITY {
      SlotsClosedForm(sizes, 0, cmd);
      if cmd < |sizes| {
        forall j: nat | j < |sizes| <= j + 10 && j % 10 == cmd
          ensures j == NewestAt(|sizes|, cmd)
        {
          SameResidue(|sizes|, cmd, j, NewestAt(|sizes|, cmd));
        }
      }
    }
  }

  lemma SameResidue(n: nat, i: nat, j: nat, j': nat)
    requires j < n <= j + 10 && j' < n <= j' + 10 && j % 10 == i && j' % 10 == i
    ensures j == j'
  {
  }

  /** As coded, seeks keep the order of slots and offsets: no two go to the same place. */
  lemma LiteralSeekOrdered(sizes: seq<nat>, cmd: nat, off: nat, cmd': nat, off': nat)
    requires LiteralSeek(sizes, cmd, off).Some? && LiteralSeek(sizes, cmd', off').Some?
    ensures LiteralSeek(sizes, cmd, off).value < LiteralSeek(sizes, cmd', off').value
            <==> cmd < cmd' || (cmd == cmd' && off < off')
  {
    var slots := Slots(sizes, 0);
    SumPrefix(slots, cmd);
    SumPrefix(slots, cmd');
    if cmd < cmd' {
      SumMonotone(slots, cmd + 1, cmd');
    } else if cmd' < cmd {
      SumMonotone(slots, cmd' + 1, cmd);
    }
  }

  lemma {:induction false} SumReaches(s: seq<nat>, p: nat) returns (k: nat, off: nat)
    requires p < Sum(s)
    ensures k < |s| && off < s[k] && Sum(s[..k]) + off == p
  {
    if p < s[0] {
      k, off := 0, p;
    } else {
      k, off := SumReaches(s[1..], p - s[0]);
      k := k + 1;
      assert s[..k][1..] == s[1..][..k - 1];
    }
  }

  /** And they go everywhere: for each position of the contents there is one. */
  lemma LiteralSeekOnto(log: seq<Data>, p: nat) returns (cmd: nat, off: nat)
    requires p < |Visible(log)|
    ensures LiteralSeek(Lengths(log), cmd, off) == Some(p)
  {
    LengthsLastTen(log);
    FlattenSum(LastTen(log));
    PhysicalSum(Lengths(log));
    cmd, off := SumReaches(Slots(Lengths(log), 0), p);
  }

  lemma OrderOfLog(log: seq<Data>)
    ensures InOrder(Lengths(log)) == Lengths(LastTen(log)) + Pad(CAPACITY - |LastTen(log)|, 0)
  {
    LengthsLastTen(log);
    Rotated(Lengths(log), 0);
  }

  /** In every ring the ordered seek names a visible command, and the bytes found there are that command's. */
  lemma OrderedSeekFinds(log: seq<Data>, cmd: nat, off: nat)
    ensures OrderedSeek(Lengths(log), cmd, off).Some? <==> cmd < |LastTen(log)| && off < |LastTen(log)[cmd]|
    ensures OrderedSeek(Lengths(log), cmd, off).Some? ==>
              var p := OrderedSeek(Lengths(log), cmd, off).value;
              && EntryRest(LastTen(log), p) == |LastTen(log)[cmd]| - off
              && p + |LastTen(log)[cmd]| - off <= |Visible(log)|
              && Visible(log)[p..p + |LastTen(log)[cmd]| - off] == LastTen(log)[cmd][off..]
  {
    var c, order := LastTen(log), InOrder(Lengths(log));
    OrderOfLog(log);
    if cmd < |c| && off < |c[cmd]| {
      assert order[..cmd] == Lengths(c)[..cmd];
      EntryAt(c, cmd, off);
    }
  }
}
