/**
 What the clients are answered: reads of a draining client against the contents
 and against the history of all commands.
 */
module Replies {
  import opened Lines
  import opened Ring
  import opened Store
  import opened Positions
  import opened Framing
  import opened Server

  lemma StepLogGrows(s: State, t: Step)
    requires Enabled(s, t)
    ensures s.dev.log <= Next(s, t, true).dev.log
  {
  }

  lemma {:induction false} RunLogGrows(s: State, ts: seq<Step>)
    requires Runs(s, ts, true)
    ensures s.dev.log <= After(s, ts, true).dev.log
    decreases |ts|
  {
    if ts != [] {
      StepLogGrows(s, ts[0]);
      RunLogGrows(Next(s, ts[0], true), ts[1..]);
    }
  }

  lemma EvictedGrows(a: seq<Data>, b: seq<Data>)
    requires a <= b
    ensures Evicted(a) <= Evicted(b)
    ensures Evicted(a) == Evicted(b) ==> Visible(a) <= Visible(b)
  {
    var more := b[|a|..];
    assert b == a + more;
    HistoryGrows(a, more);
    if Evicted(a) == Evicted(b) {
      VisibleExtends(a, more);
    }
  }

  lemma BetweenJoins(v: Data, v': Data, p: nat, q: nat, r: nat)
    requires v <= v' && p <= q <= |v| && q <= r && (r == q || r <= |v'|)
    ensures v[p..q] + Between(v', q, r) == Between(v', p, r)
  {
  }

  /** The client does not move its position by a seek. */
  ghost predicate NoSeeks(ts: seq<Step>, i: nat) {
    forall k :: 0 <= k < |ts| ==> !(ts[k].Seek? && ts[k].i == i)
  }

  /** What was sent in between: the bytes the position moved over. */
  ghost predicate Answered(c: Client, c': Client, v: Data) {
    && c.fPos <= c'.fPos && (c'.fPos == c.fPos || c'.fPos <= |v|)
    && c'.sent == c.sent + Between(v, c.fPos, c'.fPos)
  }

  lemma StandsStill(c: Client, c': Client, v: Data)
    requires c'.fPos == c.fPos && c'.sent == c.sent
    ensures Answered(c, c', v)
  {
    assert c.sent + [] == c.sent;
  }

  /** Only its own reads and seeks move a client's position, and only its reads send anything. */
  lemma SentStep(s: State, t: Step, i: nat)
    requires Enabled(s, t) && !(t.Seek? && t.i == i)
    ensures var c, c' := ClientOf(s, i), ClientOf(Next(s, t, true), i);
            && Answered(c, c', Visible(s.dev.log))
            && (t == ReadSome(i) || (c'.fPos == c.fPos && c'.sent == c.sent))
  {
    if t == ReadSome(i) {
      ReadLengthBounds(s.dev.log, s.clients[i].fPos, BUFFER_SIZE);
    } else {
      StandsStill(ClientOf(s, i), ClientOf(Next(s, t, true), i), Visible(s.dev.log));
    }
  }

  lemma AnsweredJoins(c: Client, m: Client, c': Client, v: Data, v': Data)
    requires Answered(c, m, v) && Answered(m, c', v') && v <= v'
    ensures Answered(c, c', v')
  {
    if m.fPos <= |v| {
      BetweenJoins(v, v', c.fPos, m.fPos, c'.fPos);
      Associate(c.sent, Between(v, c.fPos, m.fPos), Between(v', m.fPos, c'.fPos));
    } else {
      Associate(c.sent, [], Between(v', m.fPos, c'.fPos));
      assert [] + Between(v', m.fPos, c'.fPos) == Between(v', m.fPos, c'.fPos);
    }
  }

  lemma NoSeeksLater(ts: seq<Step>, i: nat)
    requires NoSeeks(ts, i) && ts != []
    ensures NoSeeks(ts[1..], i) && !(ts[0].Seek? && ts[0].i == i)
  {
  }

  /**
   As long as nothing is evicted, what a client is sent between two seeks of its
   own, over any number of packets, is one contiguous stretch of the contents,
   whatever other threads do in between.
   */
  lemma {:induction false} SentSegment(s: State, ts: seq<Step>, i: nat)
    requires Runs(s, ts, true) && NoSeeks(ts, i)
    requires Evicted(After(s, ts, true).dev.log) == Evicted(s.dev.log)
    ensures Answered(ClientOf(s, i), ClientOf(After(s, ts, true), i), Visible(After(s, ts, true).dev.log))
    decreases |ts|
  {
    if ts == [] {
      StandsStill(ClientOf(s, i), ClientOf(s, i), Visible(s.dev.log));
    } else {
      var s', e := Next(s, ts[0], true), After(s, ts, true);
      NoSeeksLater(ts, i);
      SentStep(s, ts[0], i);
      StepLogGrows(s, ts[0]);
      RunLogGrows(s', ts[1..]);
      EvictedGrows(s.dev.log, s'.dev.log);
      EvictedGrows(s'.dev.log, e.dev.log);
      SentSegment(s', ts[1..], i);
      AnsweredJoins(ClientOf(s, i), ClientOf(s', i), ClientOf(e, i), Visible(s.dev.log), Visible(e.dev.log));
    }
  }

  /** Without seeks the position is as far on as bytes were sent, evictions or not. */
  lemma {:induction false} PositionIsSent(s: State, ts: seq<Step>, i: nat)
    requires Runs(s, ts, true) && NoSeeks(ts, i)
    ensures var c, c' := ClientOf(s, i), ClientOf(After(s, ts, true), i);
            c'.fPos - c.fPos == |c'.sent| - |c.sent|
    decreases |ts|
  {
    if ts != [] {
      NoSeeksLater(ts, i);
      SentStep(s, ts[0], i);
      AnsweredLength(ClientOf(s, i), ClientOf(Next(s, ts[0], true), i), Visible(s.dev.log));
      PositionIsSent(Next(s, ts[0], true), ts[1..], i);
    }
  }

  lemma AnsweredLength(c: Client, c': Client, v: Data)
    requires Answered(c, c', v)
    ensures c'.fPos - c.fPos == |c'.sent| - |c.sent|
  {
  }

  /**
   A connection that never seeks, over a whole run that evicts nothing: what it
   was sent, in all its answers together, is the contents up to its position.
   */
  lemma SentIsContents(ts: seq<Step>, i: nat)
    requires Runs(START, ts, true) && NoSeeks(ts, i)
    requires Evicted(After(START, ts, true).dev.log) == 0
    ensures var e := After(START, ts, true);
            ClientOf(e, i).fPos <= |Visible(e.dev.log)|
            && ClientOf(e, i).sent == Visible(e.dev.log)[..ClientOf(e, i).fPos]
  {
    var e := After(START, ts, true);
    SentSegment(START, ts, i);
    assert [] + Between(Visible(e.dev.log), 0, ClientOf(e, i).fPos) == Between(Visible(e.dev.log), 0, ClientOf(e, i).fPos);
  }

  /**
   The answer to a packet: when a drain ends, the client was sent everything
   visible from the position where it stood before.
   */
  lemma Reply(s: State, ts: seq<Step>, i: nat)
    requires Runs(s, ts, true) && NoSeeks(ts, i)
    requires Evicted(After(s, ts, true).dev.log) == Evicted(s.dev.log)
    requires Enabled(After(s, ts, true), EndDrain(i))
    ensures var e := After(s, ts, true);
            ClientOf(e, i).sent == ClientOf(s, i).sent + From(Visible(e.dev.log), ClientOf(s, i).fPos)
  {
    var e := After(s, ts, true);
    SentSegment(s, ts, i);
    ReadLengthBounds(e.dev.log, e.clients[i].fPos, BUFFER_SIZE);
  }

  // ---------------------------------------------- replies against the history

  /** The bytes are pieces of the history, in its order from `from` on and without overlap. */
  ghost predicate InPieces(bytes: Data, h: Data, from: nat)
    decreases |bytes|
  {
    bytes == [] || exists n: nat, at: nat ::
                     && 0 < n <= |bytes| && from <= at
                     && StandsAt(bytes[..n], h, at) && InPieces(bytes[n..], h, at + n)
  }

  lemma PieceInFront(chunk: Data, rest: Data, h: Data, from: nat, at: nat, later: nat)
    requires chunk != [] && from <= at && StandsAt(chunk, h, at)
    requires at + |chunk| <= later && InPieces(rest, h, later)
    ensures InPieces(chunk + rest, h, from)
  {
    PiecesFromEarlier(rest, h, at + |chunk|, later);
    assert (chunk + rest)[..|chunk|] == chunk && (chunk + rest)[|chunk|..] == rest;
  }

  lemma PiecesFromEarlier(bytes: Data, h: Data, from: nat, later: nat)
    requires from <= later && InPieces(bytes, h, later)
    ensures InPieces(bytes, h, from)
  {
  }

  /** A chunk sent is a piece of the history at the end of the run, whatever was evicted since. */
  lemma ChunkInHistory(s: State, ts: seq<Step>, i: nat)
    requires Enabled(s, ReadSome(i)) && Runs(Next(s, ReadSome(i), true), ts, true)
    ensures var e := After(Next(s, ReadSome(i), true), ts, true);
            StandsAt(Chunk(s, s.clients[i]), Flatten(e.dev.log), Evicted(s.dev.log) + s.clients[i].fPos)
  {
    var s' := Next(s, ReadSome(i), true);
    RunLogGrows(s', ts);
    ChunkStands(s, i);
    ReadIsHistory(s.dev.log, After(s', ts, true).dev.log, Chunk(s, s.clients[i]), s.clients[i].fPos);
  }

  lemma ChunkStands(s: State, i: nat)
    requires Enabled(s, ReadSome(i))
    ensures Chunk(s, s.clients[i]) != [] && StandsAt(Chunk(s, s.clients[i]), Visible(s.dev.log), s.clients[i].fPos)
  {
    ReadLengthBounds(s.dev.log, s.clients[i].fPos, BUFFER_SIZE);
  }

  /** Steps that are no read of the client leave it where it is, and the history only grows. */
  lemma PlaceMovesOn(s: State, t: Step, i: nat)
    requires Enabled(s, t) && !(t.Seek? && t.i == i)
    ensures Evicted(s.dev.log) + ClientOf(s, i).fPos
            <= Evicted(Next(s, t, true).dev.log) + ClientOf(Next(s, t, true), i).fPos
  {
    SentStep(s, t, i);
    StepLogGrows(s, t);
    EvictedGrows(s.dev.log, Next(s, t, true).dev.log);
  }

  /** A read of the client itself adds the next piece. */
  lemma OwnPiece(s: State, ts: seq<Step>, i: nat, rest: Data) returns (more: Data)
    requires Enabled(s, ReadSome(i)) && Runs(Next(s, ReadSome(i), true), ts, true)
    requires var s' := Next(s, ReadSome(i), true);
             InPieces(rest, Flatten(After(s', ts, true).dev.log), Evicted(s'.dev.log) + ClientOf(s', i).fPos)
    ensures var s' := Next(s, ReadSome(i), true);
            && InPieces(more, Flatten(After(s', ts, true).dev.log), Evicted(s.dev.log) + ClientOf(s, i).fPos)
            && ClientOf(s', i).sent + rest == ClientOf(s, i).sent + more
  {
    var s' := Next(s, ReadSome(i), true);
    var chunk, at := Chunk(s, s.clients[i]), Evicted(s.dev.log) + s.clients[i].fPos;
    ChunkStands(s, i);
    ChunkInHistory(s, ts, i);
    Associate(s.clients[i].sent, chunk, rest);
    more := chunk + rest;
    PieceInFront(chunk, rest, Flatten(After(s', ts, true).dev.log), at, at, at + |chunk|);
  }

  /**
   Whatever other threads write and evict meanwhile, what a client is sent between
   two seeks of its own is pieces of the history in order: nothing twice, nothing
   swapped.
   */
  lemma {:induction false} SentInPieces(s: State, ts: seq<Step>, i: nat) returns (more: Data)
    requires Runs(s, ts, true) && NoSeeks(ts, i)
    ensures ClientOf(After(s, ts, true), i).sent == ClientOf(s, i).sent + more
    ensures InPieces(more, Flatten(After(s, ts, true).dev.log), Evicted(s.dev.log) + ClientOf(s, i).fPos)
    decreases |ts|
  {
    if ts == [] {
      more := [];
      assert ClientOf(s, i).sent + [] == ClientOf(s, i).sent;
    } else {
      var s', h := Next(s, ts[0], true), Flatten(After(s, ts, true).dev.log);
      NoSeeksLater(ts, i);
      more := SentInPieces(s', ts[1..], i);
      if ts[0] == ReadSome(i) {
        more := OwnPiece(s, ts[1..], i, more);
      } else {
        SentStep(s, ts[0], i);
        PlaceMovesOn(s, ts[0], i);
        PiecesFromEarlier(more, h, Evicted(s.dev.log) + ClientOf(s, i).fPos,
                          Evicted(s'.dev.log) + ClientOf(s', i).fPos);
      }
    }
  }

  // --------------------------------------------------------------- the answers

  lemma ServedIsLast(s: State, i: nat) returns (log: seq<Data>)
    requires Inv(s) && i in s.clients && s.clients[i].pc == Unlocking && !IsSeek(s.clients[i].buffer)
    ensures s.dev.log == log + [s.clients[i].buffer + [NL]]
  {
    assert ClientInv(s.mutex, s.acquired, i, s.clients[i]);
    CommandsLast(s.acquired);
    log := Commands(s.acquired[..|s.acquired| - 1]);
  }

  /** When a packet has been written the contents end with it. */
  lemma EndsWithServed(s: State, i: nat)
    requires Inv(s) && i in s.clients && s.clients[i].pc == Unlocking && !IsSeek(s.clients[i].buffer)
    ensures EndsWith(Visible(s.dev.log), s.clients[i].buffer + [NL])
  {
    var log := ServedIsLast(s, i);
    VisibleEndsWith(log, s.clients[i].buffer + [NL]);
  }

  /**
   A connection's first packet, if it is no seek and no other client writes
   before its drain ends, is answered with the whole contents, which end with
   the packet and its newline.
   */
  lemma EchoFirstPacket(s: State, ts: seq<Step>, i: nat)
    requires Inv(s) && i in s.clients && s.clients[i].pc == Unlocking && !IsSeek(s.clients[i].buffer)
    requires |PacketsOf(s.acquired, i)| == 1
    requires Runs(Next(s, Unlock(i), true), ts, true) && NoSeeks(ts, i)
    requires After(Next(s, Unlock(i), true), ts, true).dev.log == s.dev.log
    requires Enabled(After(Next(s, Unlock(i), true), ts, true), EndDrain(i))
    ensures var e, v := After(Next(s, Unlock(i), true), ts, true), Visible(s.dev.log);
            e.clients[i].sent == s.clients[i].sent + v && EndsWith(v, s.clients[i].buffer + [NL])
  {
    assert ClientInv(s.mutex, s.acquired, i, s.clients[i]);
    Reply(Next(s, Unlock(i), true), ts, i);
    EndsWithServed(s, i);
  }

  /** The start of what is visible from a place on is there whatever is added behind. */
  lemma FromStarts(v: Data, v': Data, p: nat, bytes: Data)
    requires v <= v' && StandsAt(bytes, v, p)
    ensures bytes <= From(v', p)
  {
    assert v'[p..][..|bytes|] == v[p..p + |bytes|];
  }

  /** With the oldest command in slot 0 a seek goes to the command and offset it names. */
  lemma SoughtBytes(log: seq<Data>, cmd: nat, off: nat, p: nat)
    requires OutOffs(|log|) == 0 && LiteralSeek(Lengths(log), cmd, off) == Some(p)
    ensures cmd < |LastTen(log)| && off < |LastTen(log)[cmd]|
    ensures StandsAt(LastTen(log)[cmd][off..], Visible(log), p)
  {
    UnrotatedSeek(Lengths(log));
    OrderedSeekFinds(log, cmd, off);
  }

  /** The answer begins with the command of that number, from that offset on. */
  ghost predicate BeginsAt(log: seq<Data>, cmd: nat, off: nat, answer: Data) {
    cmd < |LastTen(log)| && off < |LastTen(log)[cmd]| && LastTen(log)[cmd][off..] <= answer
  }

  lemma SoughtFirst(log: seq<Data>, later: seq<Data>, cmd: nat, off: nat, p: nat)
    requires log <= later && Evicted(later) == Evicted(log)
    requires OutOffs(|log|) == 0 && LiteralSeek(Lengths(log), cmd, off) == Some(p)
    ensures BeginsAt(log, cmd, off, From(Visible(later), p))
  {
    SoughtBytes(log, cmd, off, p);
    EvictedGrows(log, later);
    FromStarts(Visible(log), Visible(later), p, LastTen(log)[cmd][off..]);
  }

  /** A seek packet in the section, its seek and its unlocking. */
  lemma SeekMoves(s: State, i: nat, index: nat, offset: nat, p: nat) returns (s': State)
    requires Enabled(s, Seek(i, index, offset)) && index < 0x1_0000_0000 && offset < 0x1_0000_0000
    requires LiteralSeek(Lengths(s.dev.log), index, offset) == Some(p)
    ensures Enabled(Next(s, Seek(i, index, offset), true), Unlock(i))
    ensures s' == Next(Next(s, Seek(i, index, offset), true), Unlock(i), true)
    ensures s'.dev == s.dev && ClientOf(s', i).fPos == p && ClientOf(s', i).sent == s.clients[i].sent
  {
    assert index % UINT32 == index && offset % UINT32 == offset;
    s' := Next(Next(s, Seek(i, index, offset), true), Unlock(i), true);
  }

  /**
   The answer to a seek packet: everything visible from the position sought. With
   the oldest command in slot 0 it begins with the command asked for, from the
   offset asked for.
   */
  lemma SeekReply(s: State, ts: seq<Step>, i: nat, index: nat, offset: nat, p: nat)
    requires Enabled(s, Seek(i, index, offset)) && index < 0x1_0000_0000 && offset < 0x1_0000_0000
    requires LiteralSeek(Lengths(s.dev.log), index, offset) == Some(p)
    requires Runs(s, [Seek(i, index, offset), Unlock(i)] + ts, true) && NoSeeks(ts, i)
    requires var e := After(s, [Seek(i, index, offset), Unlock(i)] + ts, true);
             Enabled(e, EndDrain(i)) && Evicted(e.dev.log) == Evicted(s.dev.log)
    ensures var e := After(s, [Seek(i, index, offset), Unlock(i)] + ts, true);
            && ClientOf(e, i).sent == s.clients[i].sent + From(Visible(e.dev.log), p)
            && (OutOffs(|s.dev.log|) == 0 ==> BeginsAt(s.dev.log, index, offset, From(Visible(e.dev.log), p)))
  {
    var s' := SeekMoves(s, i, index, offset, p);
    RunsTwo(s, Seek(i, index, offset), Unlock(i), ts);
    Reply(s', ts, i);
    RunLogGrows(s', ts);
    if OutOffs(|s.dev.log|) == 0 {
      SoughtFirst(s.dev.log, After(s', ts, true).dev.log, index, offset, p);
    }
  }

  lemma RunsTwo(s: State, t: Step, u: Step, ts: seq<Step>)
    requires Runs(s, [t, u] + ts, true)
    ensures Enabled(s, t) && Enabled(Next(s, t, true), u) && Runs(Next(Next(s, t, true), u, true), ts, true)
    ensures After(s, [t, u] + ts, true) == After(Next(Next(s, t, true), u, true), ts, true)
  {
    assert ([t, u] + ts)[1..] == [u] + ts && ([u] + ts)[1..] == ts;
  }
}
