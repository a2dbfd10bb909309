/**
 What the device keeps, as values: the log of every command ever added to the
 ring and the pending bytes. The write loop is given twice, as the code has it
 and as the splitter it is meant to be, and the two are compared.
 */
module Store {
  import opened Lines
  import opened Ring
  import opened Ledger

  datatype Device = Device(log: seq<Data>, pending: Data)

  const FRESH := Device([], [])

  // ----------------------------------------------------------------- writes

  /**
   What memory holds behind the buffer when the loop copies from a given start:
   each round starts elsewhere, and may find other bytes at the same place.
   */
  type Junk = nat -> nat -> byte

  /** The splitter the driver promises. */
  function ReferenceWrite(d: Device, data: Data): Device {
    Device(d.log + Split(d.pending + data), Tail(d.pending + data))
  }

  /** The new read size: never below zero. */
  function Shrink(readSize: nat, size: nat): nat {
    readSize - if size > readSize then readSize else size
  }

  /** Where the size of a command is measured from. */
  datatype Measure = FromBuffer | FromCommand

  function CommandSize(m: Measure, start: nat, b: nat): nat
    requires start <= b
  {
    if m == FromBuffer then b + 1 else b + 1 - start
  }

  /**
   The loop over the newlines: the commands it adds, and where it leaves
   `cmd_start`. The code measures the size of a command from the start of the
   buffer; measured from `cmd_start` it is what is meant.
   */
  function Loop(m: Measure, data: Data, start: nat, readSize: nat, junk: Junk): (r: (seq<Data>, nat))
    requires start + readSize <= |data|
    ensures start <= r.1 <= |data|
    decreases readSize
  {
    match Memchr(data, start, readSize)
    case None => ([], start)
    case Some(b) =>
      var size := CommandSize(m, start, b);
      var rest := Loop(m, data, b + 1, Shrink(readSize, size), junk);
      ([Slice(data, start, size, junk(start))] + rest.0, rest.1)
  }

  function LiteralWrite(d: Device, data: Data, junk: Junk): Device {
    var all := d.pending + data;
    var r := Loop(FromBuffer, all, 0, |all|, junk);
    Device(d.log + r.0, all[r.1..])
  }

  /** Past the first command, every command the loop adds is malformed: it carries bytes after its newline. */
  lemma {:induction false} LaterCommandsMalformed(data: Data, start: nat, readSize: nat, junk: Junk, k: nat)
    requires 0 < start && start + readSize <= |data|
    requires k < |Loop(FromBuffer, data, start, readSize, junk).0|
    ensures !Terminated(Loop(FromBuffer, data, start, readSize, junk).0[k])
    decreases readSize
  {
    var b := Memchr(data, start, readSize).value;
    if k == 0 {
      NewlineInside(Slice(data, start, b + 1, junk(start)), b - start);
    } else {
      LaterCommandsMalformed(data, b + 1, Shrink(readSize, b + 1), junk, k - 1);
    }
  }

  lemma NewlineInside(line: Data, at: nat)
    requires at + 1 < |line| && line[at] == NL
    ensures !Terminated(line)
  {
    assert line[..|line| - 1][at] == NL;
  }

  lemma MemchrSuffix(d: Data, start: nat)
    requires start <= |d|
    ensures Memchr(d, start, |d| - start).None? <==> Newlines(d[start..]) == 0
  {
    NewlinesNone(d[start..]);
    var r := Memchr(d, start, |d| - start);
    if r.Some? {
      assert d[start..][r.value - start] == NL;
    }
  }

  lemma NoNewlineFound(all: Data, start: nat, junk: Junk)
    requires start <= |all| && Newlines(all[start..]) == 0
    ensures Loop(FromBuffer, all, start, |all| - start, junk) == ([], start)
  {
    MemchrSuffix(all, start);
  }

  lemma NewlineFound(all: Data, start: nat, junk: Junk)
    requires start <= |all| && Newlines(all[start..]) > 0
    ensures Loop(FromBuffer, all, start, |all| - start, junk).0 != []
  {
    MemchrSuffix(all, start);
  }

  lemma LoopUnfold(m: Measure, data: Data, start: nat, readSize: nat, b: nat, junk: Junk)
    requires start + readSize <= |data| && Memchr(data, start, readSize) == Some(b)
    ensures var size := CommandSize(m, start, b);
            var rest := Loop(m, data, b + 1, Shrink(readSize, size), junk);
            && Loop(m, data, start, readSize, junk).0 == [Slice(data, start, size, junk(start))] + rest.0
            && Loop(m, data, start, readSize, junk).1 == rest.1
  {
  }

  /** Rounds of the loop from (`from`, `n`) that add `done` lead to (`start`, `readSize`). */
  ghost predicate Reaches(m: Measure, all: Data, from: nat, n: nat,
                          done: seq<Data>, start: nat, readSize: nat, junk: Junk)
    decreases |done|
  {
    && from + n <= |all|
    && if done == [] then start == from && readSize == n
       else
         var r := Memchr(all, from, n);
         && r.Some?
         && var size := CommandSize(m, from, r.value);
            && done[0] == Slice(all, from, size, junk(from))
            && Reaches(m, all, r.value + 1, Shrink(n, size), done[1..], start, readSize, junk)
  }

  lemma {:induction false} ReachesStep(m: Measure, all: Data, from: nat, n: nat, done: seq<Data>,
                                       start: nat, readSize: nat, b: nat, size: nat, command: Data, junk: Junk)
    requires Reaches(m, all, from, n, done, start, readSize, junk) && start + readSize <= |all|
    requires Memchr(all, start, readSize) == Some(b) && size == CommandSize(m, start, b)
    requires command == Slice(all, start, size, junk(start))
    ensures Reaches(m, all, from, n, done + [command], b + 1, Shrink(readSize, size), junk)
    ensures b + 1 + Shrink(readSize, size) <= |all| && Shrink(readSize, size) < readSize
    decreases |done|
  {
    if done == [] {
      assert [command][1..] == [];
      assert done + [command] == [command];
    } else {
      var f := Memchr(all, from, n).value;
      assert (done + [command])[1..] == done[1..] + [command];
      ReachesStep(m, all, f + 1, Shrink(n, CommandSize(m, from, f)), done[1..], start, readSize, b, size, command, junk);
    }
  }

  /** What the loop has added so far grows by the command of this round. */
  lemma ReachesNext(measure: Measure, all: Data, was: seq<Data>, done: seq<Data>, cmdStart: nat, readSize: nat,
                    cmdBreak: nat, nextStart: nat, nextSize: nat, junk: Junk) returns (next: seq<Data>)
    requires cmdStart + readSize <= |all| && Memchr(all, cmdStart, readSize) == Some(cmdBreak)
    requires Reaches(measure, all, 0, |all|, done, cmdStart, readSize, junk)
    requires nextStart == cmdBreak + 1
    requires nextSize == Shrink(readSize, CommandSize(measure, cmdStart, cmdBreak))
    ensures (was + done) + [Slice(all, cmdStart, CommandSize(measure, cmdStart, cmdBreak), junk(cmdStart))]
            == was + next
    ensures Reaches(measure, all, 0, |all|, next, nextStart, nextSize, junk)
  {
    var size := CommandSize(measure, cmdStart, cmdBreak);
    var command := Slice(all, cmdStart, size, junk(cmdStart));
    ReachesStep(measure, all, 0, |all|, done, cmdStart, readSize, cmdBreak, size, command, junk);
    Associate(was, done, [command]);
    next := done + [command];
  }

  lemma {:induction false} ReachesEnd(m: Measure, all: Data, from: nat, n: nat,
                                      done: seq<Data>, start: nat, readSize: nat, junk: Junk)
    requires Reaches(m, all, from, n, done, start, readSize, junk) && start + readSize <= |all|
    requires Memchr(all, start, readSize) == None
    ensures Loop(m, all, from, n, junk).0 == done && Loop(m, all, from, n, junk).1 == start
    decreases |done|
  {
    if done != [] {
      var f := Memchr(all, from, n).value;
      ReachesEnd(m, all, f + 1, Shrink(n, CommandSize(m, from, f)), done[1..], start, readSize, junk);
      LoopUnfold(m, all, from, n, f, junk);
      assert done == [done[0]] + done[1..];
    }
  }

  lemma FirstCommand(all: Data, b: nat, junk: Junk)
    requires Memchr(all, 0, |all|) == Some(b)
    ensures var rest := Loop(FromBuffer, all, b + 1, |all| - (b + 1), junk);
            && Loop(FromBuffer, all, 0, |all|, junk).0 == [all[..b + 1]] + rest.0
            && Loop(FromBuffer, all, 0, |all|, junk).1 == rest.1
  {
    assert Shrink(|all|, b + 1) == |all| - (b + 1);
    LoopUnfold(FromBuffer, all, 0, |all|, b, junk);
    SliceInside(all, 0, b + 1, junk(0));
  }

  lemma OneNewlineLoop(all: Data, b: nat, junk: Junk)
    requires Memchr(all, 0, |all|) == Some(b) && Newlines(all[b + 1..]) == 0
    ensures Loop(FromBuffer, all, 0, |all|, junk).0 == [all[..b + 1]]
    ensures Loop(FromBuffer, all, 0, |all|, junk).1 == b + 1
  {
    FirstCommand(all, b, junk);
    NoNewlineFound(all, b + 1, junk);
    assert [all[..b + 1]] + [] == [all[..b + 1]];
  }

  lemma OneNewlineSplit(all: Data, b: nat)
    requires Memchr(all, 0, |all|) == Some(b) && Newlines(all[b + 1..]) == 0
    ensures Split(all) == [all[..b + 1]] && Tail(all) == all[b + 1..]
  {
    NewlinesNone(all[b + 1..]);
    SplitNone(all[b + 1..]);
  }

  /** Where the tail of a stream starts. */
  function TailStart(d: Data): (k: nat)
    ensures k <= |d| && d[k..] == Tail(d)
  {
    TailIsSuffix(d);
    |d| - |Tail(d)|
  }

  lemma TailIsSuffix(d: Data)
    ensures |Tail(d)| <= |d| && d[|d| - |Tail(d)|..] == Tail(d)
  {
    SplitSound(d);
    assert d == Flatten(Split(d)) + Tail(d);
  }

  lemma NoNewlineExact(all: Data, junk: Junk)
    requires Memchr(all, 0, |all|) == None
    ensures Loop(FromBuffer, all, 0, |all|, junk).0 == Split(all)
    ensures Loop(FromBuffer, all, 0, |all|, junk).1 == TailStart(all)
  {
  }

  lemma OneNewlineExact(all: Data, b: nat, junk: Junk)
    requires Memchr(all, 0, |all|) == Some(b) && Newlines(all[b + 1..]) == 0
    ensures Loop(FromBuffer, all, 0, |all|, junk).0 == Split(all)
    ensures Loop(FromBuffer, all, 0, |all|, junk).1 == TailStart(all)
  {
    OneNewlineLoop(all, b, junk);
    OneNewlineSplit(all, b);
  }

  /** With at most one newline in the buffer the loop as written is the splitter. */
  lemma LiteralLoopExact(all: Data, junk: Junk)
    requires Newlines(all) <= 1
    ensures Loop(FromBuffer, all, 0, |all|, junk).0 == Split(all)
    ensures Loop(FromBuffer, all, 0, |all|, junk).1 == TailStart(all)
  {
    var r := Memchr(all, 0, |all|);
    if r.None? {
      NoNewlineExact(all, junk);
    } else {
      NewlinesAfter(all, r.value);
      OneNewlineExact(all, r.value, junk);
    }
  }

  lemma FirstOfMany(all: Data) returns (b: nat)
    requires Newlines(all) >= 2
    ensures Memchr(all, 0, |all|) == Some(b) && Newlines(all[b + 1..]) > 0
  {
    MemchrSuffix(all, 0);
    assert all[0..] == all;
    b := Memchr(all, 0, |all|).value;
    NewlinesAfter(all, b);
  }

  /** With two or more, the last command it adds is malformed. */
  lemma LiteralLoopWrong(all: Data, junk: Junk)
    requires Newlines(all) >= 2
    ensures var cs := Loop(FromBuffer, all, 0, |all|, junk).0;
            |cs| >= 2 && !Terminated(cs[|cs| - 1])
  {
    var b := FirstOfMany(all);
    FirstCommand(all, b, junk);
    TwoNewlines(all, b, junk);
  }

  lemma TwoNewlines(all: Data, b: nat, junk: Junk)
    requires b + 1 <= |all| && Newlines(all[b + 1..]) > 0
    ensures var cs := Loop(FromBuffer, all, b + 1, |all| - (b + 1), junk).0;
            |cs| > 0 && !Terminated(cs[|cs| - 1])
  {
    NewlineFound(all, b + 1, junk);
    var cs := Loop(FromBuffer, all, b + 1, |all| - (b + 1), junk).0;
    LaterCommandsMalformed(all, b + 1, |all| - (b + 1), junk, |cs| - 1);
  }

  lemma MemchrBody(all: Data, start: nat, b: nat)
    requires start <= |all| && Memchr(all, start, |all| - start) == Some(b)
    ensures start <= b < |all| && NoNewline(all[start..b])
    ensures all[start..b + 1] == all[start..b] + [NL]
    ensures all[start..] == all[start..b + 1] + all[b + 1..]
  {
    CutAt(all, start, b);
  }

  lemma CutAt(all: Data, start: nat, b: nat)
    requires start <= b < |all|
    ensures all[start..b + 1] == all[start..b] + [all[b]]
    ensures all[start..] == all[start..b + 1] + all[b + 1..]
  {
  }

  lemma IntendedUnfold(all: Data, start: nat, n: nat, b: nat, junk: Junk)
    requires start + n == |all| && Memchr(all, start, n) == Some(b)
    ensures var rest := Loop(FromCommand, all, b + 1, |all| - (b + 1), junk);
            && Loop(FromCommand, all, start, n, junk).0 == [all[start..b + 1]] + rest.0
            && Loop(FromCommand, all, start, n, junk).1 == rest.1
  {
    LoopUnfold(FromCommand, all, start, n, b, junk);
    assert Shrink(n, b + 1 - start) == |all| - (b + 1);
    SliceInside(all, start, b + 1 - start, junk(start));
  }

  /** `r` cuts `rest` into whole lines and a newline-free remainder. */
  ghost predicate Cuts(all: Data, rest: Data, r: (seq<Data>, nat)) {
    && r.1 <= |all| && AllTerminated(r.0) && NoNewline(all[r.1..])
    && Flatten(r.0) + all[r.1..] == rest
  }

  lemma CutsCons(all: Data, body: Data, line: Data, after: Data, rest: Data, r: (seq<Data>, nat), r': (seq<Data>, nat))
    requires Cuts(all, after, r') && r.0 == [line] + r'.0 && r.1 == r'.1
    requires NoNewline(body) && line == body + [NL] && rest == line + after
    ensures Cuts(all, rest, r)
  {
    assert line[..|line| - 1] == body;
    SplitCons(line, after, r'.0, all[r'.1..]);
  }

  lemma IntendedNone(all: Data, start: nat, n: nat, junk: Junk)
    requires start + n == |all| && Memchr(all, start, n) == None
    ensures Cuts(all, all[start..], Loop(FromCommand, all, start, n, junk))
  {
    assert Flatten([]) + all[start..] == all[start..];
  }

  lemma IntendedCons(all: Data, start: nat, n: nat, b: nat, junk: Junk)
    requires start + n == |all| && Memchr(all, start, n) == Some(b)
    requires Cuts(all, all[b + 1..], Loop(FromCommand, all, b + 1, |all| - (b + 1), junk))
    ensures Cuts(all, all[start..], Loop(FromCommand, all, start, n, junk))
  {
    IntendedUnfold(all, start, n, b, junk);
    MemchrBody(all, start, b);
    CutsCons(all, all[start..b], all[start..b + 1], all[b + 1..], all[start..],
             Loop(FromCommand, all, start, n, junk), Loop(FromCommand, all, b + 1, |all| - (b + 1), junk));
  }

  lemma {:induction false} IntendedLoopCuts(all: Data, start: nat, n: nat, junk: Junk)
    requires start + n == |all|
    ensures Cuts(all, all[start..], Loop(FromCommand, all, start, n, junk))
    decreases n
  {
    var r := Memchr(all, start, n);
    if r.None? {
      IntendedNone(all, start, n, junk);
    } else {
      IntendedLoopCuts(all, r.value + 1, |all| - (r.value + 1), junk);
      IntendedCons(all, start, n, r.value, junk);
    }
  }

  lemma CutsAreSplit(all: Data, rest: Data, r: (seq<Data>, nat))
    requires rest == all && Cuts(all, rest, r)
    ensures r.0 == Split(all) && all[r.1..] == Tail(all)
  {
    SplitUnique(all, r.0, all[r.1..]);
  }

  /** With the size measured from `cmd_start` the loop is the splitter, for any number of newlines. */
  lemma IntendedLoopSplits(all: Data, junk: Junk)
    ensures Loop(FromCommand, all, 0, |all|, junk).0 == Split(all)
    ensures all[Loop(FromCommand, all, 0, |all|, junk).1..] == Tail(all)
  {
    assert all[0..] == all;
    IntendedLoopCuts(all, 0, |all|, junk);
    CutsAreSplit(all, all[0..], Loop(FromCommand, all, 0, |all|, junk));
  }

  lemma LastOfLastTen<T>(a: seq<T>, b: seq<T>)
    requires b != []
    ensures LastTen(a + b) != [] && LastTen(a + b)[|LastTen(a + b)| - 1] == b[|b| - 1]
  {
  }

  /**
   The write as coded leaves the promised ring and the promised pending bytes
   exactly when pending plus incoming data hold at most one newline, whatever
   lies in memory behind the buffer.
   */
  lemma LiteralWriteExact(d: Device, data: Data, junk: Junk)
    ensures LiteralWrite(d, data, junk) == ReferenceWrite(d, data) <==> Newlines(d.pending + data) <= 1
    ensures Newlines(d.pending + data) > 1
            ==> LastTen(LiteralWrite(d, data, junk).log) != LastTen(ReferenceWrite(d, data).log)
  {
    var all := d.pending + data;
    if Newlines(all) <= 1 {
      LiteralLoopExact(all, junk);
    } else {
      var cs := Loop(FromBuffer, all, 0, |all|, junk).0;
      LiteralLoopWrong(all, junk);
      SplitSound(all);
      SplitCount(all);
      LastOfLastTen(d.log, cs);
      LastOfLastTen(d.log, Split(all));
    }
  }

  /** Two complete lines in one write are enough to see the difference. */
  lemma LiteralWriteDeviates(junk: Junk)
    ensures var data := [65, NL, 66, NL];
            && ReferenceWrite(FRESH, data).log == [[65, NL], [66, NL]]
            && LiteralWrite(FRESH, data, junk).log == [[65, NL], [66, NL, junk(2)(4), junk(2)(5)]]
  {
    var data: Data := [65, NL, 66, NL];
    assert FRESH.pending + data == data;
    TwoLines([65], [66]);
    assert ([65] + [NL]) + ([66] + [NL]) == data;
    assert [65] + [NL] == [65, NL] && [66] + [NL] == [66, NL];
    DeviatingLoop(data, junk);
  }

  lemma DeviatingLoop(data: Data, junk: Junk)
    requires data == [65, NL, 66, NL]
    ensures Loop(FromBuffer, data, 0, 4, junk).0 == [[65, NL], [66, NL, junk(2)(4), junk(2)(5)]]
  {
    FirstNewlines(data);
    FirstCommand(data, 1, junk);
    assert data[..2] == [65, NL];
    var late := Slice(data, 2, 4, junk(2));
    assert late == [66, NL, junk(2)(4), junk(2)(5)];
    assert Loop(FromBuffer, data, 4, 0, junk) == ([], 4);
    assert Loop(FromBuffer, data, 2, 2, junk).0 == [late] + [];
  }

  lemma TwoLines(a: Data, b: Data)
    requires NoNewline(a) && NoNewline(b)
    ensures Split((a + [NL]) + (b + [NL])) == [a + [NL], b + [NL]]
  {
    var x, y := a + [NL], b + [NL];
    SplitLine(a);
    SplitLine(b);
    SplitConcat(x, y);
    assert [] + y == y;
  }

  lemma FirstNewlines(d: Data)
    requires |d| == 4 && d[0] != NL && d[1] == NL && d[2] != NL && d[3] == NL
    ensures Memchr(d, 0, 4) == Some(1) && Memchr(d, 2, 2) == Some(3)
  {
  }

  /** The two writes of a packet are exact, although the write loop in general is not. */
  lemma PacketWrites(d: Device, packet: Data, junk: Junk, junk': Junk)
    requires d.pending == [] && NoNewline(packet)
    ensures LiteralWrite(d, packet, junk) == ReferenceWrite(d, packet) == Device(d.log, packet)
    ensures LiteralWrite(Device(d.log, packet), [NL], junk') == ReferenceWrite(Device(d.log, packet), [NL])
            == Device(d.log + [packet + [NL]], [])
  {
    assert [] + packet == packet;
    NewlinesNone(packet);
    LiteralWriteExact(d, packet, junk);
    SplitNone(packet);
    assert d.log + [] == d.log;
    NewlinesConcat(packet, [NL]);
    assert Newlines([NL]) == 1 + Newlines([]);
    LiteralWriteExact(Device(d.log, packet), [NL], junk');
    SplitLine(packet);
  }

  // ------------------------------------------------------------------ bytes

  /** All bytes the device ever took into commands, and the pending ones. */
  function Bytes(d: Device): nat {
    |Flatten(d.log)| + |d.pending|
  }

  lemma BytesAppend(log: seq<Data>, cs: seq<Data>, rest: Data)
    ensures Bytes(Device(log + cs, rest)) == |Flatten(log)| + |Flatten(cs)| + |rest|
  {
    FlattenAppend(log, cs);
  }

  /** Every byte written is in a command or pending. */
  lemma ReferenceConservesBytes(d: Device, data: Data)
    ensures Bytes(ReferenceWrite(d, data)) == Bytes(d) + |data|
  {
    var all := d.pending + data;
    SplitSound(all);
    BytesAppend(d.log, Split(all), Tail(all));
    assert |all| == |Flatten(Split(all))| + |Tail(all)|;
  }

  /** What the commands `cs` have in bytes beyond those up to `end`, from `start` on. */
  ghost predicate Exceeds(cs: seq<Data>, end: nat, start: nat) {
    if cs == [] then end == start else |Flatten(cs)| >= end
  }

  lemma ExceedsCons(c: Data, cs: seq<Data>, end: nat, next: nat)
    requires Exceeds(cs, end, next) && |c| == next
    ensures Exceeds([c] + cs, end, 0)
  {
    FlattenCons(c, cs);
    if cs == [] {
      assert Flatten(cs) == [];
    }
  }

  lemma ExcessStep(all: Data, start: nat, n: nat, b: nat, junk: Junk)
    requires start + n <= |all| && Memchr(all, start, n) == Some(b)
    requires var rest := Loop(FromBuffer, all, b + 1, Shrink(n, b + 1), junk); Exceeds(rest.0, rest.1, b + 1)
    ensures var r := Loop(FromBuffer, all, start, n, junk); Exceeds(r.0, r.1, start)
  {
    var rest := Loop(FromBuffer, all, b + 1, Shrink(n, b + 1), junk);
    LoopUnfold(FromBuffer, all, start, n, b, junk);
    ExceedsCons(Slice(all, start, b + 1, junk(start)), rest.0, rest.1, b + 1);
  }

  /** A command that starts at `start` is counted with `start` bytes too many. */
  lemma {:induction false} LoopExcess(all: Data, start: nat, n: nat, junk: Junk)
    requires start + n <= |all|
    ensures var r := Loop(FromBuffer, all, start, n, junk); Exceeds(r.0, r.1, start)
    decreases n
  {
    var f := Memchr(all, start, n);
    if f.Some? {
      LoopExcess(all, f.value + 1, Shrink(n, f.value + 1), junk);
      ExcessStep(all, start, n, f.value, junk);
    }
  }

  lemma LaterExcess(all: Data, b: nat, junk: Junk)
    requires b + 1 <= |all| && Newlines(all[b + 1..]) > 0
    ensures var rest := Loop(FromBuffer, all, b + 1, |all| - (b + 1), junk);
            |Flatten(rest.0)| >= rest.1
  {
    NewlineFound(all, b + 1, junk);
    LoopExcess(all, b + 1, |all| - (b + 1), junk);
  }

  lemma FirstExcess(all: Data, b: nat, junk: Junk)
    requires Memchr(all, 0, |all|) == Some(b) && Newlines(all[b + 1..]) > 0
    ensures var r := Loop(FromBuffer, all, 0, |all|, junk);
            |Flatten(r.0)| > r.1
  {
    FirstCommand(all, b, junk);
    LaterExcess(all, b, junk);
    FlattenCons(all[..b + 1], Loop(FromBuffer, all, b + 1, |all| - (b + 1), junk).0);
  }

  lemma LiteralExcess(all: Data, junk: Junk)
    requires Newlines(all) >= 2
    ensures var r := Loop(FromBuffer, all, 0, |all|, junk);
            |Flatten(r.0)| > r.1
  {
    var b := FirstOfMany(all);
    FirstExcess(all, b, junk);
  }

  /** The write as coded conserves bytes exactly when it meets at most one newline; otherwise it adds some. */
  lemma LiteralBytesExact(d: Device, data: Data, junk: Junk)
    ensures Bytes(LiteralWrite(d, data, junk)) == Bytes(d) + |data| <==> Newlines(d.pending + data) <= 1
  {
    var all := d.pending + data;
    if Newlines(all) <= 1 {
      LiteralWriteExact(d, data, junk);
      ReferenceConservesBytes(d, data);
    } else {
      var r := Loop(FromBuffer, all, 0, |all|, junk);
      LiteralExcess(all, junk);
      BytesAppend(d.log, r.0, all[r.1..]);
    }
  }

  // ------------------------------------------------------ streams of writes

  datatype WriteOp = WriteOp(data: Data, junk: Junk)

  function RunReference(d: Device, ws: seq<WriteOp>): Device
    decreases |ws|
  {
    if ws == [] then d else RunReference(ReferenceWrite(d, ws[0].data), ws[1..])
  }

  function RunLiteral(d: Device, ws: seq<WriteOp>): Device
    decreases |ws|
  {
    if ws == [] then d else RunLiteral(LiteralWrite(d, ws[0].data, ws[0].junk), ws[1..])
  }

  function Stream(ws: seq<WriteOp>): Data {
    if ws == [] then [] else ws[0].data + Stream(ws[1..])
  }

  /** Two writes leave what one write of both leaves, wherever the cut is. */
  lemma WriteCut(d: Device, a: Data, b: Data)
    ensures ReferenceWrite(ReferenceWrite(d, a), b) == ReferenceWrite(d, a + b)
  {
    var x := d.pending + a;
    SplitConcat(x, b);
    assert x + b == d.pending + (a + b);
    Associate(d.log, Split(x), Split(Tail(x) + b));
  }

  lemma Associate<T>(a: seq<T>, b: seq<T>, c: seq<T>)
    ensures (a + b) + c == a + (b + c)
  {
  }

  /** Any sequence of writes is one write of the whole stream. */
  lemma {:induction false} ReferenceRunIsOneWrite(d: Device, ws: seq<WriteOp>)
    requires NoNewline(d.pending)
    ensures RunReference(d, ws) == ReferenceWrite(d, Stream(ws))
    decreases |ws|
  {
    if ws == [] {
      assert d.pending + [] == d.pending;
      SplitNone(d.pending);
    } else {
      SplitSound(d.pending + ws[0].data);
      ReferenceRunIsOneWrite(ReferenceWrite(d, ws[0].data), ws[1..]);
      WriteCut(d, ws[0].data, Stream(ws[1..]));
    }
  }

  lemma {:induction false} LiteralLogGrows(d: Device, ws: seq<WriteOp>)
    ensures d.log <= RunLiteral(d, ws).log
    decreases |ws|
  {
    if ws != [] {
      LiteralLogGrows(LiteralWrite(d, ws[0].data, ws[0].junk), ws[1..]);
    }
  }

  /** What the promised splitter keeps: whole lines in the log, no newline pending. */
  ghost predicate WellFormed(d: Device) {
    AllTerminated(d.log) && NoNewline(d.pending)
  }

  lemma ReferenceWriteWellFormed(d: Device, data: Data)
    requires AllTerminated(d.log)
    ensures WellFormed(ReferenceWrite(d, data))
  {
    SplitSound(d.pending + data);
  }

  lemma {:induction false} ReferenceRunWellFormed(d: Device, ws: seq<WriteOp>)
    requires WellFormed(d)
    ensures WellFormed(RunReference(d, ws))
    decreases |ws|
  {
    if ws != [] {
      ReferenceWriteWellFormed(d, ws[0].data);
      ReferenceRunWellFormed(ReferenceWrite(d, ws[0].data), ws[1..]);
    }
  }

  lemma NewlinesPending(d: Device, data: Data)
    requires NoNewline(d.pending)
    ensures Newlines(d.pending + data) == Newlines(data)
  {
    NewlinesNone(d.pending);
    NewlinesConcat(d.pending, data);
  }

  /** One write with two newlines spoils the log for good. */
  lemma LiteralRunSpoilt(d: Device, ws: seq<WriteOp>)
    requires WellFormed(d) && ws != [] && Newlines(ws[0].data) > 1
    ensures RunLiteral(d, ws) != RunReference(d, ws)
  {
    var all := d.pending + ws[0].data;
    var cs := Loop(FromBuffer, all, 0, |all|, ws[0].junk).0;
    NewlinesPending(d, ws[0].data);
    LiteralLoopWrong(all, ws[0].junk);
    LiteralLogGrows(LiteralWrite(d, ws[0].data, ws[0].junk), ws[1..]);
    ReferenceRunWellFormed(d, ws);
    var at := |d.log| + |cs| - 1;
    assert (d.log + cs)[at] == cs[|cs| - 1];
    assert RunLiteral(d, ws).log[at] == cs[|cs| - 1];
  }

  /** The code follows the splitter over a whole run exactly when no write carries two newlines. */
  lemma {:induction false} LiteralRunExact(d: Device, ws: seq<WriteOp>)
    requires WellFormed(d)
    ensures RunLiteral(d, ws) == RunReference(d, ws) <==> forall w :: w in ws ==> Newlines(w.data) <= 1
    decreases |ws|
  {
    if ws != [] {
      if Newlines(ws[0].data) > 1 {
        LiteralRunSpoilt(d, ws);
      } else {
        NewlinesPending(d, ws[0].data);
        LiteralWriteExact(d, ws[0].data, ws[0].junk);
        ReferenceWriteWellFormed(d, ws[0].data);
        LiteralRunExact(ReferenceWrite(d, ws[0].data), ws[1..]);
        assert forall w :: w in ws ==> w == ws[0] || w in ws[1..];
      }
    }
  }

  /**
   From a fresh device, for every sequence of writes: the code leaves the lines
   of the whole byte stream in the log and its unterminated tail pending exactly
   when each write carries at most one newline.
   */
  lemma StreamTheorem(ws: seq<WriteOp>)
    ensures RunLiteral(FRESH, ws) == Device(Split(Stream(ws)), Tail(Stream(ws)))
            <==> forall w :: w in ws ==> Newlines(w.data) <= 1
  {
    LiteralRunExact(FRESH, ws);
    ReferenceRunIsOneWrite(FRESH, ws);
    assert [] + Stream(ws) == Stream(ws);
    assert [] + Split(Stream(ws)) == Split(Stream(ws));
  }
}
