/**
 The write as coded, in closed form: which commands it adds and what bytes they
 hold, for any number of newlines, said of the lines of the stream alone.
 */
module Coded {
  import opened Lines
  import opened Ledger
  import opened Store

  /** Where the `k`-th line of a stream starts, and where the one before it ends. */
  ghost function End(ls: seq<Data>, k: nat): nat
    requires k <= |ls|
  {
    |Flatten(ls[..k])|
  }

  /** What the loop has taken off `read_size` after `k` rounds: the ends of the first `k` lines. */
  ghost function Deducted(ls: seq<Data>, k: nat): nat
    requires k <= |ls|
  {
    if k == 0 then 0 else Deducted(ls, k - 1) + End(ls, k)
  }

  /** The line is there, and what is left of `read_size` covers it. */
  ghost predicate Reached(all: Data, k: nat) {
    k < |Split(all)| && Deducted(Split(all), k) + |Split(all)[k]| <= |all|
  }

  /**
   The command added for the `k`-th line begins with that line, but has as many
   bytes as lie before the line's end in the whole buffer; those past the end of
   the buffer are what memory holds there.
   */
  ghost predicate CodedCommand(all: Data, k: nat, c: Data, junk: Junk)
    requires k < |Split(all)|
  {
    var start := End(Split(all), k);
    && |c| == End(Split(all), k + 1)
    && forall j :: 0 <= j < |c| ==> c[j] == if start + j < |all| then all[start + j] else junk(start)(start + j)
  }

  /** The commands of the lines that are reached, and the rest pending. */
  ghost predicate CodedForm(d: Device, data: Data, d': Device, junk: Junk) {
    var all := d.pending + data;
    && d.log <= d'.log
    && var added := d'.log[|d.log|..];
       && |added| <= |Split(all)|
       && (forall k :: 0 <= k < |Split(all)| ==> (k < |added| <==> Reached(all, k)))
       && (forall k :: 0 <= k < |added| ==> CodedCommand(all, k, added[k], junk))
       && d'.pending == SuffixAt(all, End(Split(all), |added|))
  }

  function SuffixAt(d: Data, k: nat): Data {
    if k <= |d| then d[k..] else []
  }

  // ------------------------------------------------------------------- lines

  lemma EndStep(ls: seq<Data>, k: nat)
    requires k < |ls|
    ensures End(ls, k + 1) == End(ls, k) + |ls[k]|
  {
    assert ls[..k + 1] == ls[..k] + [ls[k]];
    FlattenAppend(ls[..k], [ls[k]]);
    FlattenOne(ls[k]);
  }

  lemma LinePlace(ls: seq<Data>, t: Data, k: nat)
    requires k < |ls|
    ensures var d, s := Flatten(ls) + t, End(ls, k);
            s + |ls[k]| <= |d| && d[s..s + |ls[k]|] == ls[k]
  {
    var before, rest := Flatten(ls[..k]), Flatten(ls[k + 1..]);
    assert ls == ls[..k] + ([ls[k]] + ls[k + 1..]);
    FlattenAppend(ls[..k], [ls[k]] + ls[k + 1..]);
    FlattenCons(ls[k], ls[k + 1..]);
    Middle(before, ls[k], rest, t);
  }

  lemma Middle(a: Data, b: Data, c: Data, t: Data)
    ensures ((a + (b + c)) + t)[|a|..|a| + |b|] == b
  {
  }

  lemma LineAt(all: Data, k: nat)
    requires k < |Split(all)|
    ensures var s, line := End(Split(all), k), Split(all)[k];
            && Terminated(line) && End(Split(all), k + 1) == s + |line| <= |all| && all[s..s + |line|] == line
  {
    SplitSound(all);
    LinePlace(Split(all), Tail(all), k);
    EndStep(Split(all), k);
  }

  /** Behind the last line no newline is left. */
  lemma NoLineLeft(all: Data)
    ensures End(Split(all), |Split(all)|) <= |all| && NoNewline(all[End(Split(all), |Split(all)|)..])
  {
    SplitSound(all);
    assert Split(all)[..|Split(all)|] == Split(all);
    assert (Flatten(Split(all)) + Tail(all))[|Flatten(Split(all))|..] == Tail(all);
  }

  lemma MemchrLine(all: Data, start: nat, n: nat, line: Data)
    requires start + n <= |all| && start + |line| <= |all|
    requires Terminated(line) && all[start..start + |line|] == line
    ensures Memchr(all, start, n) == if |line| <= n then Some(start + |line| - 1) else None
  {
    var last := start + |line| - 1;
    assert all[last] == line[|line| - 1];
    forall j | start <= j < last
      ensures all[j] != NL
    {
      assert all[j] == line[..|line| - 1][j - start];
    }
  }

  lemma MemchrNone(all: Data, start: nat, n: nat)
    requires start + n <= |all| && NoNewline(all[start..])
    ensures Memchr(all, start, n) == None
  {
    forall j | start <= j < start + n
      ensures all[j] != NL
    {
      assert all[j] == all[start..][j - start];
    }
  }

  // -------------------------------------------------------------------- loop

  /** What is left of `read_size` after `k` rounds. */
  ghost function Left(all: Data, k: nat): nat
    requires k <= |Split(all)|
  {
    Shrink(|all|, Deducted(Split(all), k))
  }

  /** The commands `cs` are those from the `k`-th line on, as far as the loop gets, and it stops at `end`. */
  ghost predicate AsCoded(all: Data, k: nat, cs: seq<Data>, end: nat, junk: Junk)
    decreases |cs|
  {
    k <= |Split(all)| &&
    if cs == [] then end == End(Split(all), k) && !Reached(all, k)
    else Reached(all, k) && CodedCommand(all, k, cs[0], junk) && AsCoded(all, k + 1, cs[1..], end, junk)
  }

  lemma LoopStops(all: Data, k: nat, junk: Junk)
    requires k <= |Split(all)| && !Reached(all, k)
    requires End(Split(all), k) + Left(all, k) <= |all|
    ensures var r := Loop(FromBuffer, all, End(Split(all), k), Left(all, k), junk);
            r.0 == [] && r.1 == End(Split(all), k)
  {
    if k < |Split(all)| {
      LineAt(all, k);
      MemchrLine(all, End(Split(all), k), Left(all, k), Split(all)[k]);
    } else {
      NoLineLeft(all);
      MemchrNone(all, End(Split(all), k), Left(all, k));
    }
  }

  lemma LoopRound(all: Data, start: nat, n: nat, size: nat, n': nat, junk: Junk)
    requires start + n <= |all| && size > 0 && Memchr(all, start, n) == Some(size - 1)
    requires n' == Shrink(n, size)
    ensures size + n' <= |all|
    ensures var r, rest := Loop(FromBuffer, all, start, n, junk), Loop(FromBuffer, all, size, n', junk);
            r.0 == [Slice(all, start, size, junk(start))] + rest.0 && r.1 == rest.1
  {
    LoopUnfold(FromBuffer, all, start, n, size - 1, junk);
  }

  lemma ShrinkTwice(all: nat, a: nat, b: nat)
    ensures Shrink(Shrink(all, a), b) == Shrink(all, a + b)
  {
  }

  lemma LeftStep(all: Data, k: nat)
    requires k < |Split(all)|
    ensures Left(all, k + 1) == Shrink(Left(all, k), End(Split(all), k + 1))
    ensures Reached(all, k) <==> |Split(all)[k]| <= Left(all, k)
  {
    ShrinkTwice(|all|, Deducted(Split(all), k), End(Split(all), k + 1));
    LineAt(all, k);
  }

  lemma LineFound(all: Data, k: nat, start: nat, n: nat)
    requires k < |Split(all)| && start == End(Split(all), k)
    requires start + n <= |all| && |Split(all)[k]| <= n
    ensures End(Split(all), k + 1) > 0 && Memchr(all, start, n) == Some(End(Split(all), k + 1) - 1)
  {
    LineAt(all, k);
    MemchrLine(all, start, n, Split(all)[k]);
  }

  lemma SliceCoded(all: Data, k: nat, junk: Junk)
    requires k < |Split(all)|
    ensures var start := End(Split(all), k);
            CodedCommand(all, k, Slice(all, start, End(Split(all), k + 1), junk(start)), junk)
  {
  }

  lemma {:induction false} LoopCoded(all: Data, k: nat, junk: Junk)
    requires k <= |Split(all)| && End(Split(all), k) + Left(all, k) <= |all|
    ensures var r := Loop(FromBuffer, all, End(Split(all), k), Left(all, k), junk);
            AsCoded(all, k, r.0, r.1, junk)
    decreases |Split(all)| - k
  {
    if Reached(all, k) {
      LeftStep(all, k);
      LineFound(all, k, End(Split(all), k), Left(all, k));
      LoopRound(all, End(Split(all), k), Left(all, k), End(Split(all), k + 1), Left(all, k + 1), junk);
      LoopCoded(all, k + 1, junk);
      SliceCoded(all, k, junk);
    } else {
      LoopStops(all, k, junk);
    }
  }

  // ------------------------------------------------------------- closed form

  /** Once a line is not reached, none after it is. */
  lemma {:induction false} UnreachedStays(all: Data, k: nat, m: nat)
    requires !Reached(all, k) && k <= m
    ensures !Reached(all, m)
    decreases m - k
  {
    if k < m {
      if k + 1 < |Split(all)| {
        EndStep(Split(all), k);
      }
      UnreachedStays(all, k + 1, m);
    }
  }

  lemma {:induction false} CodedAt(all: Data, k: nat, cs: seq<Data>, end: nat, junk: Junk)
    requires AsCoded(all, k, cs, end, junk)
    ensures k + |cs| <= |Split(all)| && end == End(Split(all), k + |cs|) && !Reached(all, k + |cs|)
    ensures forall m :: k <= m < k + |cs| ==> Reached(all, m) && CodedCommand(all, m, cs[m - k], junk)
    decreases |cs|
  {
    if cs != [] {
      CodedAt(all, k + 1, cs[1..], end, junk);
      assert k + 1 + |cs[1..]| == k + |cs|;
      forall m | k <= m < k + |cs|
        ensures Reached(all, m) && CodedCommand(all, m, cs[m - k], junk)
      {
        if m > k {
          assert cs[m - k] == cs[1..][m - (k + 1)];
        }
      }
    }
  }

  lemma CodedFromStart(all: Data, cs: seq<Data>, end: nat, junk: Junk)
    requires AsCoded(all, 0, cs, end, junk)
    ensures |cs| <= |Split(all)| && end == End(Split(all), |cs|)
    ensures forall k :: 0 <= k < |Split(all)| ==> (k < |cs| <==> Reached(all, k))
    ensures forall k :: 0 <= k < |cs| ==> CodedCommand(all, k, cs[k], junk)
  {
    CodedAt(all, 0, cs, end, junk);
    forall k | |cs| <= k < |Split(all)|
      ensures !Reached(all, k)
    {
      UnreachedStays(all, |cs|, k);
    }
    forall k | 0 <= k < |cs|
      ensures CodedCommand(all, k, cs[k], junk)
    {
      assert Reached(all, k) && k - 0 == k;
    }
  }

  lemma LoopFromStart(all: Data, junk: Junk)
    ensures AsCoded(all, 0, Loop(FromBuffer, all, 0, |all|, junk).0, Loop(FromBuffer, all, 0, |all|, junk).1, junk)
  {
    assert Split(all)[..0] == [];
    LoopCoded(all, 0, junk);
  }

  lemma CodedHolds(d: Device, data: Data, junk: Junk)
    ensures CodedForm(d, data, LiteralWrite(d, data, junk), junk)
  {
    var all := d.pending + data;
    var r := Loop(FromBuffer, all, 0, |all|, junk);
    LoopFromStart(all, junk);
    CodedFromStart(all, r.0, r.1, junk);
    assert (d.log + r.0)[|d.log|..] == r.0;
  }

  lemma SameCommand(all: Data, k: nat, c: Data, c': Data, junk: Junk)
    requires k < |Split(all)| && CodedCommand(all, k, c, junk) && CodedCommand(all, k, c', junk)
    ensures c == c'
  {
  }

  lemma SameCount(all: Data, n: nat, n': nat)
    requires n <= |Split(all)| && n' <= |Split(all)|
    requires forall k :: 0 <= k < |Split(all)| ==> (k < n <==> Reached(all, k))
    requires forall k :: 0 <= k < |Split(all)| ==> (k < n' <==> Reached(all, k))
    ensures n == n'
  {
    assert n < |Split(all)| ==> !Reached(all, n);
    assert n' < |Split(all)| ==> !Reached(all, n');
  }

  lemma CodedUnique(d: Device, data: Data, d1: Device, d2: Device, junk: Junk)
    requires CodedForm(d, data, d1, junk) && CodedForm(d, data, d2, junk)
    ensures d1 == d2
  {
    var all := d.pending + data;
    var a1, a2 := d1.log[|d.log|..], d2.log[|d.log|..];
    SameCount(all, |a1|, |a2|);
    forall k | 0 <= k < |a1|
      ensures a1[k] == a2[k]
    {
      SameCommand(all, k, a1[k], a2[k], junk);
    }
    assert a1 == a2;
    assert d1.log == d.log + a1 && d2.log == d.log + a2;
  }

  /** The write as coded is just what its closed form says, for every buffer and every memory behind it. */
  lemma LiteralWriteCoded(d: Device, data: Data, d': Device, junk: Junk)
    ensures d' == LiteralWrite(d, data, junk) <==> CodedForm(d, data, d', junk)
  {
    CodedHolds(d, data, junk);
    if CodedForm(d, data, d', junk) {
      CodedUnique(d, data, d', LiteralWrite(d, data, junk), junk);
    }
  }
}
