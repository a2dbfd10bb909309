/**
 Byte strings and the newline splitting that the driver and the server both
 promise: a stream is a sequence of newline-terminated lines and an
 unterminated tail.
 */
module Lines {

  newtype byte = x: int | 0 <= x < 256

  type Data = seq<byte>

  const NL: byte := 10

  datatype Option<+T> = None | Some(value: T)

  predicate NoNewline(d: Data) {
    NL !in d
  }

  /** Exactly one newline, and it is the last byte. */
  predicate Terminated(line: Data) {
    |line| > 0 && line[|line| - 1] == NL && NoNewline(line[..|line| - 1])
  }

  predicate AllTerminated(ls: seq<Data>) {
    forall k :: 0 <= k < |ls| ==> Terminated(ls[k])
  }

  function Newlines(d: Data): nat {
    if d == [] then 0 else (if d[0] == NL then 1 else 0) + Newlines(d[1..])
  }

  /** `memchr` over `d[start..start + n]`, as an index into `d`. */
  function Memchr(d: Data, start: nat, n: nat): (r: Option<nat>)
    requires start + n <= |d|
    ensures r.None? ==> forall j :: start <= j < start + n ==> d[j] != NL
    ensures r.Some? ==> start <= r.value < start + n && d[r.value] == NL
    ensures r.Some? ==> forall j :: start <= j < r.value ==> d[j] != NL
    decreases n
  {
    if n == 0 then None
    else if d[start] == NL then Some(start)
    else Memchr(d, start + 1, n - 1)
  }

  function Flatten(ss: seq<Data>): Data {
    if ss == [] then [] else ss[0] + Flatten(ss[1..])
  }

  /** The newline-terminated lines of a stream, each with its newline. */
  function Split(d: Data): seq<Data>
    decreases |d|
  {
    match Memchr(d, 0, |d|)
    case None => []
    case Some(i) => [d[..i + 1]] + Split(d[i + 1..])
  }

  /** What follows the last newline of a stream. */
  function Tail(d: Data): Data
    decreases |d|
  {
    match Memchr(d, 0, |d|)
    case None => d
    case Some(i) => Tail(d[i + 1..])
  }

  lemma FlattenCons(d: Data, ss: seq<Data>)
    ensures Flatten([d] + ss) == d + Flatten(ss)
  {
    assert ([d] + ss)[1..] == ss;
  }

  lemma {:induction false} FlattenAppend(a: seq<Data>, b: seq<Data>)
    ensures Flatten(a + b) == Flatten(a) + Flatten(b)
  {
    if a == [] {
      assert a + b == b;
    } else {
      assert (a + b)[0] == a[0] && (a + b)[1..] == a[1..] + b;
      FlattenAppend(a[1..], b);
    }
  }

  lemma FlattenOne(d: Data)
    ensures Flatten([d]) == d
  {
    assert Flatten([d]) == d + Flatten([]);
  }

  /** Splitting loses nothing, and its pieces are what they are called. */
  lemma {:induction false} SplitSound(d: Data)
    ensures Flatten(Split(d)) + Tail(d) == d
    ensures AllTerminated(Split(d))
    ensures NoNewline(Tail(d))
    decreases |d|
  {
    match Memchr(d, 0, |d|)
    case None =>
    case Some(i) =>
      var line, after := d[..i + 1], d[i + 1..];
      SplitSound(after);
      FirstLineTerminated(d, i);
      SplitCons(line, after, Split(after), Tail(after));
      assert d == line + after;
  }

  lemma FirstLineTerminated(d: Data, i: nat)
    requires Memchr(d, 0, |d|) == Some(i)
    ensures Terminated(d[..i + 1])
  {
  }

  lemma SplitCons(line: Data, after: Data, ls: seq<Data>, t: Data)
    requires Terminated(line) && AllTerminated(ls) && Flatten(ls) + t == after
    ensures AllTerminated([line] + ls) && Flatten([line] + ls) + t == line + after
  {
    FlattenCons(line, ls);
    assert (line + Flatten(ls)) + t == line + (Flatten(ls) + t);
  }

  lemma MemchrFirst(d: Data, n: nat)
    requires n < |d| && d[n] == NL
    requires forall j :: 0 <= j < n ==> d[j] != NL
    ensures Memchr(d, 0, |d|) == Some(n)
  {
  }

  /** There is only one way to write a stream as terminated lines and a newline-free tail. */
  lemma {:induction false} SplitUnique(d: Data, ls: seq<Data>, t: Data)
    requires AllTerminated(ls)
    requires NoNewline(t)
    requires Flatten(ls) + t == d
    ensures ls == Split(d) && t == Tail(d)
    decreases |ls|
  {
    if ls == [] {
      assert d == t;
    } else {
      var l := ls[0];
      assert Flatten(ls) == l + Flatten(ls[1..]);
      var rest := Flatten(ls[1..]) + t;
      assert d == l + rest;
      var n := |l| - 1;
      assert forall j :: 0 <= j < n ==> d[j] == l[..n][j] && d[j] in l[..n];
      MemchrFirst(d, n);
      var i := n;
      assert d[..i + 1] == l && d[i + 1..] == rest;
      SplitUnique(rest, ls[1..], t);
      assert ls == [l] + ls[1..];
    }
  }

  /** Cutting a stream in two and carrying the tail over changes nothing. */
  lemma SplitConcat(a: Data, b: Data)
    ensures Split(a + b) == Split(a) + Split(Tail(a) + b)
    ensures Tail(a + b) == Tail(Tail(a) + b)
  {
    SplitSound(a);
    SplitSound(Tail(a) + b);
    SplitPieces(a, b, Split(a), Tail(a), Split(Tail(a) + b), Tail(Tail(a) + b));
  }

  lemma SplitPieces(a: Data, b: Data, la: seq<Data>, ta: Data, lb: seq<Data>, tb: Data)
    requires AllTerminated(la) && AllTerminated(lb)
    requires NoNewline(tb)
    requires Flatten(la) + ta == a && Flatten(lb) + tb == ta + b
    ensures la + lb == Split(a + b) && tb == Tail(a + b)
  {
    FlattenAppend(la, lb);
    Reassociate(Flatten(la), Flatten(lb), tb, ta, b);
    SplitUnique(a + b, la + lb, tb);
  }

  lemma Reassociate(x: Data, y: Data, t: Data, u: Data, b: Data)
    requires y + t == u + b
    ensures (x + y) + t == (x + u) + b
  {
    assert (x + y) + t == x + (y + t);
    assert (x + u) + b == x + (u + b);
  }

  lemma SplitNone(d: Data)
    requires NoNewline(d)
    ensures Split(d) == [] && Tail(d) == d
  {
    SplitUnique(d, [], d);
  }

  /** A newline-free body closed by its newline is one line and no tail. */
  lemma SplitLine(body: Data)
    requires NoNewline(body)
    ensures Split(body + [NL]) == [body + [NL]] && Tail(body + [NL]) == []
  {
    var line := body + [NL];
    assert line[..|line| - 1] == body;
    FlattenOne(line);
    SplitUnique(line, [line], []);
  }

  lemma {:induction false} NewlinesConcat(a: Data, b: Data)
    ensures Newlines(a + b) == Newlines(a) + Newlines(b)
  {
    if a == [] {
      assert a + b == b;
    } else {
      assert (a + b)[1..] == a[1..] + b;
      NewlinesConcat(a[1..], b);
    }
  }

  lemma {:induction false} NewlinesNone(d: Data)
    ensures Newlines(d) == 0 <==> NoNewline(d)
  {
    if d != [] {
      NewlinesNone(d[1..]);
      assert d == [d[0]] + d[1..];
    }
  }

  /** The first newline found is one newline fewer ahead. */
  lemma NewlinesAfter(d: Data, b: nat)
    requires Memchr(d, 0, |d|) == Some(b)
    ensures Newlines(d) == 1 + Newlines(d[b + 1..])
  {
    NewlinesConcat(d[..b], d[b..]);
    NewlinesNone(d[..b]);
    assert d == d[..b] + d[b..];
    assert d[b..][1..] == d[b + 1..];
  }

  lemma {:induction false} SplitCount(d: Data)
    ensures |Split(d)| == Newlines(d)
    decreases |d|
  {
    match Memchr(d, 0, |d|)
    case None =>
      NewlinesNone(d);
    case Some(b) =>
      NewlinesAfter(d, b);
      SplitCount(d[b + 1..]);
  }

}
