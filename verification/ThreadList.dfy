/**
 The thread manager's singly linked list. The abstract list is a sequence of
 records, newest first; the class is the pointer code.
 */
module ThreadList {
  import opened Lines

  /** `conn` is the identity of the allocated entry, `tid` the thread id it carries. */
  datatype Entry = Entry(conn: nat, tid: nat, complete: bool)

  /** The position of the first entry with the given thread id. */
  function Find(es: seq<Entry>, tid: nat): (r: Option<nat>)
    ensures r.Some? ==> r.value < |es| && es[r.value].tid == tid
    ensures r.Some? ==> forall j :: 0 <= j < r.value ==> es[j].tid != tid
    ensures r.None? ==> forall j :: 0 <= j < |es| ==> es[j].tid != tid
  {
    if es == [] then None
    else if es[0].tid == tid then Some(0)
    else
      match Find(es[1..], tid)
      case None => None
      case Some(k) => Some(k + 1)
  }

  lemma FindIs(es: seq<Entry>, tid: nat, k: nat)
    requires k < |es| && es[k].tid == tid
    requires forall j :: 0 <= j < k ==> es[j].tid != tid
    ensures Find(es, tid) == Some(k)
  {
    var r := Find(es, tid);
    assert r.Some? && !(r.value < k) && !(k < r.value);
  }

  /** The entries but the `k`-th. */
  function Without<T>(s: seq<T>, k: nat): (r: seq<T>)
    requires k < |s|
    ensures |r| == |s| - 1
    ensures forall i :: 0 <= i < |r| ==> r[i] == if i < k then s[i] else s[i + 1]
  {
    s[..k] + s[k + 1..]
  }

  function MarkFirst(es: seq<Entry>, tid: nat): seq<Entry> {
    match Find(es, tid)
    case None => es
    case Some(k) => es[k := es[k].(complete := true)]
  }

  function RemoveFirst(es: seq<Entry>, tid: nat): seq<Entry> {
    match Find(es, tid)
    case None => es
    case Some(k) => Without(es, k)
  }

  class ThreadEntry {
    ghost const conn: nat
    const threadId: nat
    var isComplete: bool
    var next: ThreadEntry?

    constructor (threadId: nat, ghost conn: nat)
      ensures this.threadId == threadId && this.conn == conn && !isComplete && next == null
    {
      this.threadId, this.conn, isComplete, next := threadId, conn, false, null;
    }
  }

  ghost function NodeAt(spine: seq<ThreadEntry>, i: nat): ThreadEntry? {
    if i < |spine| then spine[i] else null
  }

  ghost predicate Distinct(spine: seq<ThreadEntry>) {
    forall i, j :: 0 <= i < j < |spine| ==> spine[i] != spine[j]
  }

  /** The list from `head` runs through exactly these entries, in this order. */
  ghost predicate Linked(head: ThreadEntry?, spine: seq<ThreadEntry>)
    reads spine`next
  {
    && head == NodeAt(spine, 0)
    && forall i :: 0 <= i < |spine| ==> spine[i].next == NodeAt(spine, i + 1)
  }

  ghost function RecordOf(e: ThreadEntry): Entry
    reads e`isComplete
  {
    Entry(e.conn, e.threadId, e.isComplete)
  }

  ghost function Records(spine: seq<ThreadEntry>): (r: seq<Entry>)
    reads spine`isComplete
    ensures |r| == |spine|
  {
    if spine == [] then [] else [RecordOf(spine[0])] + Records(spine[1..])
  }

  lemma {:induction false} RecordsAt(spine: seq<ThreadEntry>, k: nat)
    requires k < |spine|
    ensures Records(spine)[k] == RecordOf(spine[k])
  {
    if k > 0 {
      RecordsAt(spine[1..], k - 1);
    }
  }

  function Ids(spine: seq<ThreadEntry>): (r: seq<nat>)
    ensures |r| == |spine| && forall i :: 0 <= i < |r| ==> r[i] == spine[i].threadId
  {
    if spine == [] then [] else [spine[0].threadId] + Ids(spine[1..])
  }

  lemma IdsAppend(s: seq<ThreadEntry>, k: nat)
    requires k < |s|
    ensures s[..k + 1] == s[..k] + [s[k]] && Ids(s[..k + 1]) == Ids(s[..k]) + [s[k].threadId]
  {
    var a, b := Ids(s[..k + 1]), Ids(s[..k]) + [s[k].threadId];
    assert forall i :: 0 <= i < |a| ==> a[i] == b[i];
  }

  lemma DistinctWithout(s: seq<ThreadEntry>, k: nat)
    requires Distinct(s) && k < |s|
    ensures Distinct(Without(s, k))
  {
  }

  lemma RecordsWithoutAt(s: seq<ThreadEntry>, k: nat, i: nat)
    requires k < |s| && i < |s| - 1
    ensures Records(Without(s, k))[i] == Without(Records(s), k)[i]
  {
    var j := if i < k then i else i + 1;
    RecordsAt(Without(s, k), i);
    RecordsAt(s, j);
    assert Without(s, k)[i] == s[j];
    assert Without(Records(s), k)[i] == Records(s)[j];
  }

  lemma RecordsWithout(s: seq<ThreadEntry>, k: nat)
    requires k < |s|
    ensures Records(Without(s, k)) == Without(Records(s), k)
  {
    forall i | 0 <= i < |s| - 1
      ensures Records(Without(s, k))[i] == Without(Records(s), k)[i]
    {
      RecordsWithoutAt(s, k, i);
    }
  }

  class ThreadManager {
    var head: ThreadEntry?

    ghost var spine: seq<ThreadEntry>
    ghost var joined: seq<nat>
    ghost var freed: seq<ThreadEntry>

    ghost predicate Valid()
      reads this, spine`next
    {
      Linked(head, spine) && Distinct(spine)
    }

    ghost function Entries(): (r: seq<Entry>)
      reads this, spine`isComplete
      ensures |r| == |spine|
    {
      Records(spine)
    }

    constructor ()
      ensures Valid() && Entries() == [] && joined == [] && freed == []
    {
      head, spine, joined, freed := null, [], [], [];
    }

    /** `SLIST_INSERT_HEAD`. */
    method Add(entry: ThreadEntry)
      requires Valid() && entry !in spine
      modifies this`head, this`spine, entry`next
      ensures Valid() && spine == [entry] + old(spine)
      ensures Entries() == [RecordOf(entry)] + old(Entries())
    {
      entry.next := head;
      head := entry;
      spine := [entry] + spine;
    }

    /** The first entry with the id, by walking the list; null if there is none. */
    method Search(threadId: nat) returns (current: ThreadEntry?)
      requires Valid()
      ensures current == match Find(Entries(), threadId)
                         case None => null
                         case Some(k) => NodeAt(spine, k)
    {
      current := head;
      ghost var at := 0;
      while current != null && current.threadId != threadId
        invariant at <= |spine| && current == NodeAt(spine, at)
        invariant forall j :: 0 <= j < at ==> Entries()[j].tid != threadId
        decreases |spine| - at
      {
        RecordsAt(spine, at);
        current := current.next;
        at := at + 1;
      }
      if current != null {
        RecordsAt(spine, at);
        FindIs(Entries(), threadId, at);
      }
    }

    method MarkComplete(threadId: nat) returns (rc: int)
      requires Valid()
      modifies spine`isComplete
      ensures Valid() && Entries() == MarkFirst(old(Entries()), threadId)
      ensures rc == if Find(old(Entries()), threadId).Some? then 0 else -1
    {
      var current := Search(threadId);
      if current != null {
        ghost var at := Find(Entries(), threadId).value;
        ghost var es := Entries();
        forall i | 0 <= i < |spine|
          ensures es[i] == RecordOf(spine[i])
        {
          RecordsAt(spine, i);
        }
        current.isComplete := true;
        forall i | 0 <= i < |spine|
          ensures Entries()[i] == es[at := es[at].(complete := true)][i]
        {
          RecordsAt(spine, i);
        }
        return 0;
      }
      return -1;
    }

    method UnlinkHead()
      requires Valid() && head != null
      modifies this`head, this`spine
      ensures Valid() && spine == Without(old(spine), 0)
      ensures Entries() == Without(old(Entries()), 0)
    {
      RecordsWithout(spine, 0);
      head := head.next;
      spine := Without(spine, 0);
    }

    method UnlinkAfter(current: ThreadEntry, ghost at: nat)
      requires Valid() && 0 < at < |spine| && current == spine[at - 1]
      modifies this`spine, current`next
      ensures Valid() && spine == Without(old(spine), at)
      ensures Entries() == Without(old(Entries()), at)
    {
      ghost var was := spine;
      RecordsWithout(was, at);
      assert current.next == was[at];
      current.next := current.next.next;
      spine := Without(spine, at);
      DistinctWithout(was, at);
      forall i | 0 <= i < |spine|
        ensures spine[i].next == NodeAt(spine, i + 1)
      {
        if i < at {
          assert spine[i] == was[i] && (i == at - 1 || was[i] != current);
        } else {
          assert spine[i] == was[i + 1] && was[i + 1] != current;
        }
      }
    }

    method Predecessor(entry: ThreadEntry, ghost at: nat) returns (current: ThreadEntry)
      requires Valid() && 0 < at < |spine| && entry == spine[at]
      ensures current == spine[at - 1]
    {
      current := head;
      ghost var i := 0;
      while current.next != entry
        invariant i < at && current == spine[i]
        decreases at - i
      {
        current := current.next;
        i := i + 1;
      }
      assert spine[i + 1] == entry;
    }

    /** `SLIST_REMOVE` of the `at`-th entry: unlinks it, its predecessor found from the head. */
    method Unlink(entry: ThreadEntry, ghost at: nat)
      requires Valid() && at < |spine| && entry == spine[at]
      modifies this`head, this`spine, spine`next
      ensures Valid() && spine == Without(old(spine), at)
      ensures Entries() == Without(old(Entries()), at)
    {
      if head == entry {
        assert at == 0;
        UnlinkHead();
      } else {
        var current := Predecessor(entry, at);
        UnlinkAfter(current, at);
      }
    }

    method Remove(threadId: nat) returns (rc: int)
      requires Valid()
      modifies this`head, this`spine, this`freed, spine`next
      ensures Valid() && Entries() == RemoveFirst(old(Entries()), threadId)
      ensures rc == if Find(old(Entries()), threadId).Some? then 0 else -1
      ensures rc == -1 ==> spine == old(spine) && freed == old(freed)
      ensures rc == 0 ==>
                var k := Find(old(Entries()), threadId).value;
                spine == Without(old(spine), k) && freed == old(freed) + [old(spine)[k]]
    {
      ghost var es := Entries();
      var current := Search(threadId);
      if current == null {
        return -1;
      }
      ghost var at := Find(es, threadId).value;
      Unlink(current, at);
      assert Entries() == Without(es, at);
      freed := freed + [current];
      return 0;
    }

    /** One round of the final loop: joins the first thread, then removes and frees its entry. */
    method JoinHead()
      requires Valid() && head != null
      modifies this, spine`next
      ensures Valid() && spine == old(spine)[1..]
      ensures joined == old(joined) + [old(spine)[0].threadId] && freed == old(freed) + [old(spine)[0]]
    {
      var current := head;
      joined := joined + [current.threadId];
      FindIs(Entries(), current.threadId, 0);
      var rc := Remove(current.threadId);
    }

    /** Joins and frees every entry, newest first. */
    method FreeAll()
      requires Valid()
      modifies this, spine`next
      ensures Valid() && head == null && spine == []
      ensures freed == old(freed) + old(spine)
      ensures joined == old(joined) + Ids(old(spine))
    {
      ghost var s, f, was := spine, freed, joined;
      ghost var k := 0;
      while head != null
        invariant Valid() && k <= |s| && spine == s[k..]
        invariant freed == f + s[..k] && joined == was + Ids(s[..k])
        decreases |spine|
      {
        IdsAppend(s, k);
        JoinHead();
        k := k + 1;
      }
      assert s[..k] == s;
    }
  }
}
