/** pkg/util/workqueue/delaying_queue.go: items wait in a heap ordered by readyAt. */
module DelayingQueue {
  import opened Common
  import opened HeapOrder
  import opened KeyedHeap
  import WorkQueue

  type Item = WorkQueue.Item

  datatype WaitFor = WaitFor(data: Item, readyAt: int)

  function DataKey(w: WaitFor): Option<string> { Some(w.data) }

  predicate Sooner(a: WaitFor, b: WaitFor) { a.readyAt < b.readyAt }

  // ---- What waits, and what was asked for ------------------------------------------------------

  /** insert: an item already waiting keeps the earlier of the two times. */
  function Inserted(m: map<Item, WaitFor>, e: WaitFor): map<Item, WaitFor> {
    if e.data in m && m[e.data].readyAt <= e.readyAt then m else m[e.data := e]
  }

  function Ready(m: map<Item, WaitFor>, now: int): set<Item> {
    set x | x in m && m[x].readyAt <= now
  }

  /** `out` is a release at `now`: each ready item once, earliest first. */
  ghost predicate IsRelease(m: map<Item, WaitFor>, out: seq<Item>, now: int) {
    && Enumerates(out, Ready(m, now))
    && (forall x :: x in out ==> x in m)
    && (forall i, j :: 0 <= i < j < |out| ==> m[out[i]].readyAt <= m[out[j]].readyAt)
  }

  function AddAll(c: WorkQueue.Core, out: seq<Item>): WorkQueue.Core {
    if out == [] then c else WorkQueue.Added(AddAll(c, out[..|out| - 1]), out[|out| - 1])
  }

  class WaitingLoop {
    const inner: WorkQueue.Type
    const waitingForQueue: Heap<WaitFor>
    var waitingEntryByData: map<Item, WaitFor>

    ghost predicate Valid()
      reads this, waitingForQueue
    {
      && waitingForQueue.Valid()
      && (forall w: WaitFor :: waitingForQueue.keyFunc(w) == Some(w.data))
      && (forall a, b :: waitingForQueue.lessFunc(a, b) == Sooner(a, b))
      && waitingForQueue.Contents() == waitingEntryByData
    }

    constructor (inner: WorkQueue.Type)
      ensures Valid() && waitingEntryByData == map[] && this.inner == inner && fresh(waitingForQueue)
    {
      this.inner := inner;
      waitingForQueue := new Heap(DataKey, Sooner);
      waitingEntryByData := map[];
    }

    /** With the heap, its stored positions and the map in agreement throughout. */
    method Insert(entry: WaitFor)
      requires Valid()
      modifies this, waitingForQueue
      ensures Valid() && waitingEntryByData == Inserted(old(waitingEntryByData), entry)
    {
      hide Heap.Valid, Heap.Contents;
      if entry.data in waitingEntryByData {
        var existing := waitingEntryByData[entry.data];
        if existing.readyAt > entry.readyAt {
          var _ := waitingForQueue.Add(entry);
          waitingEntryByData := waitingEntryByData[entry.data := entry];
        }
        return;
      }
      var _ := waitingForQueue.Add(entry);
      waitingEntryByData := waitingEntryByData[entry.data := entry];
    }

    /** The case of the select that receives an entry. */
    method Receive(entry: WaitFor, now: int)
      requires Valid()
      modifies this, waitingForQueue, inner
      ensures Valid()
      ensures waitingEntryByData == if entry.readyAt > now then Inserted(old(waitingEntryByData), entry)
          else old(waitingEntryByData)
      ensures inner.View() == if entry.readyAt > now then old(inner.View())
          else WorkQueue.Added(old(inner.View()), entry.data)
    {
      if entry.readyAt > now {
        hide Valid;
        Insert(entry);
      } else {
        var _ := inner.Add(entry.data);
      }
    }

    /** The "add ready entries" loop. Nothing is released early and nothing ready is left. */
    method AddReady(now: int) returns (ghost out: seq<Item>)
      requires Valid()
      modifies this, waitingForQueue, inner
      ensures Valid()
      ensures IsRelease(old(waitingEntryByData), out, now)
      ensures waitingEntryByData == old(waitingEntryByData) - Elems(out)
      ensures forall x :: x in waitingEntryByData ==> waitingEntryByData[x].readyAt > now
      ensures inner.View() == AddAll(old(inner.View()), out)
    {
      hide Valid, AddAll, Released, IsRelease, Elems;
      out := [];
      ghost var m, c := waitingEntryByData, inner.View();
      NothingReleased(m, c, now);
      var more := true;
      while more
        invariant Valid() && Releasing(m, c, out, now)
        invariant !more ==> NothingReady(now)
        decreases more, |waitingEntryByData|
      {
        hide Releasing, NothingReady;
        more, out := AddNext(now, m, c, out);
      }
      AllReleased(m, out, waitingEntryByData, now);
    }

    /** Of the entries m and the inner queue c at the start, `out` has moved from one to the other. */
    ghost predicate Releasing(m: map<Item, WaitFor>, c: WorkQueue.Core, out: seq<Item>, now: int)
      reads this, inner
    {
      waitingEntryByData == m - Elems(out) && Released(m, out, now) && inner.View() == AddAll(c, out)
    }

    ghost predicate NothingReady(now: int)
      reads this
    {
      forall x :: x in waitingEntryByData ==> waitingEntryByData[x].readyAt > now
    }

    /** One turn of the loop. */
    method AddNext(now: int, ghost m: map<Item, WaitFor>, ghost c: WorkQueue.Core, ghost out: seq<Item>)
      returns (more: bool, ghost out': seq<Item>)
      requires Valid() && Releasing(m, c, out, now)
      modifies this, waitingForQueue, inner
      ensures Valid() && Releasing(m, c, out', now)
      ensures if more then |waitingEntryByData| < old(|waitingEntryByData|) else NothingReady(now)
    {
      hide Valid, WorkQueue.Added, AddAll, Released, Earliest, Elems, WorkQueue.AddSignals, NothingReady;
      var entry := TakeReady(now);
      if entry.None? {
        return false, out;
      }
      NextReleased(m, c, out, entry.value, now);
      var _ := inner.Add(entry.value.data);
      return true, out + [entry.value.data];
    }

    /** Peek, compare, heap.Pop, and the delete from the map. */
    method TakeReady(now: int) returns (entry: Option<WaitFor>)
      requires Valid()
      modifies this, waitingForQueue
      ensures entry.None? ==> NothingReady(now)
      ensures entry.Some? ==> Earliest(old(waitingEntryByData), entry.value) && entry.value.readyAt <= now
      ensures Valid() &&
          waitingEntryByData == old(waitingEntryByData) - (if entry.Some? then {entry.value.data} else {})
    {
      hide Heap.Valid, Heap.Contents;
      var head := waitingForQueue.Peek();
      if head.None? || head.value.readyAt > now {
        assert forall x :: x in waitingEntryByData ==> head.Some? && !Sooner(waitingEntryByData[x], head.value);
        return None;
      }
      var e := waitingForQueue.Pop();
      assert !Sooner(waitingEntryByData[head.value.data], e);
      waitingEntryByData := waitingEntryByData - {e.data};
      return Some(e);
    }

    ghost predicate Earliest(m: map<Item, WaitFor>, e: WaitFor) {
      e.data in m && m[e.data] == e && forall k :: k in m ==> e.readyAt <= m[k].readyAt
    }

    lemma NothingReleased(m: map<Item, WaitFor>, c: WorkQueue.Core, now: int)
      ensures Released(m, [], now) && m - Elems([]) == m && AddAll(c, []) == c
    {
    }

    lemma AddedLast(c: WorkQueue.Core, out: seq<Item>, x: Item)
      ensures AddAll(c, out + [x]) == WorkQueue.Added(AddAll(c, out), x)
    {
      assert (out + [x])[..|out|] == out;
    }

    /** `out` has been released so far: ready, no item twice, earliest first, and nothing that still
        waits is earlier than anything released. */
    ghost predicate Released(m: map<Item, WaitFor>, out: seq<Item>, now: int) {
      && NoDup(out)
      && (forall x :: x in out ==> x in m && m[x].readyAt <= now)
      && (forall i, j :: 0 <= i < j < |out| ==> m[out[i]].readyAt <= m[out[j]].readyAt)
      && (forall x, y :: x in out && y in m && y !in out ==> m[x].readyAt <= m[y].readyAt)
    }

    lemma ReleaseOne(m: map<Item, WaitFor>, out: seq<Item>, e: WaitFor, now: int)
      requires Released(m, out, now) && Earliest(m - Elems(out), e) && e.readyAt <= now
      ensures Released(m, out + [e.data], now)
    {
      var out' := out + [e.data];
      assert forall x :: x in out' <==> x in out || x == e.data;
      forall x, y | x in out' && y in m && y !in out' ensures m[x].readyAt <= m[y].readyAt {
        assert y in m - Elems(out);
      }
    }

    lemma OneFewer(m: map<Item, WaitFor>, out: seq<Item>, e: WaitFor, x: Item)
      requires Earliest(m - Elems(out), e) && x == e.data
      ensures m - Elems(out) - {x} == m - Elems(out + [x])
      ensures |m - Elems(out) - {x}| < |m - Elems(out)|
    {
    }

    lemma NextReleased(m: map<Item, WaitFor>, c: WorkQueue.Core, out: seq<Item>, e: WaitFor, now: int)
      requires Released(m, out, now) && Earliest(m - Elems(out), e) && e.readyAt <= now
      ensures Released(m, out + [e.data], now)
      ensures m - Elems(out) - {e.data} == m - Elems(out + [e.data])
      ensures |m - Elems(out) - {e.data}| < |m - Elems(out)|
      ensures AddAll(c, out + [e.data]) == WorkQueue.Added(AddAll(c, out), e.data)
    {
      hide Released, Earliest, Elems, AddAll, WorkQueue.Added;
      ReleaseOne(m, out, e, now);
      OneFewer(m, out, e, e.data);
      AddedLast(c, out, e.data);
    }

    lemma AllReleased(m: map<Item, WaitFor>, out: seq<Item>, left: map<Item, WaitFor>, now: int)
      requires Released(m, out, now) && left == m - Elems(out)
      requires forall x :: x in left ==> left[x].readyAt > now
      ensures IsRelease(m, out, now)
    {
      forall x | x in m && x !in out ensures x !in Ready(m, now) {
        assert x in left;
      }
    }
  }

  // ---- Whole runs -----------------------------------------------------------------------------

  /** asked: for each waiting item, every time inserted for it since it last left the heap;
      released: every item released from the heap, with the time asked for and the time of release. */
  datatype State = State(waiting: map<Item, WaitFor>, asked: map<Item, set<int>>, released: set<(Item, int, int)>)

  datatype Op = OpReceive(entry: WaitFor, now: int) | OpRelease(out: seq<Item>, now: int)

  const START := State(map[], map[], {})

  ghost predicate Enabled(s: State, op: Op) {
    op.OpRelease? ==> IsRelease(s.waiting, op.out, op.now)
  }

  ghost function Next(s: State, op: Op): State
    requires Enabled(s, op)
  {
    match op
    case OpReceive(e, now) =>
      if e.readyAt <= now then s
      else s.(waiting := Inserted(s.waiting, e),
              asked := s.asked[e.data := (if e.data in s.asked then s.asked[e.data] else {}) + {e.readyAt}])
    case OpRelease(out, now) =>
      State(s.waiting - Elems(out), s.asked - Elems(out),
            s.released + set x | x in Elems(out) :: (x, s.waiting[x].readyAt, now))
  }

  /** One entry per item, its time is the least asked for since the item last left the heap, and
      nothing was ever released before its time. */
  ghost predicate Inv(s: State) {
    && s.asked.Keys == s.waiting.Keys
    && (forall x :: x in s.waiting ==> s.waiting[x].data == x && s.waiting[x].readyAt in s.asked[x])
    && (forall x, r :: x in s.waiting && r in s.asked[x] ==> s.waiting[x].readyAt <= r)
    && (forall e :: e in s.released ==> e.1 <= e.2)
  }

  ghost predicate Runnable(s: State, ops: seq<Op>)
    decreases |ops|
  {
    ops == [] || (Enabled(s, ops[0]) && Runnable(Next(s, ops[0]), ops[1..]))
  }

  ghost function Run(s: State, ops: seq<Op>): State
    requires Runnable(s, ops)
    decreases |ops|
  {
    if ops == [] then s else Run(Next(s, ops[0]), ops[1..])
  }

  lemma StepKeeps(s: State, op: Op)
    requires Inv(s) && Enabled(s, op)
    ensures Inv(Next(s, op))
    ensures op.OpRelease? ==> forall x :: x in Next(s, op).waiting ==> Next(s, op).waiting[x].readyAt > op.now
  {
  }

  lemma {:induction false} RunKeeps(s: State, ops: seq<Op>)
    requires Inv(s) && Runnable(s, ops)
    ensures Inv(Run(s, ops))
    decreases |ops|
  {
    if ops != [] {
      StepKeeps(s, ops[0]);
      RunKeeps(Next(s, ops[0]), ops[1..]);
    }
  }
}
