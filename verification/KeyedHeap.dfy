/** The sift-up / sift-down algorithm of Go's container/heap, stated on a sequence of objects.
    `n` bounds the part of the sequence that is the heap: Pop and Remove sift
    while the victim still sits at the end of the slice. */
module HeapOrder {

  /** What `lessFunc` must be for a heap to have a meaning: asymmetric, and "not after" transitive. */
  ghost predicate StrictWeakOrder<T(!new)>(less: (T, T) -> bool) {
    && (forall x, y :: less(x, y) ==> !less(y, x))
    && (forall x, y, z :: !less(y, x) && !less(z, y) ==> !less(z, x))
  }

  function Parent(i: nat): (p: nat)
    requires i > 0
    ensures p < i
    ensures i == 2 * p + 1 || i == 2 * p + 2
  {
    (i - 1) / 2
  }

  /** The edge between k and its parent is in order. */
  predicate Edge<T>(s: seq<T>, less: (T, T) -> bool, k: nat)
    requires k < |s|
  {
    k == 0 || !less(s[k], s[Parent(k)])
  }

  ghost predicate Heap<T(!new)>(s: seq<T>, less: (T, T) -> bool, n: nat)
    requires n <= |s|
  {
    forall k :: 0 <= k < n ==> Edge(s, less, k)
  }

  /** A heap in which only the edges that touch position i may be wrong. */
  ghost predicate HeapBut<T(!new)>(s: seq<T>, less: (T, T) -> bool, n: nat, i: nat)
    requires n <= |s|
  {
    && (forall k :: 0 < k < n && k != i && Parent(k) != i ==> Edge(s, less, k))
    && (forall k :: 0 < i && 0 < k < n && Parent(k) == i ==> !less(s[k], s[Parent(i)]))
  }

  /** Every edge from i down to a child is in order. */
  ghost predicate BelowOk<T(!new)>(s: seq<T>, less: (T, T) -> bool, n: nat, i: nat)
    requires n <= |s|
  {
    forall k :: 0 < k < n && Parent(k) == i ==> Edge(s, less, k)
  }

  function Swapped<T>(s: seq<T>, i: nat, j: nat): (r: seq<T>)
    requires i < |s| && j < |s|
    ensures |r| == |s|
  {
    s[i := s[j]][j := s[i]]
  }

  /** Changing one object breaks at most the edges at its position. */
  lemma {:induction false} ChangeOne<T(!new)>(s: seq<T>, less: (T, T) -> bool, n: nat, i: nat, x: T)
    requires StrictWeakOrder(less) && i < n <= |s| && Heap(s, less, |s|)
    ensures HeapBut(s[i := x], less, n, i)
  {
    var r := s[i := x];
    forall k | 0 < k < n && k != i && Parent(k) != i ensures Edge(r, less, k) {
      assert Edge(s, less, k);
    }
    forall k | 0 < i && 0 < k < n && Parent(k) == i ensures !less(r[k], r[Parent(i)]) {
      assert Edge(s, less, k) && Edge(s, less, i);
    }
  }

  /** One turn of `up`: the object at j goes before its parent i. */
  lemma {:induction false} SwapUp<T(!new)>(s: seq<T>, less: (T, T) -> bool, n: nat, j: nat)
    requires StrictWeakOrder(less) && 0 < j < n <= |s|
    requires HeapBut(s, less, n, j) && BelowOk(s, less, n, j) && less(s[j], s[Parent(j)])
    ensures HeapBut(Swapped(s, Parent(j), j), less, n, Parent(j))
    ensures BelowOk(Swapped(s, Parent(j), j), less, n, Parent(j))
  {
  }

  /** One turn of `down`: the least child j of i goes before it. */
  lemma {:induction false} SwapDown<T(!new)>(s: seq<T>, less: (T, T) -> bool, n: nat, i: nat, j: nat)
    requires StrictWeakOrder(less) && 0 < j < n <= |s| && Parent(j) == i
    requires HeapBut(s, less, n, i) && less(s[j], s[i])
    requires forall k :: 0 < k < n && Parent(k) == i ==> !less(s[k], s[j])
    ensures HeapBut(Swapped(s, i, j), less, n, j)
    ensures Edge(Swapped(s, i, j), less, j)
    ensures i > 0 ==> Edge(Swapped(s, i, j), less, i)
  {
  }

  /** With the one suspect position in order on both sides, the whole is a heap. */
  lemma {:induction false} Repaired<T(!new)>(s: seq<T>, less: (T, T) -> bool, n: nat, i: nat)
    requires i < n <= |s| && HeapBut(s, less, n, i) && BelowOk(s, less, n, i) && Edge(s, less, i)
    ensures Heap(s, less, n)
  {
  }

  /** The root of a heap is not after any element. */
  lemma {:induction false} RootIsLeast<T(!new)>(s: seq<T>, less: (T, T) -> bool, n: nat, k: nat)
    requires StrictWeakOrder(less) && k < n <= |s| && Heap(s, less, n)
    ensures !less(s[k], s[0])
  {
    if k > 0 {
      RootIsLeast(s, less, n, Parent(k));
      assert Edge(s, less, k);
    }
  }
}

/** pkg/scheduler/heap: a heap of keys plus a map from key to object and position. */
module KeyedHeap {
  import opened Common
  import opened HeapOrder

  datatype Result<+T> = Ok(value: T) | KeyError | NotFound

  datatype HeapItem<T> = HeapItem(obj: T, index: int)

  class Heap<T(!new)> {
    const keyFunc: T -> Option<string>
    const lessFunc: (T, T) -> bool
    var items: map<string, HeapItem<T>>
    var queue: seq<string>

    /** items, queue and the stored indexes are one exact bijection. */
    ghost predicate Indexed()
      reads this
    {
      && (forall i :: 0 <= i < |queue| ==> queue[i] in items && items[queue[i]].index == i)
      && (forall k :: k in items ==> 0 <= items[k].index < |queue| && queue[items[k].index] == k)
    }

    /** The objects in slice order. */
    ghost function Objs(): (s: seq<T>)
      requires Indexed()
      reads this
      ensures |s| == |queue|
    {
      seq(|queue|, i requires 0 <= i < |queue| reads this requires Indexed() => items[queue[i]].obj)
    }

    ghost predicate Valid()
      reads this
    {
      && StrictWeakOrder(lessFunc)
      && Indexed()
      && HeapOrder.Heap(Objs(), lessFunc, |queue|)
      && forall k :: k in items ==> keyFunc(items[k].obj) == Some(k)
    }

    /** The abstract value: which object is stored under which key. */
    ghost function Contents(): (m: map<string, T>)
      reads this
      ensures m.Keys == items.Keys
    {
      map k | k in items :: items[k].obj
    }

    constructor (keyFunc: T -> Option<string>, lessFunc: (T, T) -> bool)
      requires StrictWeakOrder(lessFunc)
      ensures Valid() && Contents() == map[]
      ensures this.keyFunc == keyFunc && this.lessFunc == lessFunc
    {
      this.keyFunc := keyFunc;
      this.lessFunc := lessFunc;
      items := map[];
      queue := [];
    }

    method Swap(i: nat, j: nat)
      requires Indexed() && i < |queue| && j < |queue|
      modifies this
      ensures Indexed()
      ensures queue == Swapped(old(queue), i, j)
      ensures Objs() == Swapped(old(Objs()), i, j)
      ensures Contents() == old(Contents())
    {
      queue := queue[i := queue[j]][j := queue[i]];
      items := items[queue[i] := items[queue[i]].(index := i)];
      items := items[queue[j] := items[queue[j]].(index := j)];
    }

    /** `up` looks at parents only, so slots at n and beyond are never touched. */
    method Up(start: nat, n: nat)
      requires StrictWeakOrder(lessFunc) && Indexed() && start < n <= |queue|
      requires HeapBut(Objs(), lessFunc, n, start) && BelowOk(Objs(), lessFunc, n, start)
      modifies this
      ensures Indexed() && |queue| == old(|queue|) && HeapOrder.Heap(Objs(), lessFunc, n)
      ensures Contents() == old(Contents())
      ensures Objs()[n..] == old(Objs())[n..] && queue[n..] == old(queue)[n..]
    {
      hide StrictWeakOrder, HeapBut, BelowOk, HeapOrder.Heap, Contents;
      var j: nat := start;
      while j > 0 && lessFunc(items[queue[j]].obj, items[queue[Parent(j)]].obj)
        invariant Indexed() && j < n <= |queue| == old(|queue|)
        invariant HeapBut(Objs(), lessFunc, n, j) && BelowOk(Objs(), lessFunc, n, j)
        invariant Contents() == old(Contents())
        invariant Objs()[n..] == old(Objs())[n..] && queue[n..] == old(queue)[n..]
      {
        SwapUp(Objs(), lessFunc, n, j);
        Swap(Parent(j), j);
        j := Parent(j);
      }
      assert Edge(Objs(), lessFunc, j);
      Repaired(Objs(), lessFunc, n, j);
    }

    /** The child of i that no other child goes before. */
    method LeastChild(i: nat, n: nat) returns (j: nat)
      requires StrictWeakOrder(lessFunc) && Indexed() && 2 * i + 1 < n <= |queue|
      ensures 0 < j < n && Parent(j) == i
      ensures forall k :: 0 < k < n && Parent(k) == i ==> !lessFunc(Objs()[k], Objs()[j])
    {
      j := 2 * i + 1;
      if j + 1 < n && lessFunc(items[queue[j + 1]].obj, items[queue[j]].obj) {
        j := j + 1;
      }
      assert forall k :: 0 < k < n && Parent(k) == i ==> k == 2 * i + 1 || k == 2 * i + 2;
    }

    /** Returns whether the object moved; if it did not, only its parent edge can still be wrong. */
    method Down(start: nat, n: nat) returns (moved: bool)
      requires StrictWeakOrder(lessFunc) && Indexed() && start < n <= |queue|
      requires HeapBut(Objs(), lessFunc, n, start)
      modifies this
      ensures Indexed() && |queue| == old(|queue|) && Contents() == old(Contents())
      ensures Objs()[n..] == old(Objs())[n..] && queue[n..] == old(queue)[n..]
      ensures moved ==> HeapOrder.Heap(Objs(), lessFunc, n)
      ensures !moved ==> HeapBut(Objs(), lessFunc, n, start) && BelowOk(Objs(), lessFunc, n, start)
    {
      hide StrictWeakOrder, HeapBut, BelowOk, HeapOrder.Heap, Contents;
      var i: nat := start;
      while 2 * i + 1 < n
        invariant Indexed() && start <= i < n <= |queue| == old(|queue|)
        invariant HeapBut(Objs(), lessFunc, n, i)
        invariant i > start ==> Edge(Objs(), lessFunc, i)
        invariant Contents() == old(Contents())
        invariant Objs()[n..] == old(Objs())[n..] && queue[n..] == old(queue)[n..]
        decreases n - i
      {
        var j := LeastChild(i, n);
        if !lessFunc(items[queue[j]].obj, items[queue[i]].obj) {
          NoChildBefore(Objs(), n, i, j);
          break;
        }
        SwapDown(Objs(), lessFunc, n, i, j);
        assert Swapped(Objs(), i, j)[n..] == Objs()[n..] && Swapped(queue, i, j)[n..] == queue[n..];
        Swap(i, j);
        i := j;
      }
      if 2 * i + 1 >= n {
        LeafBelowOk(Objs(), n, i);
      }
      moved := i > start;
      if moved {
        Repaired(Objs(), lessFunc, n, i);
      }
    }

    lemma LeafBelowOk(s: seq<T>, n: nat, i: nat)
      requires n <= |s| && 2 * i + 1 >= n
      ensures BelowOk(s, lessFunc, n, i)
    {
    }

    lemma NoChildBefore(s: seq<T>, n: nat, i: nat, j: nat)
      requires StrictWeakOrder(lessFunc) && 0 < j < n <= |s| && Parent(j) == i && !lessFunc(s[j], s[i])
      requires forall k :: 0 < k < n && Parent(k) == i ==> !lessFunc(s[k], s[j])
      ensures BelowOk(s, lessFunc, n, i)
    {
    }

    /** heap.Fix: restores the order after the object at i was replaced. */
    method Fix(i: nat)
      requires StrictWeakOrder(lessFunc) && Indexed() && i < |queue|
      requires HeapBut(Objs(), lessFunc, |queue|, i)
      modifies this
      ensures Indexed() && HeapOrder.Heap(Objs(), lessFunc, |queue|)
      ensures Contents() == old(Contents()) && |queue| == old(|queue|)
    {
      var moved := Down(i, |queue|);
      if !moved {
        Up(i, |queue|);
      }
    }

    /** The last slot is dropped together with its map entry (data.Pop). */
    method DropLast() returns (obj: T)
      requires StrictWeakOrder(lessFunc) && Indexed() && |queue| > 0
      requires HeapOrder.Heap(Objs(), lessFunc, |queue| - 1)
      requires forall k :: k in items ==> keyFunc(items[k].obj) == Some(k)
      modifies this
      ensures Valid()
      ensures obj == old(Objs())[old(|queue|) - 1]
      ensures Contents() == old(Contents()) - {old(queue)[old(|queue|) - 1]}
    {
      var key := queue[|queue| - 1];
      queue := queue[..|queue| - 1];
      obj := items[key].obj;
      items := items - {key};
      assert Objs() == old(Objs())[..|queue|];
      assert forall k :: 0 <= k < |queue| ==> Edge(old(Objs()), lessFunc, k) ==> Edge(Objs(), lessFunc, k);
    }

    method Add(obj: T) returns (r: Result<()>)
      requires Valid()
      modifies this
      ensures Valid()
      ensures r == if keyFunc(obj).None? then KeyError else Ok(())
      ensures Contents() == if keyFunc(obj).None? then old(Contents()) else old(Contents())[keyFunc(obj).value := obj]
    {
      if keyFunc(obj).None? {
        return KeyError;
      }
      var key := keyFunc(obj).value;
      if key in items {
        Overwrite(key, obj);
      } else {
        Push(key, obj);
      }
      return Ok(());
    }

    method Overwrite(key: string, obj: T)
      requires Valid() && keyFunc(obj) == Some(key) && key in items
      modifies this
      ensures Valid() && Contents() == old(Contents())[key := obj]
    {
      ghost var s := Objs();
      var i := items[key].index;
      items := items[key := items[key].(obj := obj)];
      assert Objs() == s[i := obj];
      ChangeOne(s, lessFunc, |queue|, i, obj);
      assert Contents() == old(Contents())[key := obj];
      Fix(i);
      KeysFollow();
    }

    /** heap.Push. */
    method Push(key: string, obj: T)
      requires Valid() && keyFunc(obj) == Some(key) && key !in items
      modifies this
      ensures Valid() && Contents() == old(Contents())[key := obj]
    {
      ghost var s := Objs();
      var n := |queue|;
      items := items[key := HeapItem(obj, n)];
      queue := queue + [key];
      assert Indexed();
      assert Objs() == s + [obj];
      assert forall k :: 0 <= k < n ==> Edge(s, lessFunc, k) ==> Edge(Objs(), lessFunc, k);
      assert Contents() == old(Contents())[key := obj];
      Up(n, n + 1);
      KeysFollow();
    }

    lemma KeysFollow()
      requires forall k :: k in Contents() ==> keyFunc(Contents()[k]) == Some(k)
      ensures forall k :: k in items ==> keyFunc(items[k].obj) == Some(k)
    {
    }

    method Update(obj: T) returns (r: Result<()>)
      requires Valid()
      modifies this
      ensures Valid()
      ensures r == if keyFunc(obj).None? then KeyError else Ok(())
      ensures Contents() == if keyFunc(obj).None? then old(Contents()) else old(Contents())[keyFunc(obj).value := obj]
    {
      r := Add(obj);
    }

    method Delete(obj: T) returns (r: Result<()>)
      requires Valid()
      modifies this
      ensures Valid()
      ensures r == match keyFunc(obj) case None => KeyError
                                      case Some(k) => if k in old(items) then Ok(()) else NotFound
      ensures Contents() == if r.Ok? then old(Contents()) - {keyFunc(obj).value} else old(Contents())
    {
      if keyFunc(obj).None? {
        return KeyError;
      }
      var key := keyFunc(obj).value;
      if key !in items {
        return NotFound;
      }
      RemoveAt(items[key].index);
      return Ok(());
    }

    /** heap.Remove. */
    method RemoveAt(i: nat)
      requires Valid() && i < |queue|
      modifies this
      ensures Valid() && Contents() == old(Contents()) - {old(queue)[i]}
    {
      hide StrictWeakOrder;
      ghost var key := queue[i];
      ToEnd(i);
      KeysFollow();
      hide Contents, Indexed, HeapOrder.Heap;
      var _ := DropLast();
    }

    /** The swap and the sifts of heap.Remove. */
    method ToEnd(i: nat)
      requires Valid() && i < |queue|
      modifies this
      ensures Indexed() && |queue| == old(|queue|) && Contents() == old(Contents())
      ensures HeapOrder.Heap(Objs(), lessFunc, |queue| - 1)
      ensures queue[|queue| - 1] == old(queue)[i]
    {
      hide StrictWeakOrder, Contents;
      var n := |queue| - 1;
      ghost var s := Objs();
      if n != i {
        ChangeOne(s, lessFunc, n, i, s[n]);
        Swap(i, n);
        HeapButOnPrefix(s[i := s[n]], Objs(), n, i);
        hide HeapBut, HeapOrder.Heap, BelowOk;
        var moved := Down(i, n);
        if !moved {
          Up(i, n);
        }
        assert queue[n] == queue[n..][0];
      }
    }

    lemma HeapButOnPrefix(s: seq<T>, r: seq<T>, n: nat, i: nat)
      requires i < n < |s| == |r| && s[..n] == r[..n] && HeapBut(s, lessFunc, n, i)
      ensures HeapBut(r, lessFunc, n, i)
    {
      assert forall k :: 0 <= k < n ==> s[k] == s[..n][k] == r[..n][k] == r[k];
      forall k | 0 < k < n && k != i && Parent(k) != i ensures Edge(r, lessFunc, k) {
        assert Edge(s, lessFunc, k);
      }
    }

    method Peek() returns (r: Option<T>)
      requires Valid()
      ensures r.None? <==> Contents() == map[]
      ensures r.Some? ==> keyFunc(r.value).Some? && keyFunc(r.value).value in Contents()
      ensures r.Some? ==> Contents()[keyFunc(r.value).value] == r.value
      ensures r.Some? ==> forall k :: k in Contents() ==> !lessFunc(Contents()[k], r.value)
    {
      if |queue| > 0 {
        r := Some(items[queue[0]].obj);
        assert queue[0] in Contents();
        LeastAtRoot();
      } else {
        r := None;
        assert items.Keys == {};
        assert Contents() == map[];
      }
    }

    lemma LeastAtRoot()
      requires Valid() && |queue| > 0
      ensures forall k :: k in items ==> !lessFunc(items[k].obj, items[queue[0]].obj)
    {
      forall k | k in items ensures !lessFunc(items[k].obj, items[queue[0]].obj) {
        RootIsLeast(Objs(), lessFunc, |queue|, items[k].index);
        assert Objs()[items[k].index] == items[k].obj;
      }
    }

    /** container/heap panics on an empty heap, so callers must check Len first. */
    method Pop() returns (obj: T)
      requires Valid() && Contents() != map[]
      modifies this
      ensures Valid()
      ensures keyFunc(obj).Some? && keyFunc(obj).value in old(Contents())
      ensures old(Contents())[keyFunc(obj).value] == obj
      ensures Contents() == old(Contents()) - {keyFunc(obj).value}
      ensures forall k :: k in old(Contents()) ==> !lessFunc(old(Contents())[k], obj)
    {
      assert |queue| > 0 by {
        LenIsCount(queue);
      }
      LeastAtRoot();
      ghost var root := queue[0];
      hide StrictWeakOrder, HeapOrder.Heap;
      RootToEnd();
      KeysFollow();
      obj := DropLast();
    }

    /** The swap and sift of heap.Pop: the root ends in the last slot, the rest is a heap again. */
    method RootToEnd()
      requires Valid() && |queue| > 0
      modifies this
      ensures Indexed() && |queue| == old(|queue|) && Contents() == old(Contents())
      ensures HeapOrder.Heap(Objs(), lessFunc, |queue| - 1)
      ensures queue[|queue| - 1] == old(queue)[0] && Objs()[|queue| - 1] == old(Objs())[0]
    {
      hide StrictWeakOrder, Contents;
      ghost var s, root := Objs(), queue[0];
      var n := |queue| - 1;
      Swap(0, n);
      if n > 0 {
        ChangeOne(s, lessFunc, n, 0, s[n]);
        HeapButOnPrefix(s[0 := s[n]], Objs(), n, 0);
        hide HeapBut, HeapOrder.Heap;
        var moved := Down(0, n);
        if !moved {
          Repaired(Objs(), lessFunc, n, 0);
        }
        assert Objs()[n] == Objs()[n..][0] && queue[n] == queue[n..][0];
      }
    }

    method Get(obj: T) returns (r: Result<T>)
      requires Valid()
      ensures r == match keyFunc(obj) case None => KeyError
                                      case Some(k) => if k in Contents() then Ok(Contents()[k]) else NotFound
    {
      if keyFunc(obj).None? {
        return KeyError;
      }
      var key := keyFunc(obj).value;
      return if key in items then Ok(items[key].obj) else NotFound;
    }

    method Len() returns (n: nat)
      requires Valid()
      ensures n == |Contents()|
    {
      n := |queue|;
      LenIsCount(queue);
    }

    lemma {:induction false} LenIsCount(q: seq<string>)
      requires Indexed() && q == queue
      ensures |q| == |Contents()|
    {
      assert items.Keys == Elems(q);
      DistinctCount(q);
      assert Contents().Keys == Elems(q);
    }
  }
}
