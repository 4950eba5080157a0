/** pkg/util/buffer and the relay goroutine of pkg/informer/informer.go. */
module Listener {
  import opened Common

  /** A ring of n slots that doubles when it is full. */
  class RingGrowing<T(0)> {
    var data: array<Option<T>>
    var n: nat
    var beg: nat
    var readable: nat

    ghost predicate Valid()
      reads this, data
    {
      && 0 < n == data.Length && beg < n && readable <= n
      && forall i :: 0 <= i < readable ==> data[Slot(beg, i, n)].Some?
    }

    /** The i-th readable element sits here. */
    static function Slot(beg: nat, i: nat, n: nat): (k: nat)
      requires beg < n && i <= n
      ensures k < n
    {
      if beg + i < n then beg + i else beg + i - n
    }

    static lemma SlotIsMod(beg: nat, i: nat, n: nat)
      requires beg < n && i <= n
      ensures Slot(beg, i, n) == (beg + i) % n
    {
      if beg + i >= n {
        assert beg + i == 1 * n + (beg + i - n);
      }
    }

    ghost function Contents(): (s: seq<T>)
      requires Valid()
      reads this, data
      ensures |s| == readable
    {
      seq(readable, i requires 0 <= i < readable && Valid() reads this, data => data[Slot(beg, i, n)].value)
    }

    constructor (initialSize: nat)
      requires initialSize > 0
      ensures Valid() && Contents() == [] && fresh(data)
    {
      data := new Option<T>[initialSize](_ => None);
      n := initialSize;
      beg, readable := 0, 0;
    }

    method ReadOne() returns (element: Option<T>)
      requires Valid()
      modifies this, data
      ensures Valid() && data == old(data)
      ensures old(Contents()) == [] ==> element == None && Contents() == []
      ensures old(Contents()) != [] ==> element == Some(old(Contents())[0]) && Contents() == old(Contents())[1..]
    {
      if readable == 0 {
        return None;
      }
      assert Slot(beg, 0, n) == beg;
      readable := readable - 1;
      element := data[beg];
      data[beg] := None;
      ghost var b := beg;
      if beg == n - 1 {
        beg := 0;
      } else {
        beg := beg + 1;
      }
      assert forall i :: 0 <= i < readable ==> Slot(beg, i, n) == Slot(b, i + 1, n) != b;
    }

    /** Unrolls the ring into a buffer twice the size. */
    method Grow()
      requires Valid() && readable == n
      modifies this
      ensures Valid() && fresh(data) && n == 2 * old(n) && beg == 0 && Contents() == old(Contents())
    {
      var newData := new Option<T>[2 * n](_ => None);
      Unroll(newData);
      ghost var was := Contents();
      beg := 0;
      data := newData;
      n := 2 * n;
      assert forall i :: 0 <= i < readable ==> Slot(beg, i, n) == i;
      assert Contents() == was;
    }

    method Unroll(target: array<Option<T>>)
      requires Valid() && readable == n && target.Length == 2 * n && target != data
      modifies target
      ensures forall i :: 0 <= i < n ==> target[i] == data[Slot(beg, i, n)]
    {
      var to := beg + readable;
      if to <= n {
        CopyTo(target, 0, beg, to);
      } else {
        SlotIsMod(beg, n, n);
        CopyTo(target, 0, beg, n);
        CopyTo(target, n - beg, 0, to % n);
      }
    }

    /** copy(target[at:], data[lo:hi]). */
    method CopyTo(target: array<Option<T>>, at: nat, lo: nat, hi: nat)
      requires lo <= hi <= data.Length && at + (hi - lo) <= target.Length && target != data
      modifies target
      ensures forall k :: 0 <= k < target.Length ==>
        target[k] == if at <= k < at + (hi - lo) then data[lo + (k - at)] else old(target[k])
    {
      for i := 0 to hi - lo
        invariant forall k :: 0 <= k < target.Length ==>
          target[k] == if at <= k < at + i then data[lo + (k - at)] else old(target[k])
      {
        target[at + i] := data[lo + i];
      }
    }

    method WriteOne(x: T)
      requires Valid()
      modifies this, data
      ensures Valid() && (data == old(data) || fresh(data))
      ensures Contents() == old(Contents()) + [x]
    {
      if readable == n {
        Grow();
      }
      ghost var was := Contents();
      SlotIsMod(beg, readable, n);
      assert forall i :: 0 <= i < readable ==> Slot(beg, i, n) != Slot(beg, readable, n);
      data[(readable + beg) % n] := Some(x);
      readable := readable + 1;
      assert forall i :: 0 <= i < |was| ==> Contents()[i] == was[i];
      assert Contents() == was + [x];
    }
  }

  /** The loop of processorListener.pop, one method per select case. */
  class ProcessorListener<T(0)> {
    const pendingNotifications: RingGrowing<T>
    var notification: Option<T>
    var dispatching: bool
    ghost var accepted: seq<T>
    ghost var sent: seq<T>

    /** Everything accepted on addCh is, in order, what was sent on nextCh, then the notification
        held, then the ring; the ring fills only behind a held notification, and the send case is
        enabled exactly while one is held. */
    ghost predicate Valid()
      reads this, pendingNotifications, pendingNotifications.data
    {
      && pendingNotifications.Valid()
      && (dispatching <==> notification.Some?)
      && (notification.None? ==> pendingNotifications.Contents() == [])
      && accepted == sent + Held() + pendingNotifications.Contents()
    }

    ghost function Held(): seq<T>
      reads this
    {
      if notification.Some? then [notification.value] else []
    }

    constructor (bufferSize: nat)
      requires bufferSize > 0
      ensures Valid() && accepted == [] && sent == [] && fresh(pendingNotifications) && fresh(pendingNotifications.data)
    {
      pendingNotifications := new RingGrowing(bufferSize);
      notification := None;
      dispatching := false;
      accepted, sent := [], [];
    }

    /** The case `nextCh <- notification`; nextCh is nil, hence never ready, unless dispatching. */
    method Dispatch() returns (x: T)
      requires Valid() && dispatching
      modifies this, pendingNotifications, pendingNotifications.data
      ensures Valid() && accepted == old(accepted) && sent == old(sent) + [x]
      ensures pendingNotifications.data == old(pendingNotifications.data)
    {
      hide RingGrowing.Valid, RingGrowing.Contents;
      x := notification.value;
      notification := pendingNotifications.ReadOne();
      if notification.None? {
        dispatching := false;
      }
      sent := sent + [x];
      assert notification.Some? ==>
        old(pendingNotifications.Contents()) == [notification.value] + pendingNotifications.Contents();
    }

    /** The case `notificationToAdd := <-addCh`. */
    method Accept(x: T)
      requires Valid()
      modifies this, pendingNotifications, pendingNotifications.data
      ensures Valid() && accepted == old(accepted) + [x] && sent == old(sent)
      ensures pendingNotifications.data == old(pendingNotifications.data) || fresh(pendingNotifications.data)
    {
      hide RingGrowing.Valid, RingGrowing.Contents;
      if notification.None? {
        notification := Some(x);
        dispatching := true;
      } else {
        pendingNotifications.WriteOne(x);
      }
      accepted := accepted + [x];
    }
  }
}
