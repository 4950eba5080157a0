/** pkg/informer/delta_fifo.go and processDeltas of controller.go, updating their state in place. */
module Informer {
  import opened Common
  import S = InformerSpec
  import opened InformerSpec

  class DeltaFIFO {
    const cfg: Config
    var items: map<string, Deltas>
    var queue: seq<string>
    var populated: bool
    var initialPopulationCount: int
    var closed: bool

    ghost function View(): Fifo
      reads this`items, this`queue, this`populated, this`initialPopulationCount
    {
      Fifo(items, queue, populated, initialPopulationCount)
    }

    constructor (cfg: Config)
      ensures View() == EMPTY && this.cfg == cfg && !closed
    {
      this.cfg := cfg;
      items, queue, populated, initialPopulationCount, closed := map[], [], false, 0, false;
    }

    method Close()
      modifies this`closed
      ensures closed
    {
      closed := true;
    }

    /** queueActionLocked; the branch for an empty result of dedupDeltas is shown to be dead. */
    method QueueActionLocked(typ: DeltaType, obj: Object)
      modifies this`items, this`queue
      ensures View() == QueueAction(old(View()), typ, obj)
    {
      var id := obj.key;
      var newDeltas := if id in items then items[id] + [Delta(typ, obj)] else [Delta(typ, obj)];
      assert newDeltas == Queued(View(), id) + [Delta(typ, obj)];
      newDeltas := DedupDeltas(newDeltas);
      if |newDeltas| > 0 {
        if id !in items {
          queue := queue + [id];
        }
        items := items[id := newDeltas];
      }
    }

    method Add(obj: Object)
      modifies this`items, this`queue, this`populated
      ensures View() == S.Add(old(View()), obj)
    {
      populated := true;
      QueueActionLocked(Added, obj);
    }

    method Update(obj: Object)
      modifies this`items, this`queue, this`populated
      ensures View() == S.Update(old(View()), obj)
    {
      populated := true;
      QueueActionLocked(Updated, obj);
    }

    method Delete(store: Store, obj: Object)
      modifies this`items, this`queue, this`populated
      ensures View() == S.Delete(cfg, old(View()), store, obj)
    {
      var id := obj.key;
      populated := true;
      if !cfg.known {
        if id !in items { return; }
      } else {
        if id !in store && id !in items { return; }
      }
      QueueActionLocked(Deleted, obj);
    }

    /** `order` is the order in which knownObjects.ListKeys, or ranging over items, gives the keys. */
    method Replace(store: Store, list: seq<Object>, order: seq<string>)
      requires ReplaceOrder(cfg, View(), store, list, order)
      modifies this`items, this`queue, this`populated, this`initialPopulationCount
      ensures View() == S.Replace(cfg, old(View()), store, list, order)
    {
      hide QueueAction, Enumerates;
      ghost var was := View();
      var action := Sync;
      if cfg.emitReplaced { action := Replaced; }
      var keys: set<string> := {};
      for i := 0 to |list|
        invariant View() == QueueAll(was, action, list[..i]) && keys == ListedKeys(list[..i])
        invariant populated == was.populated && initialPopulationCount == was.initialPopulationCount
      {
        assert list[..i + 1][..i] == list[..i];
        keys := keys + {list[i].key};
        QueueActionLocked(action, list[i]);
      }
      assert list[..|list|] == list;
      QueueUnlisted(store, keys, order);
    }

    /** The second half of Replace: deletion detection and the initial population count. */
    method QueueUnlisted(store: Store, keys: set<string>, order: seq<string>)
      requires Enumerates(order, PresentKeys(cfg, View(), store))
      modifies this`items, this`queue, this`populated, this`initialPopulationCount
      ensures var f1 := old(View());
              var f2 := QueueDeletions(f1, order, keys, Present(cfg, f1, store));
              View() == if f1.populated then f2
                        else f2.(populated := true, initialPopulationCount := |keys| + Deletions(order, keys))
    {
      hide QueueAction, Enumerates;
      ghost var f1 := View();
      ghost var last := Present(cfg, f1, store);
      var queuedDeletions := 0;
      for i := 0 to |order|
        invariant View() == QueueDeletions(f1, order[..i], keys, last)
        invariant populated == f1.populated && initialPopulationCount == f1.initialPopulationCount
        invariant queuedDeletions == Deletions(order[..i], keys)
        invariant !cfg.known ==> forall j :: i <= j < |order| ==> Queued(View(), order[j]) == Queued(f1, order[j])
      {
        var k := order[i];
        assert order[..i + 1][..i] == order[..i];
        if k !in keys {
          var deletedObj: Option<Object> := None;
          if cfg.known {
            if k in store { deletedObj := Some(store[k]); }
          } else if k in items && |items[k]| > 0 {
            deletedObj := Some(items[k][|items[k]| - 1].obj);
          }
          assert deletedObj == Get(last, k) by {
            assert !cfg.known ==> Queued(View(), order[i]) == Queued(f1, order[i]);
          }
          queuedDeletions := queuedDeletions + 1;
          ghost var f := View();
          QueueActionLocked(Deleted, FinalStateUnknown(k, deletedObj));
          OthersQueued(f, Deleted, FinalStateUnknown(k, deletedObj), order, PresentKeys(cfg, f1, store), i);
        }
      }
      assert order[..|order|] == order;
      if !populated {
        populated := true;
        initialPopulationCount := |keys| + queuedDeletions;
      }
    }

    method Resync(store: Store, order: seq<string>)
      modifies this`items, this`queue
      ensures View() == S.Resync(cfg, old(View()), store, order)
    {
      hide QueueAction;
      if !cfg.known { return; }
      for i := 0 to |order|
        invariant View() == S.Resync(cfg, old(View()), store, order[..i])
      {
        assert order[..i + 1][..i] == order[..i];
        SyncKeyLocked(store, order[i]);
      }
      assert order[..|order|] == order;
    }

    method SyncKeyLocked(store: Store, key: string)
      modifies this`items, this`queue
      ensures View() == if key !in store || Queued(old(View()), store[key].key) != [] then old(View())
                        else QueueAction(old(View()), Sync, store[key])
    {
      if key !in store { return; }
      var obj := store[key];
      var id := obj.key;
      if id in items && |items[id]| > 0 { return; }
      QueueActionLocked(Sync, obj);
    }

    /** One turn of Pop's wait loop: the first key with deltas is taken off the queue and they are handed
        over exactly as they were queued. */
    method Pop() returns (r: Attempt<Deltas>)
      modifies this`items, this`queue, this`initialPopulationCount
      ensures var f := SkipMissing(old(View()));
              && r == (if f.queue != [] then Taken(f.items[f.queue[0]]) else if closed then Closed else Waits)
              && View() == (if f.queue != [] then PopHead(f) else f)
    {
      ghost var was := View();
      while |queue| > 0
        invariant SkipMissing(View()) == SkipMissing(was)
      {
        var id := queue[0];
        queue := queue[1..];
        if initialPopulationCount > 0 {
          initialPopulationCount := initialPopulationCount - 1;
        }
        if id in items {
          r := Taken(items[id]);
          items := items - {id};
          return;
        }
      }
      return if closed then Closed else Waits;
    }
  }

  lemma OthersQueued(f: Fifo, typ: DeltaType, obj: Object, order: seq<string>, keys: set<string>, i: nat)
    requires Enumerates(order, keys) && i < |order| && obj.key == order[i]
    ensures forall j :: i < j < |order| ==> Queued(QueueAction(f, typ, obj), order[j]) == Queued(f, order[j])
  {
  }

  method DedupDeltas(deltas: Deltas) returns (r: Deltas)
    ensures r == Dedup(deltas)
    ensures deltas != [] ==> r != []
  {
    var n := |deltas|;
    if n < 2 { return deltas; }
    var out := IsDup(deltas[n - 1], deltas[n - 2]);
    if out.Some? {
      r := deltas[n - 2 := out.value];
      return r[..n - 1];
    }
    return deltas;
  }

  /** The shared informer's store and the notifications it has handed out. */
  class Consumer {
    var store: Store
    var sent: seq<Notification>

    constructor ()
      ensures store == map[] && sent == []
    {
      store, sent := map[], [];
    }

    /** processDeltas with no transformer: oldest to newest. */
    method ProcessDeltas(deltas: Deltas)
      modifies this
      ensures store == Process(old(store), deltas).0
      ensures sent == old(sent) + Process(old(store), deltas).1
    {
      for i := 0 to |deltas|
        invariant store == Process(old(store), deltas[..i]).0
        invariant sent == old(sent) + Process(old(store), deltas[..i]).1
      {
        assert deltas[..i + 1][..i] == deltas[..i];
        var obj := deltas[i].obj;
        match deltas[i].typ {
          case Deleted =>
            store := store - {obj.key};
            sent := sent + [OnDelete(obj)];
          case _ =>
            if obj.key in store {
              var old_ := store[obj.key];
              store := store[obj.key := obj];
              sent := sent + [OnUpdate(old_, obj)];
            } else {
              store := store[obj.key := obj];
              sent := sent + [OnAdd(obj)];
            }
        }
      }
      assert deltas[..|deltas|] == deltas;
    }
  }

  /** One turn of the controller's process loop is the state machine's Pop. */
  method ProcessOne(f: DeltaFIFO, c: Consumer)
    requires Inv(System(f.View(), c.store, c.sent)) && f.queue != []
    modifies f, c
    ensures var was := old(System(f.View(), c.store, c.sent));
            && Enabled(f.cfg, was, PopOp) && System(f.View(), c.store, c.sent) == Next(f.cfg, was, PopOp)
            && (forall k :: S.View(f.View(), c.store, k) == S.View(was.fifo, was.store, k))
    ensures Inv(System(f.View(), c.store, c.sent)) && f.closed == old(f.closed)
  {
    ghost var was := System(f.View(), c.store, c.sent);
    hide FifoOk, StoreOk, Replay, Process, DeltasOk, S.View;
    HeadOk(was.fifo, was.store);
    var r := f.Pop();
    c.ProcessDeltas(r.item);
    NextKeepsInv(f.cfg, was, PopOp);
    PopView(was.fifo, was.store);
  }

  /** processLoop on a closed queue that nobody adds to: it ends, and by then everything queued has been
      applied, so that the store is the view there was, and a listener has been told all of it. */
  method ProcessLoop(f: DeltaFIFO, c: Consumer)
    requires Inv(System(f.View(), c.store, c.sent)) && f.closed
    modifies f, c
    ensures f.queue == [] && Inv(System(f.View(), c.store, c.sent))
    ensures forall k :: Get(c.store, k) == old(S.View(f.View(), c.store, k))
    ensures Replay(c.sent, map[]) == Some(c.store)
  {
    ghost var f0, store0 := f.View(), c.store;
    while |f.queue| > 0
      invariant Inv(System(f.View(), c.store, c.sent))
      invariant forall k :: S.View(f.View(), c.store, k) == S.View(f0, store0, k)
      decreases |f.queue|
    {
      hide Inv, S.View;
      ProcessOne(f, c);
    }
    forall k ensures Get(c.store, k) == S.View(f0, store0, k) {
      DrainedView(f.View(), c.store, k);
    }
  }

  lemma DrainedView(f: Fifo, store: Store, k: string)
    requires FifoOk(f, store) && f.queue == []
    ensures S.View(f, store, k) == Get(store, k)
  {
    assert k !in f.queue;
  }
}
