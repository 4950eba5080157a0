/** DeltaFIFO delta by delta: exactly what each operation queues, and exactly what listeners are told. */
module InformerQueue {
  import opened Common
  import opened InformerSpec

  /** One more delta; of two deletions in a row the one that saw the object is kept, or else the newer. */
  function Appended(ds: Deltas, d: Delta): Deltas {
    var n := |ds|;
    if d.typ == Deleted && n > 0 && ds[n - 1].typ == Deleted then
      ds[..n - 1] + [if ds[n - 1].obj.FinalStateUnknown? then d else ds[n - 1]]
    else ds + [d]
  }

  lemma DedupIsAppended(ds: Deltas, d: Delta)
    ensures Dedup(ds + [d]) == Appended(ds, d)
  {
    var n, all := |ds|, ds + [d];
    assert all[n] == d && (n > 0 ==> all[n - 1] == ds[n - 1]);
    if d.typ == Deleted && n > 0 && ds[n - 1].typ == Deleted {
      assert Dedup(all) == ds[..n - 1] + [if ds[n - 1].obj.FinalStateUnknown? then d else ds[n - 1]];
    }
  }

  /** One key's deltas grow by one, the others' stay, and the key queues up if it had none. */
  ghost predicate Queues(f: Fifo, f': Fifo, d: Delta) {
    && (forall k :: Queued(f', k) == if k == d.obj.key then Appended(Queued(f, k), d) else Queued(f, k))
    && f'.queue == (if d.obj.key in f.items then f.queue else f.queue + [d.obj.key])
    && f'.initialPopulationCount == f.initialPopulationCount
  }

  lemma ActionAt(f: Fifo, typ: DeltaType, obj: Object, k: string)
    ensures Queued(QueueAction(f, typ, obj), k)
         == if k == obj.key then Appended(Queued(f, k), Delta(typ, obj)) else Queued(f, k)
  {
    DedupIsAppended(Queued(f, obj.key), Delta(typ, obj));
    hide Dedup, Appended;
  }

  lemma ActionQueues(f: Fifo, typ: DeltaType, obj: Object)
    ensures Queues(f, QueueAction(f, typ, obj), Delta(typ, obj))
    ensures QueueAction(f, typ, obj).populated == f.populated
  {
    hide Queued, Appended, Dedup;
    forall k ensures Queued(QueueAction(f, typ, obj), k)
                  == if k == obj.key then Appended(Queued(f, k), Delta(typ, obj)) else Queued(f, k) {
      ActionAt(f, typ, obj, k);
    }
  }

  lemma AddQueues(f: Fifo, obj: Object)
    ensures Queues(f, Add(f, obj), Delta(Added, obj)) && Add(f, obj).populated
  {
    ActionQueues(f.(populated := true), Added, obj);
  }

  lemma UpdateQueues(f: Fifo, obj: Object)
    ensures Queues(f, Update(f, obj), Delta(Updated, obj)) && Update(f, obj).populated
  {
    ActionQueues(f.(populated := true), Updated, obj);
  }

  /** A deletion is queued exactly if the key is queued or known. */
  lemma DeleteQueues(cfg: Config, f: Fifo, store: Store, obj: Object)
    ensures var f' := Delete(cfg, f, store, obj);
            && f'.populated
            && if obj.key in f.items || (cfg.known && obj.key in store) then Queues(f, f', Delta(Deleted, obj))
               else f'.items == f.items && f'.queue == f.queue && f'.initialPopulationCount == f.initialPopulationCount
  {
    ActionQueues(f.(populated := true), Deleted, obj);
  }

  // ---- Resync ------------------------------------------------------------------------------------

  /** Exactly the stored objects with nothing queued get one Sync delta each; nothing else changes. */
  lemma {:induction false} ResyncQueues(cfg: Config, f: Fifo, store: Store, order: seq<string>, k: string)
    requires StoreOk(store)
    ensures !cfg.known ==> Resync(cfg, f, store, order) == f
    ensures cfg.known ==>
      Queued(Resync(cfg, f, store, order), k) ==
        if k in order && k in store && Queued(f, k) == [] then [Delta(Sync, store[k])] else Queued(f, k)
  {
    hide QueueAction, Queued;
    if cfg.known && order != [] {
      var n := |order| - 1;
      ResyncQueues(cfg, f, store, order[..n], k);
      InLast(order, k);
      if order[n] in store {
        ActionAt(Resync(cfg, f, store, order[..n]), Sync, store[order[n]], k);
      }
    }
  }

  /** Over all stored keys: every one of them is queued afterwards, those that were with what they had. */
  lemma ResyncTellsAll(cfg: Config, f: Fifo, store: Store, order: seq<string>)
    requires cfg.known && FifoOk(f, store) && StoreOk(store) && Enumerates(order, store.Keys)
    ensures var f' := Resync(cfg, f, store, order);
            && (forall k :: k in store ==> k in f'.items)
            && (forall k :: k in store ==>
                  f'.items[k] == if k in f.items then f.items[k] else [Delta(Sync, store[k])])
            && (forall k :: k !in store ==> Queued(f', k) == Queued(f, k))
            && f.queue <= f'.queue && (forall k :: k in f'.queue <==> k in f.queue || k in store)
            && f'.populated == f.populated && f'.initialPopulationCount == f.initialPopulationCount
  {
    hide Resync, View, FifoOk, Queued, StoreOk;
    var f' := Resync(cfg, f, store, order);
    ResyncView(cfg, f, store, order);
    forall k
      ensures Queued(f', k) == if k in store && Queued(f, k) == [] then [Delta(Sync, store[k])] else Queued(f, k)
    {
      ResyncQueues(cfg, f, store, order, k);
    }
    forall k
      ensures k in f'.items <==> k in f.items || k in store
      ensures k in f'.items ==> f'.items[k] == Queued(f', k)
      ensures k in f.items ==> f.items[k] == Queued(f, k)
      ensures k in f.items <==> Queued(f, k) != []
      ensures k in f'.queue <==> k in f'.items
      ensures k in f.queue <==> k in f.items
    {
      QueuedItems(f, store, k);
      QueuedItems(f', store, k);
    }
  }

  lemma QueuedItems(f: Fifo, store: Store, k: string)
    requires FifoOk(f, store)
    ensures k in f.items <==> Queued(f, k) != []
    ensures k in f.items ==> f.items[k] == Queued(f, k)
    ensures k in f.queue <==> k in f.items
  {
  }

  // ---- Replace -----------------------------------------------------------------------------------

  /** The listed objects with this key, in the order of the list. */
  function Occurrences(list: seq<Object>, typ: DeltaType, k: string): Deltas {
    if list == [] then []
    else
      var rest, o := Occurrences(list[..|list| - 1], typ, k), list[|list| - 1];
      if o.key == k then rest + [Delta(typ, o)] else rest
  }

  lemma {:induction false} QueueAllQueues(f: Fifo, typ: DeltaType, list: seq<Object>, k: string)
    requires typ != Deleted
    ensures Queued(QueueAll(f, typ, list), k) == Queued(f, k) + Occurrences(list, typ, k)
    ensures Occurrences(list, typ, k) == [] <==> k !in ListedKeys(list)
  {
    hide QueueAction, Queued;
    if list != [] {
      var n := |list| - 1;
      QueueAllQueues(f, typ, list[..n], k);
      ActionAt(QueueAll(f, typ, list[..n]), typ, list[n], k);
      var rest := Occurrences(list[..n], typ, k);
      assert Queued(f, k) + (rest + [Delta(typ, list[n])]) == Queued(f, k) + rest + [Delta(typ, list[n])];
    } else {
      assert Queued(f, k) + [] == Queued(f, k);
    }
  }

  lemma {:induction false} QueueDeletionsQueues(f: Fifo, order: seq<string>, listed: set<string>, last: Store,
                                                 k: string)
    requires NoDup(order)
    ensures Queued(QueueDeletions(f, order, listed, last), k) ==
      if k in order && k !in listed
      then Appended(Queued(f, k), Delta(Deleted, FinalStateUnknown(k, Get(last, k)))) else Queued(f, k)
  {
    hide QueueAction, Queued, Appended;
    if order != [] {
      var n := |order| - 1;
      QueueDeletionsQueues(f, order[..n], listed, last, k);
      InLast(order, k);
      OnceOnly(order);
      hide NoDup;
      var v := FinalStateUnknown(order[n], Get(last, order[n]));
      ActionAt(QueueDeletions(f, order[..n], listed, last), Deleted, v, k);
    }
  }

  lemma OnceOnly(order: seq<string>)
    requires NoDup(order) && order != []
    ensures order[|order| - 1] !in order[..|order| - 1]
  {
  }

  /** Every listed object is queued, as Replaced or Sync. A present key that is not listed gets a deletion
      with the last known object: the stored one, or without known objects the newest queued. */
  lemma ReplaceQueuesExactly(cfg: Config, f: Fifo, store: Store, list: seq<Object>, order: seq<string>, k: string)
    requires FifoOk(f, store) && ReplaceOrder(cfg, f, store, list, order)
    ensures var ds, ds' := Queued(f, k), Queued(Replace(cfg, f, store, list, order), k);
            && (k in ListedKeys(list) ==> ds' == ds + Occurrences(list, if cfg.emitReplaced then Replaced else Sync, k))
            && (k !in ListedKeys(list) && cfg.known && k in store ==>
                  ds' == Appended(ds, Delta(Deleted, FinalStateUnknown(k, Some(store[k])))))
            && (k !in ListedKeys(list) && !cfg.known && ds != [] ==>
                  ds' == Appended(ds, Delta(Deleted, FinalStateUnknown(k, Some(ds[|ds| - 1].obj)))))
            && (k !in ListedKeys(list) && (if cfg.known then k !in store else ds == []) ==> ds' == ds)
  {
    hide Replace, QueueAll, QueueDeletions, Queued, Appended, ListedKeys, Occurrences, FifoOk, Present, Enumerates;
    var listed, f1 := ListedKeys(list), QueueAll(f, ReplaceType(cfg), list);
    var last := Present(cfg, f1, store);
    QueueAllQueues(f, ReplaceType(cfg), list, k);
    var g1, g2 := ReplaceLoops(cfg, f, store, list, order);
    SameQueued(Replace(cfg, f, store, list, order), g2, k);
    PresentOnce(cfg, f1, store, order);
    QueueDeletionsQueues(f1, order, listed, last, k);
    LastSeen(cfg, f1, store, k);
    QueuedItems(f1, store, k);
    assert Queued(f, k) + [] == Queued(f, k);
  }

  lemma SameQueued(f: Fifo, f': Fifo, k: string)
    requires f.items == f'.items
    ensures Queued(f, k) == Queued(f', k)
  {
  }

  lemma PresentOnce(cfg: Config, f: Fifo, store: Store, order: seq<string>)
    requires Enumerates(order, PresentKeys(cfg, f, store))
    ensures NoDup(order)
  {
  }

  lemma LastSeen(cfg: Config, f: Fifo, store: Store, k: string)
    ensures cfg.known && k in store ==> Get(Present(cfg, f, store), k) == Some(store[k])
    ensures !cfg.known && Queued(f, k) != [] ==>
      Get(Present(cfg, f, store), k) == Some(Queued(f, k)[|Queued(f, k)| - 1].obj)
  {
  }

  // ---- Pop and the notifications -----------------------------------------------------------------

  lemma PopTakesHead(f: Fifo)
    requires f.queue != []
    ensures var f' := PopHead(f);
            && f'.queue == f.queue[1..] && f'.populated == f.populated
            && f'.initialPopulationCount ==
                 (if f.initialPopulationCount > 0 then f.initialPopulationCount - 1 else f.initialPopulationCount)
            && forall k :: Queued(f', k) == if k == f.queue[0] then [] else Queued(f, k)
  {
  }

  function Subject(n: Notification): Object {
    match n case OnAdd(o) => o case OnUpdate(_, o) => o case OnDelete(o) => o
  }

  /** Listeners are told of every delta, in order, each with its own object; deletions as deletions. */
  lemma {:induction false} NotificationsAreDeltas(store: Store, ds: Deltas)
    ensures var ns := Process(store, ds).1;
            && |ns| == |ds|
            && forall i :: 0 <= i < |ds| ==> Subject(ns[i]) == ds[i].obj && (ns[i].OnDelete? <==> ds[i].typ == Deleted)
  {
    if ds != [] {
      NotificationsAreDeltas(store, ds[..|ds| - 1]);
    }
  }

  // ---- HasSynced without a first Replace ---------------------------------------------------------

  /** It is false at first, and true at once if an add, an update or a deletion comes before any Replace. */
  lemma SyncedByFirstChange(cfg: Config, store: Store, obj: Object)
    ensures !HasSynced(EMPTY)
    ensures HasSynced(Add(EMPTY, obj)) && HasSynced(Update(EMPTY, obj)) && HasSynced(Delete(cfg, EMPTY, store, obj))
  {
  }

  /** Once true it stays true. */
  lemma SyncedForGood(cfg: Config, s: System, op: Op)
    requires Inv(s) && Enabled(cfg, s, op) && HasSynced(s.fifo)
    ensures HasSynced(Next(cfg, s, op).fifo)
  {
    NextQueue(cfg, s, op);
    hide Inv, Next, Enabled;
  }
}
