/** pkg/informer: DeltaFIFO feeding processDeltas feeding the store, as a state machine on values. */
module InformerSpec {
  import opened Common

  /** FinalStateUnknown is the tombstone a relist leaves; `last` may itself be a tombstone. */
  datatype Object =
    | Live(key: string, data: string)
    | FinalStateUnknown(key: string, last: Option<Object>)

  datatype DeltaType = Added | Updated | Deleted | Replaced | Sync

  datatype Delta = Delta(typ: DeltaType, obj: Object)

  type Deltas = seq<Delta>
  type Store = map<string, Object>

  datatype Fifo = Fifo(items: map<string, Deltas>, queue: seq<string>, populated: bool, initialPopulationCount: int)

  const EMPTY := Fifo(map[], [], false, 0)

  /** emitReplaced: EmitDeltaTypeReplaced; known: whether knownObjects is set (to the store). */
  datatype Config = Config(emitReplaced: bool, known: bool)

  datatype Notification = OnAdd(obj: Object) | OnUpdate(oldObj: Object, newObj: Object) | OnDelete(obj: Object)

  // ---- DeltaFIFO ---------------------------------------------------------------------------------

  /** isDeletionDup: of two deletions in a row, keep the one that knows more. */
  function IsDup(a: Delta, b: Delta): Option<Delta> {
    if b.typ != Deleted || a.typ != Deleted then None
    else if b.obj.FinalStateUnknown? then Some(a) else Some(b)
  }

  function Dedup(ds: Deltas): Deltas {
    var n := |ds|;
    if n < 2 then ds
    else match IsDup(ds[n - 1], ds[n - 2])
      case None => ds
      case Some(out) => ds[n - 2 := out][..n - 1]
  }

  function Queued(f: Fifo, k: string): Deltas {
    if k in f.items then f.items[k] else []
  }

  /** queueActionLocked. */
  function QueueAction(f: Fifo, typ: DeltaType, obj: Object): Fifo {
    var k := obj.key;
    f.(items := f.items[k := Dedup(Queued(f, k) + [Delta(typ, obj)])],
       queue := if k in f.items then f.queue else f.queue + [k])
  }

  function Add(f: Fifo, obj: Object): Fifo {
    QueueAction(f.(populated := true), Added, obj)
  }

  function Update(f: Fifo, obj: Object): Fifo {
    QueueAction(f.(populated := true), Updated, obj)
  }

  /** A deletion of something neither queued nor known is not reported again. */
  function Delete(cfg: Config, f: Fifo, store: Store, obj: Object): Fifo {
    var f' := f.(populated := true);
    if obj.key !in f.items && (!cfg.known || obj.key !in store) then f' else QueueAction(f', Deleted, obj)
  }

  /** The first loop of Replace. */
  function QueueAll(f: Fifo, typ: DeltaType, list: seq<Object>): Fifo {
    if list == [] then f else QueueAction(QueueAll(f, typ, list[..|list| - 1]), typ, list[|list| - 1])
  }

  function ListedKeys(list: seq<Object>): set<string> {
    if list == [] then {} else ListedKeys(list[..|list| - 1]) + {list[|list| - 1].key}
  }

  /** The deletion loop of Replace over `order`: every key not listed gets a tombstone. */
  function QueueDeletions(f: Fifo, order: seq<string>, listed: set<string>, last: Store): Fifo {
    if order == [] then f
    else
      var f' := QueueDeletions(f, order[..|order| - 1], listed, last);
      var k := order[|order| - 1];
      if k in listed then f' else QueueAction(f', Deleted, FinalStateUnknown(k, Get(last, k)))
  }

  function Deletions(order: seq<string>, listed: set<string>): nat {
    if order == [] then 0
    else Deletions(order[..|order| - 1], listed) + (if order[|order| - 1] in listed then 0 else 1)
  }

  /** What deletion detection compares the list with: the known store, or the queue's own newest. */
  function Present(cfg: Config, f: Fifo, store: Store): Store {
    if cfg.known then store
    else map k | k in f.items && f.items[k] != [] :: f.items[k][|f.items[k]| - 1].obj
  }

  function PresentKeys(cfg: Config, f: Fifo, store: Store): set<string> {
    if cfg.known then store.Keys else f.items.Keys
  }

  function ReplaceType(cfg: Config): DeltaType { if cfg.emitReplaced then Replaced else Sync }

  /** `order` is the order in which the present keys are met. */
  function Replace(cfg: Config, f: Fifo, store: Store, list: seq<Object>, order: seq<string>): Fifo {
    var listed := ListedKeys(list);
    var f1 := QueueAll(f, ReplaceType(cfg), list);
    var f2 := QueueDeletions(f1, order, listed, Present(cfg, f1, store));
    if f.populated then f2
    else f2.(populated := true, initialPopulationCount := |listed| + Deletions(order, listed))
  }

  ghost predicate ReplaceOrder(cfg: Config, f: Fifo, store: Store, list: seq<Object>, order: seq<string>) {
    Enumerates(order, PresentKeys(cfg, QueueAll(f, ReplaceType(cfg), list), store))
  }

  /** Resync over the keys met so far: a Sync for every known object with nothing queued. */
  function Resync(cfg: Config, f: Fifo, store: Store, order: seq<string>): Fifo {
    if !cfg.known || order == [] then f
    else
      var f' := Resync(cfg, f, store, order[..|order| - 1]);
      var k := order[|order| - 1];
      if k !in store || Queued(f', store[k].key) != [] then f' else QueueAction(f', Sync, store[k])
  }

  predicate HasSynced(f: Fifo) { f.populated && f.initialPopulationCount == 0 }

  function CountDown(n: int): int { if n > 0 then n - 1 else n }

  function PopHead(f: Fifo): Fifo
    requires f.queue != []
  {
    f.(items := f.items - {f.queue[0]}, queue := f.queue[1..],
       initialPopulationCount := CountDown(f.initialPopulationCount))
  }

  /** Pop passes over a head without deltas, which no reachable queue has. */
  function SkipMissing(f: Fifo): (r: Fifo)
    ensures r.queue != [] ==> r.queue[0] in r.items
    decreases |f.queue|
  {
    if f.queue == [] || f.queue[0] in f.items then f
    else SkipMissing(f.(queue := f.queue[1..], initialPopulationCount := CountDown(f.initialPopulationCount)))
  }

  // ---- processDeltas -----------------------------------------------------------------------------

  function ApplyOne(store: Store, d: Delta): (Store, Notification) {
    if d.typ == Deleted then (store - {d.obj.key}, OnDelete(d.obj))
    else if d.obj.key in store then (store[d.obj.key := d.obj], OnUpdate(store[d.obj.key], d.obj))
    else (store[d.obj.key := d.obj], OnAdd(d.obj))
  }

  function Process(store: Store, ds: Deltas): (Store, seq<Notification>) {
    if ds == [] then (store, [])
    else
      var (s, ns) := Process(store, ds[..|ds| - 1]);
      var (s', n) := ApplyOne(s, ds[|ds| - 1]);
      (s', ns + [n])
  }

  // ---- What it is all for ------------------------------------------------------------------------

  function Get(store: Store, k: string): Option<Object> {
    if k in store then Some(store[k]) else None
  }

  /** The object under a key once these deltas have been applied. */
  function Outcome(ds: Deltas, v: Option<Object>): Option<Object> {
    if ds == [] then v
    else if ds[|ds| - 1].typ == Deleted then None else Some(ds[|ds| - 1].obj)
  }

  /** The replica's view of a key: the store with everything queued for the key applied. */
  function View(f: Fifo, store: Store, k: string): Option<Object> {
    Outcome(Queued(f, k), Get(store, k))
  }

  /** The newest object listed under a key. */
  function Listed(list: seq<Object>, k: string): Option<Object> {
    if list == [] then None
    else if list[|list| - 1].key == k then Some(list[|list| - 1]) else Listed(list[..|list| - 1], k)
  }

  /** A listener that trusts its notifications, starting from a store: None once one is out of place. */
  function Hear(store: Store, n: Notification): Option<Store> {
    match n
    case OnAdd(o) => if o.key in store then None else Some(store[o.key := o])
    case OnUpdate(old_, o) => if Get(store, o.key) == Some(old_) then Some(store[o.key := o]) else None
    case OnDelete(o) => if o.key in store then Some(store - {o.key}) else None
  }

  function Replay(trace: seq<Notification>, store: Store): Option<Store> {
    if trace == [] then Some(store)
    else match Replay(trace[..|trace| - 1], store)
      case None => None
      case Some(s) => Hear(s, trace[|trace| - 1])
  }

  // ---- The invariant -----------------------------------------------------------------------------

  predicate PresentAfter(ds: Deltas, present: bool) {
    if ds == [] then present else ds[|ds| - 1].typ != Deleted
  }

  /** One key's deltas: every Deleted follows a state in which the object is present. */
  ghost predicate DeltasOk(ds: Deltas, k: string, present: bool) {
    ds == [] ||
    var n := |ds| - 1;
    && DeltasOk(ds[..n], k, present)
    && ds[n].obj.key == k && (ds[n].typ == Deleted ==> PresentAfter(ds[..n], present))
  }

  /** No duplicates in queue, a key is queued iff it has deltas, and each accumulator makes sense for
      the store as it is. */
  ghost predicate FifoOk(f: Fifo, store: Store) {
    && Enumerates(f.queue, f.items.Keys)
    && (forall k :: k in f.items ==> f.items[k] != [] && DeltasOk(f.items[k], k, k in store))
  }

  ghost predicate StoreOk(store: Store) {
    forall k :: k in store ==> store[k].key == k
  }

  /** f' came from f by queueing alone. */
  ghost predicate Grown(f: Fifo, f': Fifo) {
    && f.queue <= f'.queue && f.items.Keys <= f'.items.Keys
    && f'.populated == f.populated && f'.initialPopulationCount == f.initialPopulationCount
  }

  // ---- Proof: one action -------------------------------------------------------------------------

  lemma DedupOutcome(ds: Deltas, d: Delta, v: Option<Object>, k: string, present: bool)
    requires DeltasOk(ds, k, present)
    requires d.obj.key == k && (d.typ == Deleted && ds == [] ==> present)
    ensures DeltasOk(Dedup(ds + [d]), k, present) && Dedup(ds + [d]) != []
    ensures Outcome(Dedup(ds + [d]), v) == if d.typ == Deleted then None else Some(d.obj)
  {
  }

  /** A queued action sets or clears one key of the view and moves no other; the queue only grows, at
      its end, and only by that key. */
  lemma ActionView(f: Fifo, store: Store, typ: DeltaType, obj: Object)
    requires FifoOk(f, store) && (typ == Deleted ==> obj.key in f.items || obj.key in store)
    ensures FifoOk(QueueAction(f, typ, obj), store) && Grown(f, QueueAction(f, typ, obj))
    ensures forall k :: View(QueueAction(f, typ, obj), store, k)
              == if k != obj.key then View(f, store, k) else if typ == Deleted then None else Some(obj)
    ensures QueueAction(f, typ, obj).items.Keys == f.items.Keys + {obj.key}
  {
    hide Dedup, Enumerates, DeltasOk, Outcome, Grown;
    DedupOutcome(Queued(f, obj.key), Delta(typ, obj), Get(store, obj.key), obj.key, obj.key in store);
    ActionQueue(f, typ, obj);
    hide QueueAction;
    var f' := QueueAction(f, typ, obj);
    forall k ensures Queued(f', k) == if k == obj.key then Dedup(Queued(f, k) + [Delta(typ, obj)]) else Queued(f, k) {
      ActionQueued(f, typ, obj, k);
    }
    forall k | k in f'.items ensures f'.items[k] != [] && DeltasOk(f'.items[k], k, k in store) {
      assert Queued(f', k) == f'.items[k];
      assert k in f.items ==> Queued(f, k) == f.items[k];
    }
  }

  lemma ActionQueued(f: Fifo, typ: DeltaType, obj: Object, k: string)
    ensures Queued(QueueAction(f, typ, obj), k)
         == if k == obj.key then Dedup(Queued(f, k) + [Delta(typ, obj)]) else Queued(f, k)
  {
  }

  lemma ActionQueue(f: Fifo, typ: DeltaType, obj: Object)
    requires Enumerates(f.queue, f.items.Keys)
    ensures QueueAction(f, typ, obj).items.Keys == f.items.Keys + {obj.key}
    ensures Grown(f, QueueAction(f, typ, obj))
    ensures Enumerates(QueueAction(f, typ, obj).queue, QueueAction(f, typ, obj).items.Keys)
  {
    hide Dedup, Enumerates;
    var f', k := QueueAction(f, typ, obj), obj.key;
    assert f'.items.Keys == f.items.Keys + {k};
    if k in f.items {
      assert f'.items.Keys == f.items.Keys;
    } else {
      EnumerateOneMore(f.queue, f.items.Keys, k);
    }
  }

  /** Add and Update set one key of the view. */
  lemma AddView(f: Fifo, store: Store, obj: Object)
    requires FifoOk(f, store)
    ensures FifoOk(Add(f, obj), store) && FifoOk(Update(f, obj), store)
    ensures forall k :: View(Add(f, obj), store, k) == if k == obj.key then Some(obj) else View(f, store, k)
    ensures forall k :: View(Update(f, obj), store, k) == if k == obj.key then Some(obj) else View(f, store, k)
  {
    var f' := f.(populated := true);
    assert forall k :: View(f', store, k) == View(f, store, k);
    ActionView(f', store, Added, obj);
    ActionView(f', store, Updated, obj);
  }

  /** Delete clears one key of the view, unless the deletion cannot be seen: no known objects, nothing
      queued, and the key in the store. */
  lemma DeleteView(cfg: Config, f: Fifo, store: Store, obj: Object)
    requires FifoOk(f, store)
    ensures FifoOk(Delete(cfg, f, store, obj), store)
    ensures forall k :: k != obj.key ==> View(Delete(cfg, f, store, obj), store, k) == View(f, store, k)
    ensures View(Delete(cfg, f, store, obj), store, obj.key) == None
        <==> cfg.known || obj.key in f.items || obj.key !in store
  {
    var f' := f.(populated := true);
    assert forall k :: View(f', store, k) == View(f, store, k);
    if obj.key in f.items || (cfg.known && obj.key in store) {
      ActionView(f', store, Deleted, obj);
    }
  }

  // ---- Proof: Replace ----------------------------------------------------------------------------

  lemma ListedKey(list: seq<Object>, k: string)
    ensures k in ListedKeys(list) <==> Listed(list, k).Some?
  {
  }

  lemma {:induction false} QueueAllView(f: Fifo, store: Store, typ: DeltaType, list: seq<Object>)
    requires FifoOk(f, store) && typ != Deleted
    ensures FifoOk(QueueAll(f, typ, list), store) && Grown(f, QueueAll(f, typ, list))
    ensures QueueAll(f, typ, list).items.Keys == f.items.Keys + ListedKeys(list)
    ensures forall k :: View(QueueAll(f, typ, list), store, k)
              == if Listed(list, k).Some? then Listed(list, k) else View(f, store, k)
  {
    hide Enumerates, View, QueueAction, FifoOk;
    if list != [] {
      var n := |list| - 1;
      QueueAllView(f, store, typ, list[..n]);
      ActionView(QueueAll(f, typ, list[..n]), store, typ, list[n]);
    }
  }

  lemma {:induction false} QueueDeletionsView(f: Fifo, store: Store, order: seq<string>, listed: set<string>,
                                              last: Store)
    requires FifoOk(f, store) && forall k :: k in order ==> k in f.items || k in store
    ensures FifoOk(QueueDeletions(f, order, listed, last), store) && Grown(f, QueueDeletions(f, order, listed, last))
    ensures forall k :: k in QueueDeletions(f, order, listed, last).items <==>
        k in f.items || (k in order && k !in listed)
    ensures forall k :: View(QueueDeletions(f, order, listed, last), store, k)
              == if k in order && k !in listed then None else View(f, store, k)
  {
    hide Enumerates, View, QueueAction, FifoOk;
    if order != [] {
      var n := |order| - 1;
      assert order == order[..n] + [order[n]];
      var f' := QueueDeletions(f, order[..n], listed, last);
      QueueDeletionsView(f, store, order[..n], listed, last);
      if order[n] !in listed {
        ActionView(f', store, Deleted, FinalStateUnknown(order[n], Get(last, order[n])));
      }
    }
  }

  /** The two loops of Replace, one after the other. */
  lemma ReplaceLoops(cfg: Config, f: Fifo, store: Store, list: seq<Object>, order: seq<string>)
    returns (f1: Fifo, f2: Fifo)
    requires FifoOk(f, store) && ReplaceOrder(cfg, f, store, list, order)
    ensures f1 == QueueAll(f, ReplaceType(cfg), list)
    ensures f2 == QueueDeletions(f1, order, ListedKeys(list), Present(cfg, f1, store))
    ensures Grown(f, f1) && FifoOk(f1, store) && f1.items.Keys == f.items.Keys + ListedKeys(list)
    ensures Grown(f1, f2) && FifoOk(f2, store)
    ensures f2.items == Replace(cfg, f, store, list, order).items
    ensures f2.queue == Replace(cfg, f, store, list, order).queue
    ensures forall k :: k in order <==> if cfg.known then k in store else k in f1.items
  {
    hide Enumerates, View, FifoOk, QueueAll, QueueDeletions, Deletions, Listed, ListedKeys;
    f1 := QueueAll(f, ReplaceType(cfg), list);
    QueueAllView(f, store, ReplaceType(cfg), list);
    f2 := QueueDeletions(f1, order, ListedKeys(list), Present(cfg, f1, store));
    OrderIsPresent(cfg, f1, store, order);
    QueueDeletionsView(f1, store, order, ListedKeys(list), Present(cfg, f1, store));
  }

  lemma ReplaceKeeps(cfg: Config, f: Fifo, store: Store, list: seq<Object>, order: seq<string>)
    requires FifoOk(f, store) && ReplaceOrder(cfg, f, store, list, order)
    ensures FifoOk(Replace(cfg, f, store, list, order), store)
    ensures f.queue <= Replace(cfg, f, store, list, order).queue
  {
    var f1, f2 := ReplaceLoops(cfg, f, store, list, order);
    hide FifoOk, View, Replace, ReplaceOrder;
    SameItems(f2, Replace(cfg, f, store, list, order), store);
  }

  /** Everything queued after Replace: what was, what is listed, what it found missing. */
  lemma ReplaceQueues(cfg: Config, f: Fifo, store: Store, list: seq<Object>, order: seq<string>, k: string)
    requires FifoOk(f, store) && ReplaceOrder(cfg, f, store, list, order)
    ensures k in Replace(cfg, f, store, list, order).items
       <==> k in f.items || k in ListedKeys(list) || k in PresentKeys(cfg, f, store)
  {
    hide Enumerates, View, QueueAll, QueueDeletions, Deletions, Listed, ListedKeys, FifoOk, Replace, ReplaceOrder;
    var f1, f2 := ReplaceLoops(cfg, f, store, list, order);
    QueueDeletionsView(f1, store, order, ListedKeys(list), Present(cfg, f1, store));
  }

  /** Replace makes the view agree with the list on every listed key, removes every present key that
      is not listed, and leaves the others, which nothing compares with the list. */
  lemma ReplaceView(cfg: Config, f: Fifo, store: Store, list: seq<Object>, order: seq<string>, k: string)
    requires FifoOk(f, store) && ReplaceOrder(cfg, f, store, list, order)
    ensures View(Replace(cfg, f, store, list, order), store, k)
         == if Listed(list, k).Some? then Listed(list, k)
            else if k in PresentKeys(cfg, f, store) then None
            else View(f, store, k)
  {
    hide Enumerates, View, QueueAll, QueueDeletions, Deletions, Listed, ListedKeys, FifoOk, Replace, ReplaceOrder;
    var f1, f2 := ReplaceLoops(cfg, f, store, list, order);
    ListedKey(list, k);
    QueueAllView(f, store, ReplaceType(cfg), list);
    QueueDeletionsView(f1, store, order, ListedKeys(list), Present(cfg, f1, store));
    SameItems(f2, Replace(cfg, f, store, list, order), store);
  }

  lemma OrderIsPresent(cfg: Config, f: Fifo, store: Store, order: seq<string>)
    requires Enumerates(order, PresentKeys(cfg, f, store))
    ensures forall k :: k in order <==> if cfg.known then k in store else k in f.items
  {
  }

  lemma SameItems(f: Fifo, f': Fifo, store: Store)
    requires f'.items == f.items && f'.queue == f.queue
    ensures FifoOk(f, store) ==> FifoOk(f', store)
    ensures forall k :: View(f', store, k) == View(f, store, k)
  {
  }

  /** The view becomes exactly the list if and only if nothing that deletion detection overlooks is
      still there: with known objects, a key that is only queued, with its pending add; without, a key
      that is only stored. */
  lemma ReplaceIsListIff(cfg: Config, f: Fifo, store: Store, list: seq<Object>, order: seq<string>)
    requires FifoOk(f, store) && ReplaceOrder(cfg, f, store, list, order)
    ensures (forall k :: View(Replace(cfg, f, store, list, order), store, k) == Listed(list, k))
       <==> if cfg.known
            then forall k :: k in f.items && k !in store && k !in ListedKeys(list) ==>
                f.items[k][|f.items[k]| - 1].typ == Deleted
            else store.Keys <= f.items.Keys + ListedKeys(list)
  {
    hide Replace, FifoOk, ReplaceOrder, View, Listed, ListedKeys;
    var f' := Replace(cfg, f, store, list, order);
    Overlooked(cfg, f, store, list);
    forall k ensures View(f', store, k) == Listed(list, k)
                <==> (k !in ListedKeys(list) && k !in PresentKeys(cfg, f, store) ==> View(f, store, k) == None) {
      ReplaceView(cfg, f, store, list, order, k);
      ListedKey(list, k);
    }
    assert (forall k :: View(f', store, k) == Listed(list, k)) <==>
           (forall k :: k !in ListedKeys(list) && k !in PresentKeys(cfg, f, store) ==> View(f, store, k) == None);
  }

  /** With known objects: a relist that no longer lists a key leaves its pending add. */
  lemma PendingAddOutlivesRelist(obj: Object)
    ensures var cfg, f := Config(true, true), Add(EMPTY, obj);
            && FifoOk(f, map[]) && ReplaceOrder(cfg, f, map[], [], [])
            && Listed([], obj.key) == None && View(Replace(cfg, f, map[], [], []), map[], obj.key) == Some(obj)
  {
    var f := Add(EMPTY, obj);
    EmptyOk(map[]);
    AddView(EMPTY, map[], obj);
    SameItems(f, Replace(Config(true, true), f, map[], [], []), map[]);
  }

  /** Without: a deletion of what has already been popped is dropped. */
  lemma DeletionOfPoppedIsLost(obj: Object)
    ensures FifoOk(EMPTY, map[obj.key := obj])
    ensures View(Delete(Config(true, false), EMPTY, map[obj.key := obj], obj), map[obj.key := obj], obj.key) ==
        Some(obj)
  {
    EmptyOk(map[obj.key := obj]);
  }

  lemma Overlooked(cfg: Config, f: Fifo, store: Store, list: seq<Object>)
    requires FifoOk(f, store)
    ensures (forall k :: k !in ListedKeys(list) && k !in PresentKeys(cfg, f, store) ==> View(f, store, k) == None)
       <==> if cfg.known
            then forall k :: k in f.items && k !in store && k !in ListedKeys(list) ==>
                f.items[k][|f.items[k]| - 1].typ == Deleted
            else store.Keys <= f.items.Keys + ListedKeys(list)
  {
  }

  // ---- Proof: Resync and Pop ---------------------------------------------------------------------

  lemma {:induction false} ResyncView(cfg: Config, f: Fifo, store: Store, order: seq<string>)
    requires FifoOk(f, store) && StoreOk(store)
    ensures FifoOk(Resync(cfg, f, store, order), store) && Grown(f, Resync(cfg, f, store, order))
    ensures forall k :: View(Resync(cfg, f, store, order), store, k) == View(f, store, k)
  {
    hide Enumerates, QueueAction, FifoOk;
    if cfg.known && order != [] {
      var n := |order| - 1;
      ResyncView(cfg, f, store, order[..n]);
      var f' := Resync(cfg, f, store, order[..n]);
      var k := order[n];
      if k in store && Queued(f', store[k].key) == [] {
        assert View(f', store, k) == Some(store[k]);
        ActionView(f', store, Sync, store[k]);
      }
    }
  }

  /** Applying one key's deltas changes that key alone, to their outcome, and a listener that held the
      store before holds it after. */
  lemma {:induction false} ProcessIsOutcome(store: Store, ds: Deltas, k: string)
    requires DeltasOk(ds, k, k in store)
    requires StoreOk(store)
    ensures Process(store, ds).0 - {k} == store - {k}
    ensures Get(Process(store, ds).0, k) == Outcome(ds, Get(store, k))
    ensures StoreOk(Process(store, ds).0)
    ensures Replay(Process(store, ds).1, store) == Some(Process(store, ds).0)
  {
    if ds != [] {
      var n := |ds| - 1;
      ProcessIsOutcome(store, ds[..n], k);
      var s := Process(store, ds[..n]).0;
      var ns := Process(store, ds[..n]).1;
      var s' := ApplyOne(s, ds[n]).0;
      var m := ApplyOne(s, ds[n]).1;
      assert (ns + [m])[..n] == ns by { ProcessLength(store, ds[..n]); }
      ApplyOneHeard(s, ds[n], k);
      assert s' - {k} == s - {k};
      assert Get(s, k) == Outcome(ds[..n], Get(store, k));
      assert |ns| == n && (ns + [m])[n] == m by { ProcessLength(store, ds[..n]); }
    }
  }

  lemma ApplyOneHeard(s: Store, d: Delta, k: string)
    requires d.obj.key == k && StoreOk(s)
    ensures StoreOk(ApplyOne(s, d).0) && ApplyOne(s, d).0 - {k} == s - {k}
    ensures Get(ApplyOne(s, d).0, k) == if d.typ == Deleted then None else Some(d.obj)
    ensures (d.typ == Deleted ==> k in s) ==> Hear(s, ApplyOne(s, d).1) == Some(ApplyOne(s, d).0)
  {
  }

  lemma ProcessLength(store: Store, ds: Deltas)
    ensures |Process(store, ds).1| == |ds|
  {
  }

  lemma NothingQueued(f: Fifo, store: Store, k: string)
    requires k !in f.items
    ensures View(f, store, k) == Get(store, k)
  {
  }

  lemma Elsewhere(s: Store, s': Store, k: string, j: string)
    requires s' - {k} == s - {k} && j != k
    ensures Get(s', j) == Get(s, j)
  {
    assert j in s <==> j in s - {k};
    assert j in s' <==> j in s' - {k};
    if j in s { assert (s - {k})[j] == (s' - {k})[j]; }
  }

  /** Pop with processDeltas moves one key's news from the queue into the store, which changes nothing
      of the view. */
  lemma PopView(f: Fifo, store: Store)
    requires FifoOk(f, store) && StoreOk(store) && f.queue != []
    ensures f.queue[0] in f.items
    ensures var s' := Process(store, f.items[f.queue[0]]).0;
            forall k :: View(PopHead(f), s', k) == View(f, store, k)
  {
    hide Process, DeltasOk, Replay, FifoOk, StoreOk, Outcome;
    HeadOk(f, store);
    var k := f.queue[0];
    ProcessIsOutcome(store, f.items[k], k);
    var s' := Process(store, f.items[k]).0;
    forall j ensures View(PopHead(f), s', j) == View(f, store, j) {
      if j == k {
        NothingQueued(PopHead(f), s', k);
      } else {
        Elsewhere(store, s', k, j);
      }
    }
  }

  lemma PopKeeps(f: Fifo, store: Store)
    requires FifoOk(f, store) && StoreOk(store) && f.queue != []
    ensures f.queue[0] in f.items
    ensures var s' := Process(store, f.items[f.queue[0]]).0; FifoOk(PopHead(f), s') && StoreOk(s')
  {
    hide Process, DeltasOk, Replay, StoreOk, Outcome, Enumerates;
    HeadOk(f, store);
    var k := f.queue[0];
    ProcessIsOutcome(store, f.items[k], k);
    var s' := Process(store, f.items[k]).0;
    EnumerateOneLess(f.queue, f.items.Keys, 0);
    assert f.queue[..0] + f.queue[0 + 1..] == f.queue[1..];
    assert PopHead(f).items.Keys == f.items.Keys - {k};
    forall j | j != k ensures j in s' <==> j in store { Elsewhere(store, s', k, j); }
  }

  // ---- Runs --------------------------------------------------------------------------------------

  datatype Op =
    | AddOp(obj: Object)
    | UpdateOp(obj: Object)
    | DeleteOp(obj: Object)
    | ReplaceOp(list: seq<Object>, order: seq<string>)
    | ResyncOp(order: seq<string>)
    | PopOp

  /** trace: every notification handed to the listeners so far. */
  datatype System = System(fifo: Fifo, store: Store, trace: seq<Notification>)

  ghost predicate Enabled(cfg: Config, s: System, op: Op) {
    match op
    case ReplaceOp(list, order) => ReplaceOrder(cfg, s.fifo, s.store, list, order)
    case PopOp => s.fifo.queue != [] && s.fifo.queue[0] in s.fifo.items
    case _ => true
  }

  ghost function Next(cfg: Config, s: System, op: Op): System
    requires Enabled(cfg, s, op)
  {
    match op
    case AddOp(obj) => s.(fifo := Add(s.fifo, obj))
    case UpdateOp(obj) => s.(fifo := Update(s.fifo, obj))
    case DeleteOp(obj) => s.(fifo := Delete(cfg, s.fifo, s.store, obj))
    case ReplaceOp(list, order) => s.(fifo := Replace(cfg, s.fifo, s.store, list, order))
    case ResyncOp(order) => s.(fifo := Resync(cfg, s.fifo, s.store, order))
    case PopOp =>
      var p := Process(s.store, s.fifo.items[s.fifo.queue[0]]);
      System(PopHead(s.fifo), p.0, s.trace + p.1)
  }

  ghost predicate Run(cfg: Config, states: seq<System>, ops: seq<Op>) {
    && |states| == |ops| + 1
    && (forall i :: 0 <= i < |ops| ==> Enabled(cfg, states[i], ops[i]) && states[i + 1] == Next(cfg, states[i], ops[i]))
  }

  ghost predicate Inv(s: System) {
    FifoOk(s.fifo, s.store) && StoreOk(s.store) && Replay(s.trace, map[]) == Some(s.store)
  }

  lemma {:induction false} ReplayConcat(a: seq<Notification>, b: seq<Notification>, store: Store)
    ensures Replay(a + b, store) == match Replay(a, store) case None => None case Some(s) => Replay(b, s)
  {
    if b == [] {
      assert a + b == a;
    } else {
      var n := |b| - 1;
      assert (a + b)[..|a + b| - 1] == a + b[..n];
      ReplayConcat(a, b[..n], store);
    }
  }

  lemma NextKeepsInv(cfg: Config, s: System, op: Op)
    requires Inv(s) && Enabled(cfg, s, op)
    ensures Inv(Next(cfg, s, op))
  {
    hide Enumerates, QueueAction, FifoOk, StoreOk, Replay, Process, PopHead, Add, Update, Delete, Replace, Resync;
    match op
    case AddOp(obj) => AddView(s.fifo, s.store, obj);
    case UpdateOp(obj) => AddView(s.fifo, s.store, obj);
    case DeleteOp(obj) => DeleteView(cfg, s.fifo, s.store, obj);
    case ReplaceOp(list, order) => ReplaceKeeps(cfg, s.fifo, s.store, list, order);
    case ResyncOp(order) => ResyncView(cfg, s.fifo, s.store, order);
    case PopOp =>
      PopKeeps(s.fifo, s.store);
      var k := s.fifo.queue[0];
      HeadOk(s.fifo, s.store);
      ProcessIsOutcome(s.store, s.fifo.items[k], k);
      ReplayConcat(s.trace, Process(s.store, s.fifo.items[k]).1, map[]);
  }

  lemma HeadOk(f: Fifo, store: Store)
    requires FifoOk(f, store) && f.queue != []
    ensures f.queue[0] in f.items && DeltasOk(f.items[f.queue[0]], f.queue[0], f.queue[0] in store)
  {
    assert f.queue[0] in f.queue;
  }

  /** Every run: the queue stays sound, and replaying the whole trace from nothing, checking every
      notification against what the listener holds, rebuilds the store. */
  lemma {:induction false} RunKeepsInv(cfg: Config, states: seq<System>, ops: seq<Op>, i: nat)
    requires Run(cfg, states, ops) && Inv(states[0]) && i < |states|
    ensures Inv(states[i])
  {
    if i > 0 {
      RunKeepsInv(cfg, states, ops, i - 1);
      NextKeepsInv(cfg, states[i - 1], ops[i - 1]);
    }
  }

  lemma EveryRunReplays(cfg: Config, states: seq<System>, ops: seq<Op>, i: nat)
    requires Run(cfg, states, ops) && states[0] == System(EMPTY, map[], []) && i < |states|
    ensures Replay(states[i].trace, map[]) == Some(states[i].store)
    ensures FifoOk(states[i].fifo, states[i].store)
  {
    RunKeepsInv(cfg, states, ops, i);
  }

  // ---- HasSynced ---------------------------------------------------------------------------------

  function Pops(ops: seq<Op>): nat {
    if ops == [] then 0 else Pops(ops[..|ops| - 1]) + (if ops[|ops| - 1].PopOp? then 1 else 0)
  }

  lemma {:induction false} DeletionCount(order: seq<string>, listed: set<string>)
    requires NoDup(order)
    ensures Deletions(order, listed) == |Elems(order) - listed|
  {
    if order != [] {
      var n := |order| - 1;
      DeletionCount(order[..n], listed);
      LastElem(order);
      hide Elems, NoDup;
      OneMoreUnlisted(Elems(order[..n]), listed, order[n]);
    }
  }

  lemma LastElem(order: seq<string>)
    requires NoDup(order) && order != []
    ensures var n := |order| - 1; Elems(order) == Elems(order[..n]) + {order[n]} && order[n] !in Elems(order[..n])
  {
    assert order == order[..|order| - 1] + [order[|order| - 1]];
  }

  lemma OneMoreUnlisted(keys: set<string>, listed: set<string>, k: string)
    requires k !in keys
    ensures |keys + {k} - listed| == |keys - listed| + if k in listed then 0 else 1
  {
    if k in listed {
      assert keys + {k} - listed == keys - listed;
    } else {
      assert keys + {k} - listed == (keys - listed) + {k};
    }
  }

  /** The first batch is the whole queue that a first Replace leaves: the listed keys and the deletions
      it detected, each once. */
  lemma FirstBatch(cfg: Config, store: Store, list: seq<Object>, order: seq<string>)
    requires ReplaceOrder(cfg, EMPTY, store, list, order)
    ensures var f := Replace(cfg, EMPTY, store, list, order);
            && f.populated && f.initialPopulationCount == |f.queue|
            && Enumerates(f.queue, ListedKeys(list) + (if cfg.known then store.Keys else {}))
  {
    hide FifoOk, Replace, ReplaceOrder, Enumerates, ListedKeys, Deletions;
    EmptyOk(store);
    ReplaceKeeps(cfg, EMPTY, store, list, order);
    var f := Replace(cfg, EMPTY, store, list, order);
    forall k ensures k in f.items.Keys <==> k in ListedKeys(list) + (if cfg.known then store.Keys else {}) {
      ReplaceQueues(cfg, EMPTY, store, list, order, k);
    }
    assert f.items.Keys == ListedKeys(list) + (if cfg.known then store.Keys else {});
    QueueIsItems(f, store);
    FirstCount(cfg, store, list, order);
  }

  lemma QueueIsItems(f: Fifo, store: Store)
    requires FifoOk(f, store)
    ensures Enumerates(f.queue, f.items.Keys)
  {
  }

  lemma FirstCount(cfg: Config, store: Store, list: seq<Object>, order: seq<string>)
    requires ReplaceOrder(cfg, EMPTY, store, list, order)
    ensures var f := Replace(cfg, EMPTY, store, list, order); f.populated && f.initialPopulationCount == |f.queue|
  {
    var f := Replace(cfg, EMPTY, store, list, order);
    assert f.populated && f.initialPopulationCount == |ListedKeys(list)| + Deletions(order, ListedKeys(list));
    hide FifoOk, Replace, QueueAll, Enumerates, ListedKeys, Deletions, QueueDeletions;
    EmptyOk(store);
    var f1, f2 := ReplaceLoops(cfg, EMPTY, store, list, order);
    ReplaceKeeps(cfg, EMPTY, store, list, order);
    QueueIsItems(f, store);
    forall k ensures k in f.items.Keys <==> k in ListedKeys(list) || k in order {
      ReplaceQueues(cfg, EMPTY, store, list, order, k);
    }
    BatchCount(f.queue, f.items.Keys, order, ListedKeys(list), PresentKeys(cfg, f1, store));
  }

  lemma EmptyOk(store: Store)
    ensures FifoOk(EMPTY, store)
  {
  }

  lemma BatchCount(queue: seq<string>, items: set<string>, order: seq<string>, listed: set<string>,
                   present: set<string>)
    requires Enumerates(queue, items) && Enumerates(order, present)
    requires forall k :: k in items <==> k in listed || k in order
    ensures |queue| == |listed| + Deletions(order, listed)
  {
    EnumerationCount(queue, items);
    DeletionCount(order, listed);
    assert items == listed + (Elems(order) - listed);
  }

  lemma NextQueue(cfg: Config, s: System, op: Op)
    requires Inv(s) && Enabled(cfg, s, op) && s.fifo.populated
    ensures var f, f' := s.fifo, Next(cfg, s, op).fifo;
            && f'.populated
            && (op.PopOp? ==>
                  f'.queue == f.queue[1..] && f'.initialPopulationCount == CountDown(f.initialPopulationCount))
            && (!op.PopOp? ==> f.queue <= f'.queue && f'.initialPopulationCount == f.initialPopulationCount)
  {
    hide Enumerates, FifoOk, StoreOk, Replay, Process;
    match op
    case ReplaceOp(list, order) =>
      var f1, f2 := ReplaceLoops(cfg, s.fifo, s.store, list, order);
    case ResyncOp(order) => ResyncView(cfg, s.fifo, s.store, order);
    case _ =>
  }

  function Rest<T>(s: seq<T>, p: nat): seq<T> { if p <= |s| then s[p..] else [] }

  /** After p pops the queue begins with exactly the keys of the batch that have not been popped, and
      HasSynced is true exactly once all of them have. */
  ghost predicate Syncing(f: Fifo, batch: seq<string>, p: nat) {
    && f.populated && f.initialPopulationCount == |Rest(batch, p)|
    && Rest(batch, p) <= f.queue
    && (HasSynced(f) <==> p >= |batch|)
  }

  lemma OneMorePop(f: Fifo, batch: seq<string>, p: nat)
    requires Syncing(f, batch, p) && f.queue != []
    ensures Syncing(PopHead(f), batch, p + 1)
  {
  }

  lemma MoreQueued(f: Fifo, f': Fifo, batch: seq<string>, p: nat)
    requires Syncing(f, batch, p) && f.queue <= f'.queue
    requires f'.populated && f'.initialPopulationCount == f.initialPopulationCount
    ensures Syncing(f', batch, p)
  {
  }

  /** When Replace comes first, that holds of its batch for good, whatever comes between. */
  lemma {:induction false} SyncedWhenBatchPopped(cfg: Config, states: seq<System>, ops: seq<Op>, i: nat)
    requires Run(cfg, states, ops) && Inv(states[0]) && states[0].fifo == EMPTY
    requires ops != [] && ops[0].ReplaceOp? && 1 <= i < |states|
    ensures Syncing(states[i].fifo, states[1].fifo.queue, Pops(ops[1..i]))
  {
    if i == 1 {
      hide Inv, Replace, ReplaceOrder;
      assert states[1].fifo == Replace(cfg, EMPTY, states[0].store, ops[0].list, ops[0].order);
      FirstBatch(cfg, states[0].store, ops[0].list, ops[0].order);
    } else {
      SyncedWhenBatchPopped(cfg, states, ops, i - 1);
      RunKeepsInv(cfg, states, ops, i - 1);
      assert Enabled(cfg, states[i - 1], ops[i - 1]) && states[i] == Next(cfg, states[i - 1], ops[i - 1]);
      assert ops[1..i][..i - 2] == ops[1..i - 1];
      hide Inv, Run;
      NextSyncing(cfg, states[i - 1], ops[i - 1], states[1].fifo.queue, Pops(ops[1..i - 1]));
    }
  }

  lemma NextSyncing(cfg: Config, s: System, op: Op, batch: seq<string>, p: nat)
    requires Inv(s) && Enabled(cfg, s, op) && Syncing(s.fifo, batch, p)
    ensures Syncing(Next(cfg, s, op).fifo, batch, if op.PopOp? then p + 1 else p)
  {
    NextQueue(cfg, s, op);
    hide Inv;
    if op.PopOp? {
      OneMorePop(s.fifo, batch, p);
    } else {
      hide Next, Enabled;
      MoreQueued(s.fifo, Next(cfg, s, op).fifo, batch, p);
    }
  }
}
