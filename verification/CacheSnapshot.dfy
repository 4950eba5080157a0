/** pkg/scheduler/cache/snapshot.go and cacheImpl.UpdateSnapshot with its helpers, in place. */
module CacheSnapshot {
  import opened Common
  import opened WorkerTree
  import opened Cache
  import Spec = CacheSpec
  import Snap = SnapshotSpec

  /** A WorkerInfo of a snapshot: the map and the list share it, so it is overwritten, not replaced. */
  class Cell {
    var info: Info

    constructor (info: Info)
      ensures this.info == info
    {
      this.info := info;
    }
  }

  /** Each entry of the list is the map's entry for the name at the same place. */
  ghost predicate Aligned(list: seq<Cell>, names: seq<string>, m: map<string, Cell>) {
    |list| == |names| && forall i :: 0 <= i < |list| ==> names[i] in m && list[i] == m[names[i]]
  }

  ghost predicate Separate(m: map<string, Cell>) {
    forall a, b :: a in m && b in m && m[a] == m[b] ==> a == b
  }

  class Snapshot {
    var workerInfoMap: map<string, Cell>
    var workerInfoList: seq<Cell>
    var generation: int
    ghost var listNames: seq<string>

    ghost predicate Rep()
      reads this
    {
      Separate(workerInfoMap) && Aligned(workerInfoList, listNames, workerInfoMap)
    }

    ghost function Map(): Spec.Infos
      reads this`workerInfoMap, workerInfoMap.Values
    {
      map n | n in workerInfoMap :: workerInfoMap[n].info
    }

    ghost function View(): Snap.Snapshot
      reads this, workerInfoMap.Values
    {
      Snap.Snapshot(Map(), listNames, generation)
    }

    lemma MapKeys()
      ensures Map().Keys == workerInfoMap.Keys && |Map()| == |workerInfoMap|
    {
    }

    method Size() returns (n: nat)
      ensures n == |Map()|
    {
      MapKeys();
      n := |workerInfoMap|;
    }

    constructor ()
      ensures Rep() && View() == Snap.NEW_SNAPSHOT
    {
      workerInfoMap, workerInfoList, generation, listNames := map[], [], 0, [];
    }

    /** The body of the walk for one entry. Returns whether a name was new. */
    method Store(info: Info) returns (added: bool)
      requires Separate(workerInfoMap)
      modifies this`workerInfoMap, workerInfoMap.Values
      ensures Separate(workerInfoMap) && Map() == Snap.Store(old(Map()), info)
      ensures forall n :: n in old(workerInfoMap) ==> n in workerInfoMap && workerInfoMap[n] == old(workerInfoMap)[n]
      ensures old(Map()).Keys <= Map().Keys && (added <==> Map().Keys != old(Map()).Keys)
      ensures fresh(workerInfoMap.Values - old(workerInfoMap.Values))
    {
      if info.worker.None? {
        return false;
      }
      var name := info.worker.value.name;
      if name in workerInfoMap {
        workerInfoMap[name].info := info;
        assert forall n :: n in workerInfoMap && n != name ==> workerInfoMap[n] != workerInfoMap[name];
        return false;
      }
      var cell := new Cell(info);
      assert cell !in workerInfoMap.Values;
      workerInfoMap := workerInfoMap[name := cell];
      assert name in Map() && name !in old(Map());
      return true;
    }

    /** removeDeletedWorkersFromSnapshot; `names` is the order of ranging over the map. */
    method RemoveDeleted(cache: SchedulerCache, names: seq<string>, surplus: int, ghost infos: Spec.Infos)
      requires Separate(workerInfoMap) && infos == cache.InfoMap()
      modifies this`workerInfoMap
      ensures Separate(workerInfoMap) && Map() == Snap.DeleteStale(infos, names, surplus, old(Map()))
      ensures workerInfoMap.Values <= old(workerInfoMap.Values)
    {
      var toDelete := surplus;
      var i := 0;
      while i < |names| && toDelete > 0
        invariant 0 <= i <= |names| && Separate(workerInfoMap)
        invariant Snap.DeleteStale(infos, names[i..], toDelete, Map()) ==
            Snap.DeleteStale(infos, names, surplus, old(Map()))
        invariant workerInfoMap.Values <= old(workerInfoMap.Values)
        decreases |names| - i
      {
        var name := names[i];
        assert names[i..][1..] == names[i + 1..];
        if name !in cache.workers || cache.workers[name].info.worker.None? {
          ghost var was := Map();
          workerInfoMap := workerInfoMap - {name};
          assert Map() == was - {name};
          toDelete := toDelete - 1;
        }
        i := i + 1;
      }
    }

    /** updateWorkerInfoSnapshotList. */
    method RebuildList(tree: Tree) returns (ghost listing: seq<string>)
      requires tree.Valid()
      modifies this`workerInfoList, this`listNames
      ensures Enumerates(listing, tree.zoneOf.Keys) && listNames == Snap.Rebuild(listing, Map())
      ensures Aligned(workerInfoList, listNames, workerInfoMap)
    {
      hide Tree.Valid, Enumerates, Map;
      ghost var m := Map();
      MapKeys();
      var all, _ := tree.List();
      listing := all;
      workerInfoList := [];
      listNames := [];
      var i := 0;
      while i < |all|
        invariant 0 <= i <= |all| && Aligned(workerInfoList, listNames, workerInfoMap)
        invariant listNames + Snap.Rebuild(all[i..], m) == Snap.Rebuild(all, m)
      {
        assert all[i..][1..] == all[i + 1..];
        if all[i] in workerInfoMap {
          ghost var rest := Snap.Rebuild(all[i + 1..], m);
          assert listNames + ([all[i]] + rest) == listNames + [all[i]] + rest;
          workerInfoList := workerInfoList + [workerInfoMap[all[i]]];
          listNames := listNames + [all[i]];
        }
        i := i + 1;
      }
    }
  }

  /** Every cell that was in the map is still there under its name. */
  ghost predicate Extends(m: map<string, Cell>, m': map<string, Cell>) {
    forall n :: n in m ==> n in m' && m'[n] == m[n]
  }

  /** The loop from headWorker on, left at the first entry not newer than the snapshot. */
  method Walk(cache: SchedulerCache, s: Snapshot, ghost infos: Spec.Infos) returns (added: bool)
    requires cache.Rep() && Separate(s.workerInfoMap) && infos == cache.InfoMap()
    modifies s`workerInfoMap, s.workerInfoMap.Values
    ensures Separate(s.workerInfoMap) && Extends(old(s.workerInfoMap), s.workerInfoMap)
    ensures s.Map() == Snap.Walk(cache.order, infos, s.generation, old(s.Map())) && infos == cache.InfoMap()
    ensures added <==> s.Map().Keys != old(s.Map()).Keys
    ensures fresh(s.workerInfoMap.Values - old(s.workerInfoMap.Values))
  {
    hide SchedulerCache.Rep, SchedulerCache.InfoMap, At, Extends, Snap.Store, Snapshot.Map, Separate;
    added := false;
    var worker := cache.headWorker;
    ghost var i: nat := 0;
    ghost var since, target := s.generation, Snap.Walk(cache.order, infos, s.generation, s.Map());
    ghost var m0, keys := s.workerInfoMap, s.Map().Keys;
    Start(cache);
    ExtendsSelf(m0);
    while worker != null && worker.info.generation > s.generation
      invariant i <= |cache.order| && At(cache, i, worker) && s.generation == since
      invariant cache.Rep() && cache.InfoMap() == infos
      invariant Separate(s.workerInfoMap) && Extends(m0, s.workerInfoMap)
      invariant Snap.Walk(cache.order[i..], infos, since, s.Map()) == target
      invariant keys <= s.Map().Keys && (added <==> s.Map().Keys != keys)
      invariant fresh(s.workerInfoMap.Values - m0.Values)
      decreases |cache.order| - i
    {
      Follow(cache, i, worker);
      ghost var m1 := s.workerInfoMap;
      var isNew := s.Store(worker.info);
      ExtendsMore(m0, m1, s.workerInfoMap);
      assert cache.order[i..][1..] == cache.order[i + 1..];
      added := added || isNew;
      worker := worker.next;
      i := i + 1;
    }
    Follow(cache, i, worker);
  }

  lemma ExtendsSelf(m: map<string, Cell>)
    ensures Extends(m, m)
  {
  }

  lemma ExtendsMore(m0: map<string, Cell>, m1: map<string, Cell>, m2: map<string, Cell>)
    requires Extends(m0, m1) && forall n :: n in m1 ==> n in m2 && m2[n] == m1[n]
    ensures Extends(m0, m2)
  {
  }

  /** The pointer stands at position i of the list, or past its end. */
  ghost predicate At(cache: SchedulerCache, i: nat, worker: Item?)
    reads cache
  {
    && i <= |cache.order| == |cache.nodes|
    && worker == (if i == |cache.nodes| then null else cache.nodes[i])
  }

  lemma Start(cache: SchedulerCache)
    requires cache.Rep()
    ensures At(cache, 0, cache.headWorker) && cache.order[0..] == cache.order
  {
  }

  lemma Follow(cache: SchedulerCache, i: nat, worker: Item?)
    requires cache.Rep() && At(cache, i, worker)
    ensures i <= |cache.order| && (worker == null <==> i == |cache.order|)
    ensures worker != null ==>
      && cache.order[i] in cache.InfoMap() && cache.InfoMap()[cache.order[i]] == worker.info
      && At(cache, i + 1, worker.next)
  {
  }

  lemma StillAligned(list: seq<Cell>, names: seq<string>, m: map<string, Cell>, m': map<string, Cell>)
    requires Aligned(list, names, m) && Extends(m, m')
    ensures Aligned(list, names, m')
  {
  }

  /** cacheImpl.UpdateSnapshot, for any order `names` of ranging over the map in the stale deletion.
      It does exactly what the refresh on values does, which is a full rebuild by
      SnapshotSpec.RefreshIsFullRebuild. */
  method UpdateSnapshot(cache: SchedulerCache, s: Snapshot, names: seq<string>)
    returns (ok: bool, ghost listing: seq<string>)
    requires cache.Rep() && s.Rep()
    modifies s, s.workerInfoMap.Values
    ensures Enumerates(listing, old(cache.View()).zoneOf.Keys)
    ensures (s.View(), ok) == Snap.Refresh(old(cache.View()), old(s.View()), names, listing)
    ensures s.Rep()
  {
    hide SchedulerCache.Rep, Separate, Aligned, Extends, Enumerates, SchedulerCache.InfoMap;
    hide Snapshot.Map, Snap.Walk, Snap.DeleteStale, Snap.Rebuild, Snap.Refresh, Snap.HeadGeneration, MapDone;
    ghost var c, s0 := cache.View(), s.View();
    var head := HeadGeneration(cache, s.generation);
    TreeCount(cache);
    hide Tree.Valid;
    var relist := UpdateMap(cache, s, names, c);
    ghost var m2 := s.Map();
    s.generation := head;
    ok, listing := RefreshList(cache.workerTree, s, relist);
    RefreshByParts(c, s0, names, listing, m2, relist, ok);
  }

  /** The walk and, if the map is larger than the tree, the deletion of stale names. */
  method UpdateMap(cache: SchedulerCache, s: Snapshot, names: seq<string>, ghost c: Spec.Cache) returns (relist: bool)
    requires cache.Rep() && s.Rep() && c == cache.View() && cache.workerTree.numWorkers == |c.zoneOf|
    modifies s`workerInfoMap, s.workerInfoMap.Values
    ensures Separate(s.workerInfoMap) && (relist || Aligned(s.workerInfoList, s.listNames, s.workerInfoMap))
    ensures MapDone(c, old(s.View()), names, s.Map(), relist)
  {
    hide SchedulerCache.Rep, Separate, Aligned, Extends, SchedulerCache.InfoMap, Snapshot.Map, Snap.Walk,
        Snap.DeleteStale;
    hide MapDone, Snap.Updated;
    ghost var m0, s0 := s.workerInfoMap, s.View();
    relist := Walk(cache, s, c.infos);
    StillAligned(s.workerInfoList, s.listNames, m0, s.workerInfoMap);
    UpdatedIsWalk(c, s0);
    WalkDone(c, s0, names, s.Map(), relist);
    var size := s.Size();
    var surplus := size - cache.workerTree.numWorkers;
    if surplus > 0 {
      s.RemoveDeleted(cache, names, surplus, c.infos);
      relist := true;
    }
  }

  /** What is known of the map m2 and of the need for a new list before the list is made. */
  ghost predicate MapDone(c: Spec.Cache, s0: Snap.Snapshot, names: seq<string>, m2: Spec.Infos, relist: bool) {
    var m1 := Snap.Updated(c, s0);
    var surplus := |m1| - |c.zoneOf|;
    && m2 == (if surplus > 0 then Snap.DeleteStale(c.infos, names, surplus, m1) else m1)
    && (relist <==> surplus > 0 || m1.Keys != s0.infos.Keys)
  }

  lemma UpdatedIsWalk(c: Spec.Cache, s: Snap.Snapshot)
    ensures Snap.Updated(c, s) == Snap.Walk(c.order, c.infos, s.generation, s.infos)
  {
  }

  lemma WalkDone(c: Spec.Cache, s0: Snap.Snapshot, names: seq<string>, m1: Spec.Infos, added: bool)
    requires m1 == Snap.Updated(c, s0) && (added <==> m1.Keys != s0.infos.Keys)
    ensures |m1| - |c.zoneOf| <= 0 ==> MapDone(c, s0, names, m1, added)
    ensures |m1| - |c.zoneOf| > 0 ==>
        MapDone(c, s0, names, Snap.DeleteStale(c.infos, names, |m1| - |c.zoneOf|, m1), true)
  {
    hide Snap.Walk, Snap.DeleteStale;
  }

  /** The refresh on values, put together from what the three parts return. */
  lemma RefreshByParts(c: Spec.Cache, s: Snap.Snapshot, names: seq<string>, listing: seq<string>,
                       m2: Spec.Infos, relist: bool, ok: bool)
    requires MapDone(c, s, names, m2, relist)
    requires ok <==> |if relist then Snap.Rebuild(listing, m2) else s.list| == |c.zoneOf|
    ensures Snap.Refresh(c, s, names, listing)
         == (Snap.Snapshot(m2, if ok && !relist then s.list else Snap.Rebuild(listing, m2),
                           Snap.HeadGeneration(c, s.generation)), ok)
  {
    hide Snap.Walk, Snap.DeleteStale, Snap.Rebuild, Snap.HeadGeneration;
  }

  /** The end of UpdateSnapshot: the list, its length check, and the attempt to recover. */
  method RefreshList(tree: Tree, s: Snapshot, relist: bool) returns (ok: bool, ghost listing: seq<string>)
    requires tree.Valid() && (relist || Aligned(s.workerInfoList, s.listNames, s.workerInfoMap))
    modifies s`workerInfoList, s`listNames
    ensures Enumerates(listing, tree.zoneOf.Keys)
    ensures Aligned(s.workerInfoList, s.listNames, s.workerInfoMap)
    ensures var list := if relist then Snap.Rebuild(listing, s.Map()) else old(s.listNames);
      && ok == (|list| == |tree.zoneOf|)
      && s.listNames == if ok then list else Snap.Rebuild(listing, s.Map())
  {
    assert tree.numWorkers == |tree.zoneOf|;
    hide Tree.Valid, Enumerates, Snapshot.Map, Snap.Rebuild;
    if relist {
      listing := s.RebuildList(tree);
    } else {
      listing := EnumerationExists(tree.zoneOf.Keys);
    }
    ghost var first := listing;
    ok := |s.workerInfoList| == tree.numWorkers;
    if !ok {
      listing := s.RebuildList(tree);
      SameCount(first, listing, tree.zoneOf.Keys, s.Map());
    }
  }

  lemma TreeCount(cache: SchedulerCache)
    requires cache.Rep()
    ensures cache.workerTree.Valid() && cache.workerTree.numWorkers == |cache.workerTree.zoneOf|
  {
  }

  lemma SameCount(a: seq<string>, b: seq<string>, keys: set<string>, m: Spec.Infos)
    requires Enumerates(a, keys) && Enumerates(b, keys)
    ensures |Snap.Rebuild(a, m)| == |Snap.Rebuild(b, m)|
  {
    Snap.RebuildAll(a, m);
    Snap.RebuildAll(b, m);
    EnumerationCount(Snap.Rebuild(a, m), keys * m.Keys);
    EnumerationCount(Snap.Rebuild(b, m), keys * m.Keys);
  }

  method HeadGeneration(cache: SchedulerCache, default': int) returns (g: int)
    requires cache.Rep()
    ensures g == Snap.HeadGeneration(cache.View(), default')
  {
    g := if cache.headWorker != null then cache.headWorker.info.generation else default';
    Start(cache);
    Follow(cache, 0, cache.headWorker);
  }
}
