/** pkg/scheduler/cache/cache.go as the object it is: maps, a hand-written doubly linked list and a
    worker tree, changed in place. */
module Cache {
  import opened Common
  import opened WorkerTree
  import Spec = CacheSpec

  type Info = Spec.WorkerInfo
  type Stage = Spec.Stage
  type Outcome = Spec.Outcome

  // ---- The linked list ---------------------------------------------------------------------------

  /** workerInfoListItem. */
  class Item {
    var info: Info
    var next: Item?
    var prev: Item?

    constructor (info: Info)
      ensures this.info == info && next == null && prev == null
    {
      this.info := info;
      next, prev := null, null;
    }
  }

  ghost function PrevOf(nodes: seq<Item>, i: nat): Item?
    requires i < |nodes|
  {
    if i == 0 then null else nodes[i - 1]
  }

  ghost function NextOf(nodes: seq<Item>, i: nat): Item?
    requires i < |nodes|
  {
    if i + 1 == |nodes| then null else nodes[i + 1]
  }

  /** The items, in this order, are one doubly linked list: prev and next are inverse, and it ends. */
  ghost predicate Chain(nodes: seq<Item>)
    reads nodes`prev, nodes`next
  {
    && NoDup(nodes)
    && (forall i {:trigger nodes[i].prev} :: 0 <= i < |nodes| ==> nodes[i].prev == PrevOf(nodes, i))
    && (forall i {:trigger nodes[i].next} :: 0 <= i < |nodes| ==> nodes[i].next == NextOf(nodes, i))
  }

  /** The sequence without position k; its length stands for "not in it". */
  ghost function Cut<T>(s: seq<T>, k: nat): seq<T>
    requires k <= |s|
  {
    if k == |s| then s else s[..k] + s[k + 1..]
  }

  /** The neighbours of ni are joined; an item that is in no list has none. */
  method Unlink(ni: Item, ghost nodes: seq<Item>, ghost k: nat)
    requires Chain(nodes) && k <= |nodes|
    requires k < |nodes| ==> nodes[k] == ni
    requires k == |nodes| ==> ni !in nodes && ni.prev == null && ni.next == null
    modifies nodes
    ensures Chain(Cut(nodes, k))
    ensures ni.next == old(ni.next) && ni.prev == old(ni.prev)
    ensures forall n :: n in nodes ==> n.info == old(n.info)
  {
    hide Cut;
    assert k < |nodes| ==> nodes[k].prev == PrevOf(nodes, k) && nodes[k].next == NextOf(nodes, k);
    if ni.prev != null {
      assert ni.prev in nodes;
      ni.prev.next := ni.next;
    }
    assert k < |nodes| ==> forall i {:trigger nodes[i].next} :: 0 <= i < |nodes| ==>
      nodes[i].next == NextOf(nodes, if i + 1 == k then k else i);
    if ni.next != null {
      assert ni.next in nodes;
      ni.next.prev := ni.prev;
    }
    if k < |nodes| {
      assert forall i {:trigger nodes[i].prev} :: 0 <= i < |nodes| ==>
        nodes[i].prev == PrevOf(nodes, if i == k + 1 then k else i);
      JoinedChain(nodes, k);
    } else {
      CutNone(nodes, k);
    }
  }

  lemma CutNone<T>(s: seq<T>, k: nat)
    requires k == |s|
    ensures Cut(s, k) == s
  {
  }

  /** After the two assignments of Unlink. */
  lemma JoinedChain(nodes: seq<Item>, k: nat)
    requires k < |nodes| && NoDup(nodes)
    requires forall i {:trigger nodes[i].next} :: 0 <= i < |nodes| ==>
        nodes[i].next == NextOf(nodes, if i + 1 == k then k else i)
    requires forall i {:trigger nodes[i].prev} :: 0 <= i < |nodes| ==>
        nodes[i].prev == PrevOf(nodes, if i == k + 1 then k else i)
    ensures Chain(Cut(nodes, k))
  {
    var cut := Cut(nodes, k);
    CutFacts(nodes, k);
    hide Cut, NoDup;
    forall i | 0 <= i < |cut| ensures cut[i].prev == PrevOf(cut, i) && cut[i].next == NextOf(cut, i) {
      var j := if i < k then i else i + 1;
      assert cut[i] == nodes[j];
    }
  }

  lemma CutFacts<T>(s: seq<T>, k: nat)
    requires k < |s| && NoDup(s)
    ensures NoDup(Cut(s, k)) && |Cut(s, k)| == |s| - 1
    ensures forall i :: 0 <= i < |s| - 1 ==> Cut(s, k)[i] == s[if i < k then i else i + 1]
  {
  }

  method PushFront(ni: Item, head: Item?, ghost nodes: seq<Item>)
    requires Chain(nodes) && ni !in nodes && head == (if nodes == [] then null else nodes[0])
    modifies nodes, ni
    ensures Chain([ni] + nodes)
    ensures ni.info == old(ni.info) && forall n :: n in nodes ==> n.info == old(n.info)
  {
    if head != null {
      head.prev := ni;
    }
    ni.next := head;
    ni.prev := null;
    ghost var all := [ni] + nodes;
    forall i | 0 <= i < |all| ensures all[i].prev == PrevOf(all, i) && all[i].next == NextOf(all, i) {
      if i > 0 {
        assert all[i] == nodes[i - 1];
        assert i > 1 ==> nodes[i - 1].prev == PrevOf(nodes, i - 1);
        assert nodes[i - 1].next == NextOf(nodes, i - 1);
      }
    }
  }

  ghost function First(nodes: seq<Item>): Item? {
    if nodes == [] then null else nodes[0]
  }

  /** moveWorkerInfoToHead on the items; returns the new head. */
  method ToFront(ni: Item, head: Item?, ghost nodes: seq<Item>, ghost k: nat) returns (head': Item)
    requires Chain(nodes) && k <= |nodes| && head == First(nodes)
    requires k < |nodes| ==> nodes[k] == ni
    requires k == |nodes| ==> ni !in nodes && ni.prev == null && ni.next == null
    modifies nodes, ni
    ensures head' == ni && Chain([ni] + Cut(nodes, k))
    ensures ni.info == old(ni.info) && forall n :: n in nodes ==> n.info == old(n.info)
  {
    assert ni !in Cut(nodes, k);
    if ni == head {
      assert k == 0;
      assert [ni] + Cut(nodes, k) == nodes;
      return ni;
    }
    assert First(Cut(nodes, k)) == head;
    hide Chain;
    Unlink(ni, nodes, k);
    PushFront(ni, head, Cut(nodes, k));
    return ni;
  }

  /** removeWorkerInfoFromList on the items; returns the new head. */
  method Out(ni: Item, head: Item?, ghost nodes: seq<Item>, ghost k: nat) returns (head': Item?)
    requires Chain(nodes) && k < |nodes| && nodes[k] == ni && head == First(nodes)
    modifies nodes
    ensures Chain(Cut(nodes, k)) && head' == First(Cut(nodes, k))
    ensures forall n :: n in nodes ==> n.info == old(n.info)
  {
    assert nodes[0].next == NextOf(nodes, 0);
    assert ni == head <==> k == 0;
    hide Chain;
    Unlink(ni, nodes, k);
    head' := if ni == head then ni.next else head;
  }

  /** order names the items of the list, under exactly these keys, and no two keys share an item. */
  ghost predicate Paired(order: seq<string>, nodes: seq<Item>, workers: map<string, Item>, keys: set<string>) {
    && Enumerates(order, keys) && keys <= workers.Keys && |nodes| == |order|
    && (forall i :: 0 <= i < |order| ==> order[i] in workers && nodes[i] == workers[order[i]])
    && (forall u, w :: u in workers && w in workers && workers[u] == workers[w] ==> u == w)
  }

  lemma PairedAt(order: seq<string>, nodes: seq<Item>, workers: map<string, Item>, keys: set<string>, name: string)
    requires Paired(order, nodes, workers, keys) && name in workers
    ensures var k := Spec.IndexOf(order, name);
      && k <= |nodes| && (k < |nodes| <==> name in keys)
      && (k < |nodes| ==> nodes[k] == workers[name])
      && (k == |nodes| ==> workers[name] !in nodes)
    ensures forall n :: n in nodes ==> n in workers.Values
  {
  }

  lemma PairedCut(order: seq<string>, nodes: seq<Item>, workers: map<string, Item>, keys: set<string>, name: string)
    requires Paired(order, nodes, workers, keys) && name in workers && |nodes| == |order|
    ensures Paired(Spec.Without(order, name), Cut(nodes, Spec.IndexOf(order, name)), workers, keys - {name})
  {
    Spec.WithoutKeeps(order, keys, name);
    hide Enumerates;
  }

  lemma PairedFront(order: seq<string>, nodes: seq<Item>, workers: map<string, Item>, keys: set<string>, name: string)
    requires Paired(order, nodes, workers, keys - {name}) && name in workers && keys + {name} == workers.Keys
    ensures Paired([name] + order, [workers[name]] + nodes, workers, workers.Keys)
  {
  }

  lemma PairedDelete(order: seq<string>, nodes: seq<Item>, workers: map<string, Item>, name: string)
    requires Paired(order, nodes, workers, workers.Keys - {name})
    ensures (workers - {name}).Keys == workers.Keys - {name}
    ensures Paired(order, nodes, workers - {name}, (workers - {name}).Keys)
  {
    assert forall i :: 0 <= i < |order| ==> order[i] in workers.Keys - {name};
  }

  lemma FirstOf(ni: Item, nodes: seq<Item>)
    ensures First([ni] + nodes) == ni
  {
  }

  // ---- The cache ---------------------------------------------------------------------------------

  class SchedulerCache {
    var assumedStages: set<string>
    var stageStates: map<string, Spec.StageState>
    var workers: map<string, Item>
    var headWorker: Item?
    const workerTree: Tree
    var generation: int
    ghost var order: seq<string>
    ghost var nodes: seq<Item>
    ghost var owner: map<string, string>

    /** The items under these keys are the list that starts at headWorker. */
    ghost predicate LinkedOn(keys: set<string>)
      reads this`order, this`nodes, this`workers, this`headWorker, nodes`prev, nodes`next
    {
      Paired(order, nodes, workers, keys) && Chain(nodes) && headWorker == First(nodes)
    }

    ghost predicate Rep()
      reads this, nodes, workerTree
    {
      LinkedOn(workers.Keys) && workerTree.Valid()
    }

    ghost function InfoMap(): Spec.Infos
      reads this`workers, workers.Values
    {
      map u | u in workers :: workers[u].info
    }

    ghost function View(): Spec.Cache
      reads this, workers.Values, workerTree
    {
      Spec.Cache(order, InfoMap(), stageStates, assumedStages, workerTree.zoneOf, owner, generation)
    }

    /** The representation is sound and so is what it represents. */
    ghost predicate Valid()
      reads this, nodes, workers.Values, workerTree
    {
      Rep() && Spec.Inv(View())
    }

    /** Before an operation that the callers' obligations allow. */
    ghost predicate Sound(op: Spec.Op)
      reads this, nodes, workers.Values, workerTree
    {
      Valid() && Spec.Allowed(View(), op)
    }

    constructor ()
      ensures View() == Spec.EMPTY && fresh(workerTree)
      ensures Valid()
    {
      assumedStages, stageStates, workers, headWorker := {}, map[], map[], null;
      generation := 0;
      workerTree := new Tree();
      order, nodes, owner := [], [], map[];
    }

    method MoveWorkerInfoToHead(name: string)
      requires name in workers
      requires LinkedOn(workers.Keys) ||
               (LinkedOn(workers.Keys - {name}) && workers[name].prev == null && workers[name].next == null)
      modifies this`headWorker, this`order, this`nodes, workers.Values
      ensures LinkedOn(workers.Keys) && InfoMap() == old(InfoMap())
      ensures order == [name] + Spec.Without(old(order), name)
    {
      hide Chain, Paired, Spec.Without, Spec.IndexOf, Cut, First;
      ghost var keys := if LinkedOn(workers.Keys) then workers.Keys else workers.Keys - {name};
      assert keys + {name} == workers.Keys;
      ghost var k := Spec.IndexOf(order, name);
      PairedAt(order, nodes, workers, keys, name);
      SameLength();
      PairedCut(order, nodes, workers, keys, name);
      PairedFront(Spec.Without(order, name), Cut(nodes, k), workers, keys, name);
      FirstOf(workers[name], Cut(nodes, k));
      headWorker := ToFront(workers[name], headWorker, nodes, k);
      order := [name] + Spec.Without(order, name);
      nodes := [workers[name]] + Cut(nodes, k);
    }

    lemma SameLength()
      requires exists keys :: Paired(order, nodes, workers, keys)
      ensures |nodes| == |order|
    {
    }

    method RemoveWorkerInfoFromList(name: string)
      requires LinkedOn(workers.Keys) && name in workers
      modifies this`headWorker, this`order, this`nodes, this`workers, workers.Values
      ensures LinkedOn(workers.Keys) && workers == old(workers) - {name} && InfoMap() == old(InfoMap()) - {name}
      ensures order == Spec.Without(old(order), name)
    {
      hide Chain, Paired, Spec.Without, Spec.IndexOf, Cut, First;
      ghost var k := Spec.IndexOf(order, name);
      PairedAt(order, nodes, workers, workers.Keys, name);
      SameLength();
      PairedCut(order, nodes, workers, workers.Keys, name);
      PairedDelete(Spec.Without(order, name), Cut(nodes, k), workers, name);
      headWorker := Out(workers[name], headWorker, nodes, k);
      order := Spec.Without(order, name);
      nodes := Cut(nodes, k);
      workers := workers - {name};
      assert InfoMap() == old(InfoMap()) - {name};
    }

    // ---- Entries -------------------------------------------------------------------------------

    /** The list is linked, but for an entry just made, which MoveWorkerInfoToHead will take in. */
    ghost predicate AlmostLinked(name: string)
      reads this`order, this`nodes, this`workers, this`headWorker, nodes`prev, nodes`next
      reads workers.Values`prev, workers.Values`next
    {
      name in workers &&
      (LinkedOn(workers.Keys) ||
       (LinkedOn(workers.Keys - {name}) && workers[name].prev == null && workers[name].next == null))
    }

    /** newWorkerInfoListItem(NewWorkerInfo()) unless the worker has an entry. */
    method EnsureItem(name: string) returns (info: Info)
      requires Rep()
      modifies this`workers, this`generation
      ensures AlmostLinked(name) && order == old(order) && nodes == old(nodes)
      ensures InfoMap() == old(InfoMap())[name := Spec.Base(old(InfoMap()), old(generation), name)]
      ensures generation == Spec.BaseGen(old(InfoMap()), old(generation), name) &&
          info == Spec.Base(old(InfoMap()), old(generation), name)
      ensures fresh(workers.Values - old(workers.Values))
    {
      hide Chain, First, Paired;
      if name !in workers {
        generation := generation + 1;
        NewItem(name, Spec.WorkerInfo(None, [], generation));
      } else {
        assert InfoMap() == InfoMap()[name := InfoMap()[name]];
      }
      assert InfoMap()[name] == workers[name].info;
      info := workers[name].info;
    }

    method NewItem(name: string, info: Info)
      requires LinkedOn(workers.Keys) && name !in workers
      modifies this`workers
      ensures AlmostLinked(name) && InfoMap() == old(InfoMap())[name := info]
      ensures fresh(workers.Values - old(workers.Values))
    {
      hide Chain, First, Paired;
      var n := new Item(info);
      PairedFresh(order, nodes, workers, name, n);
      workers := workers[name := n];
      assert workers.Values <= old(workers.Values) + {n};
      assert forall u :: u in old(workers) ==> workers[u] == old(workers)[u];
    }

    lemma PairedFresh(order: seq<string>, nodes: seq<Item>, workers: map<string, Item>, name: string, n: Item)
      requires Paired(order, nodes, workers, workers.Keys) && name !in workers && n !in workers.Values
      ensures Paired(order, nodes, workers[name := n], workers[name := n].Keys - {name})
    {
      assert workers[name := n].Keys - {name} == workers.Keys;
    }

    method SetInfo(name: string, info: Info)
      requires AlmostLinked(name)
      modifies workers.Values
      ensures AlmostLinked(name) && InfoMap() == old(InfoMap())[name := info]
      ensures old(LinkedOn(workers.Keys)) ==> LinkedOn(workers.Keys)
    {
      Apart(name);
      hide LinkedOn;
      workers[name].info := info;
      assert forall u :: u in workers && u != name ==> workers[u].info == old(workers[u].info);
    }

    lemma Apart(name: string)
      requires AlmostLinked(name)
      ensures forall u :: u in workers && u != name ==> workers[u] != workers[name]
    {
    }

    /** The entry changes and goes to the head. */
    method Touch(name: string, info: Info)
      requires AlmostLinked(name)
      modifies this`headWorker, this`order, this`nodes, workers.Values
      ensures LinkedOn(workers.Keys) && InfoMap() == old(InfoMap())[name := info]
      ensures order == [name] + Spec.Without(old(order), name)
    {
      hide InfoMap, LinkedOn, Spec.Without;
      SetInfo(name, info);
      MoveWorkerInfoToHead(name);
    }

    // ---- Stages --------------------------------------------------------------------------------

    method InsertStage(stage: Stage, asAssumed: bool)
      requires Rep()
      modifies this, workers.Values
      ensures View() == Spec.Insert(old(View()), stage, asAssumed)
      ensures Rep()
      ensures fresh(workers.Values - old(workers.Values))
    {
      hide LinkedOn, InfoMap, Spec.Without, Tree.Valid;
      AttachStage(stage);
      stageStates := stageStates[stage.uid := Spec.StageState(stage, false)];
      if asAssumed {
        assumedStages := assumedStages + {stage.uid};
      }
    }

    /** The part of addStage that changes the worker's entry. */
    method AttachStage(stage: Stage)
      requires Rep()
      modifies this`workers, this`generation, this`headWorker, this`order, this`nodes, workers.Values
      ensures LinkedOn(workers.Keys) && fresh(workers.Values - old(workers.Values))
      ensures var b := Spec.Base(old(InfoMap()), old(generation), stage.workerUid);
        && generation == Spec.BaseGen(old(InfoMap()), old(generation), stage.workerUid) + 1
        && InfoMap() == old(InfoMap())[stage.workerUid := b.(stages := b.stages + [stage], generation := generation)]
        && order == [stage.workerUid] + Spec.Without(old(order), stage.workerUid)
    {
      hide LinkedOn, AlmostLinked, InfoMap, Spec.Without, Tree.Valid;
      ghost var infos := InfoMap();
      var info := EnsureItem(stage.workerUid);
      generation := generation + 1;
      var info' := info.(stages := info.stages + [stage], generation := generation);
      Touch(stage.workerUid, info');
      SetTwice(infos, stage.workerUid, info, info');
    }

    /** The search loop of WorkerInfo.RemoveStage. */
    method FindStage(stages: seq<Stage>, key: string) returns (i: nat)
      ensures i == Spec.Find(stages, key)
    {
      i := 0;
      while i < |stages| && stages[i].uid != key
        invariant i <= |stages| && forall j :: 0 <= j < i ==> stages[j].uid != key
      {
        i := i + 1;
      }
    }

    /** The branch of removeStage that finds the worker's entry and the stage in it. */
    method DetachStage(stage: Stage)
      requires Rep() && Spec.Holds(View(), stage)
      modifies this, workers.Values
      ensures View() == Spec.Detach(old(View()), stage)
      ensures Rep()
      ensures workers.Values <= old(workers.Values)
    {
      hide LinkedOn, AlmostLinked, Spec.Without, Tree.Valid, Spec.Find;
      var info := workers[stage.workerUid].info;
      assert info == InfoMap()[stage.workerUid];
      hide InfoMap;
      var i := FindStage(info.stages, stage.uid);
      var stages := Spec.RemoveAt(info.stages, i);
      hide Spec.RemoveAt;
      generation := generation + 1;
      if |stages| == 0 && info.worker.None? {
        RemoveWorkerInfoFromList(stage.workerUid);
      } else {
        Linked(stage.workerUid);
        Touch(stage.workerUid, info.(stages := stages, generation := generation));
      }
    }

    lemma Linked(name: string)
      requires LinkedOn(workers.Keys) && name in workers
      ensures AlmostLinked(name)
    {
    }

    method DeleteStage(stage: Stage) returns (r: Outcome)
      requires Rep()
      modifies this, workers.Values
      ensures (View(), r) == Spec.Remove(old(View()), stage)
      ensures Rep()
      ensures workers.Values <= old(workers.Values)
    {
      hide LinkedOn, Tree.Valid, Spec.Find, Spec.Detach;
      if stage.workerUid in workers {
        var info := workers[stage.workerUid].info;
        assert info == InfoMap()[stage.workerUid];
        hide InfoMap;
        var i := FindStage(info.stages, stage.uid);
        if i == |info.stages| {
          return if info.worker.Some? then Spec.Err else Spec.Fatal;
        }
        DetachStage(stage);
      }
      stageStates := stageStates - {stage.uid};
      assumedStages := assumedStages - {stage.uid};
      return Spec.Ok;
    }

    method AssumeStage(stage: Stage) returns (r: Outcome)
      requires Valid()
      modifies this, workers.Values
      ensures (View(), r) == Spec.AssumeStage(old(View()), stage)
      ensures Valid()
      ensures fresh(workers.Values - old(workers.Values))
    {
      hide Rep, Spec.Inv, Spec.Insert, InfoMap;
      Spec.StepKeeps(View(), Spec.OpAssumeStage(stage));
      if stage.uid == "" || stage.uid in stageStates {
        return Spec.Err;
      }
      InsertStage(stage, true);
      return Spec.Ok;
    }

    method FinishBinding(stage: Stage) returns (r: Outcome)
      requires Valid()
      modifies this
      ensures (View(), r) == Spec.FinishBinding(old(View()), stage)
      ensures Valid()
      ensures workers == old(workers)
    {
      hide LinkedOn, Tree.Valid, Spec.Inv, InfoMap;
      Spec.StepKeeps(View(), Spec.OpFinishBinding(stage));
      if stage.uid == "" {
        return Spec.Err;
      }
      if stage.uid in stageStates && stage.uid in assumedStages {
        stageStates := stageStates[stage.uid := stageStates[stage.uid].(bindingFinished := true)];
      }
      return Spec.Ok;
    }

    method ForgetStage(stage: Stage) returns (r: Outcome)
      requires Valid()
      modifies this, workers.Values
      ensures (View(), r) == Spec.ForgetStage(old(View()), stage)
      ensures Valid()
      ensures workers.Values <= old(workers.Values)
    {
      hide Rep, Spec.Inv, Spec.Remove, InfoMap;
      Spec.StepKeeps(View(), Spec.OpForgetStage(stage));
      if stage.uid == "" {
        return Spec.Err;
      }
      if stage.uid in stageStates && stageStates[stage.uid].stage.workerUid != stage.workerUid {
        return Spec.Err;
      }
      if stage.uid in stageStates && stage.uid in assumedStages {
        r := DeleteStage(stage);
        return;
      }
      return Spec.Err;
    }

    /** updateStage: remove, then add. */
    method ReplaceStage(oldStage: Stage, newStage: Stage) returns (r: Outcome)
      requires Rep()
      modifies this, workers.Values
      ensures (View(), r) == Spec.Reinsert(old(View()), oldStage, newStage)
      ensures Rep()
      ensures fresh(workers.Values - old(workers.Values))
    {
      hide Rep, Spec.Remove, Spec.Insert, InfoMap;
      r := DeleteStage(oldStage);
      if r != Spec.Ok {
        return;
      }
      if newStage.uid == "" {
        return Spec.Err;
      }
      InsertStage(newStage, false);
    }

    method AddStage(stage: Stage) returns (r: Outcome)
      requires Valid()
      modifies this, workers.Values
      ensures (View(), r) == Spec.AddStage(old(View()), stage)
      ensures Valid()
      ensures fresh(workers.Values - old(workers.Values))
    {
      hide LinkedOn, Tree.Valid, Spec.Inv, Spec.Reinsert, Spec.Insert, InfoMap;
      Spec.StepKeeps(View(), Spec.OpAddStage(stage));
      if stage.uid == "" {
        return Spec.Err;
      }
      if stage.uid in stageStates && stage.uid in assumedStages {
        var current := stageStates[stage.uid];
        if current.stage.workerUid != stage.workerUid {
          var e := ReplaceStage(current.stage, stage);
          return if e == Spec.Fatal then Spec.Fatal else Spec.Ok;
        }
        assumedStages := assumedStages - {stage.uid};
        stageStates := stageStates[stage.uid := current.(stage := stage)];
        return Spec.Ok;
      } else if stage.uid !in stageStates {
        InsertStage(stage, false);
        return Spec.Ok;
      }
      return Spec.Err;
    }

    method UpdateStage(oldStage: Stage, newStage: Stage) returns (r: Outcome)
      requires Rep()
      modifies this, workers.Values
      ensures (View(), r) == Spec.UpdateStage(old(View()), oldStage, newStage)
      ensures Rep() && (old(Sound(Spec.OpUpdateStage(oldStage, newStage))) ==> Valid())
      ensures fresh(workers.Values - old(workers.Values))
    {
      hide Rep, Spec.Inv, Spec.Reinsert, InfoMap, Spec.Allowed;
      if Sound(Spec.OpUpdateStage(oldStage, newStage)) {
        Spec.StepKeeps(View(), Spec.OpUpdateStage(oldStage, newStage));
      }
      if oldStage.uid == "" {
        return Spec.Err;
      }
      if oldStage.uid in stageStates && oldStage.uid !in assumedStages {
        if stageStates[oldStage.uid].stage.workerUid != newStage.workerUid {
          return Spec.Fatal;
        }
        r := ReplaceStage(oldStage, newStage);
        return;
      }
      return Spec.Err;
    }

    method RemoveStage(stage: Stage) returns (r: Outcome)
      requires Valid()
      modifies this, workers.Values
      ensures (View(), r) == Spec.RemoveStage(old(View()), stage)
      ensures Valid()
      ensures workers.Values <= old(workers.Values)
    {
      hide Rep, Spec.Inv, Spec.Remove, InfoMap;
      Spec.StepKeeps(View(), Spec.OpRemoveStage(stage));
      if stage.uid == "" || stage.uid !in stageStates {
        return Spec.Err;
      }
      var current := stageStates[stage.uid].stage;
      if current.workerUid != stage.workerUid && stage.workerUid != "" {
        return Spec.Fatal;
      }
      r := DeleteStage(current);
    }

    /** StageCount, for any order of ranging over the workers. */
    method StageCount(uids: seq<string>) returns (count: int)
      requires Valid() && Enumerates(uids, workers.Keys)
      ensures count == |stageStates|
    {
      hide Rep, Spec.Inv, InfoMap;
      InfoKeys();
      ghost var infos := InfoMap();
      Spec.StageCountIsStates(View(), uids);
      count := 0;
      for i := 0 to |uids|
        invariant count == Spec.SumStages(uids[..i], infos)
      {
        assert uids[..i + 1][..i] == uids[..i];
        count := count + |workers[uids[i]].info.stages|;
      }
      assert uids[..|uids|] == uids;
    }

    // ---- Workers -------------------------------------------------------------------------------

    /** EnsureItem, moveWorkerInfoToHead, SetWorker: the common part of AddWorker and UpdateWorker. */
    method SetWorkerEntry(worker: Worker)
      requires Rep()
      modifies this`workers, this`generation, this`headWorker, this`order, this`nodes, workers.Values
      ensures LinkedOn(workers.Keys) && fresh(workers.Values - old(workers.Values))
      ensures generation == Spec.BaseGen(old(InfoMap()), old(generation), worker.uid) + 1
      ensures InfoMap() == old(InfoMap())[worker.uid :=
        Spec.Base(old(InfoMap()), old(generation), worker.uid).(worker := Some(worker), generation := generation)]
      ensures order == [worker.uid] + Spec.Without(old(order), worker.uid)
    {
      hide InfoMap, Spec.Without, Tree.Valid, Chain, Paired, First;
      ghost var infos := InfoMap();
      var info := EnsureItem(worker.uid);
      MoveWorkerInfoToHead(worker.uid);
      generation := generation + 1;
      SetInfo(worker.uid, info.(worker := Some(worker), generation := generation));
      SetTwice(infos, worker.uid, info, info.(worker := Some(worker), generation := generation));
    }

    method AddWorker(worker: Worker)
      requires Rep()
      requires worker.name in workerTree.zoneOf ==> workerTree.zoneOf[worker.name] == ZoneKey(worker)
      modifies this, workers.Values, workerTree
      ensures View() == Spec.SetWorker(old(View()), worker)
      ensures Rep() && (old(Sound(Spec.OpAddWorker(worker))) ==> Valid())
      ensures fresh(workers.Values - old(workers.Values))
    {
      hide View, Rep, Spec.SetWorker, Spec.Inv, Spec.Allowed, ZoneKey;
      if Sound(Spec.OpAddWorker(worker)) {
        Spec.StepKeeps(View(), Spec.OpAddWorker(worker));
      }
      PlaceWorker(worker);
    }

    method PlaceWorker(worker: Worker)
      requires Rep()
      requires worker.name in workerTree.zoneOf ==> workerTree.zoneOf[worker.name] == ZoneKey(worker)
      modifies this, workers.Values, workerTree
      ensures View() == Spec.SetWorker(old(View()), worker)
      ensures Rep()
      ensures fresh(workers.Values - old(workers.Values))
    {
      hide InfoMap, LinkedOn, Spec.Without, Tree.Valid, ZoneKey;
      SetWorkerEntry(worker);
      workerTree.AddWorker(worker);
      owner := owner[worker.name := worker.uid];
    }

    /** The callers' obligations give what AddWorker and UpdateWorker ask of the tree. */
    lemma TreeReady(op: Spec.Op)
      requires Sound(op)
      ensures op.OpAddWorker? ==>
        var w := op.worker; w.name in workerTree.zoneOf ==> workerTree.zoneOf[w.name] == ZoneKey(w)
      ensures op.OpUpdateWorker? ==>
        var o, w := op.oldWorker, op.newWorker;
        && w.name == o.name
        && (w.uid in workers ==> w.name in workerTree.zoneOf && workerTree.zoneOf[w.name] == ZoneKey(o))
        && (w.uid !in workers ==> w.name !in workerTree.zoneOf)
    {
      hide Rep, InfoMap, ZoneKey, Spec.Inv, Spec.Allowed;
      InfoKeys();
      Spec.AllowedOnTree(View(), op);
    }

    method UpdateWorker(oldWorker: Worker, newWorker: Worker)
      requires Rep() && newWorker.name == oldWorker.name
      requires newWorker.uid in workers ==>
        newWorker.name in workerTree.zoneOf && workerTree.zoneOf[newWorker.name] == ZoneKey(oldWorker)
      requires newWorker.uid !in workers ==> newWorker.name !in workerTree.zoneOf
      modifies this, workers.Values, workerTree
      ensures View() == Spec.SetWorker(old(View()), newWorker)
      ensures Rep() && (old(Sound(Spec.OpUpdateWorker(oldWorker, newWorker))) ==> Valid())
      ensures fresh(workers.Values - old(workers.Values))
    {
      hide View, Rep, Spec.SetWorker, Spec.Inv, Spec.Allowed, ZoneKey;
      if Sound(Spec.OpUpdateWorker(oldWorker, newWorker)) {
        Spec.StepKeeps(View(), Spec.OpUpdateWorker(oldWorker, newWorker));
      }
      ReplaceWorker(oldWorker, newWorker);
    }

    method ReplaceWorker(oldWorker: Worker, newWorker: Worker)
      requires Rep() && newWorker.name == oldWorker.name
      requires newWorker.uid in workers ==>
        newWorker.name in workerTree.zoneOf && workerTree.zoneOf[newWorker.name] == ZoneKey(oldWorker)
      requires newWorker.uid !in workers ==> newWorker.name !in workerTree.zoneOf
      modifies this, workers.Values, workerTree
      ensures View() == Spec.SetWorker(old(View()), newWorker)
      ensures Rep()
      ensures fresh(workers.Values - old(workers.Values))
    {
      hide InfoMap, LinkedOn, Spec.Without, Tree.Valid, ZoneKey;
      UpdateTree(oldWorker, newWorker, newWorker.uid in workers);
      SetWorkerEntry(newWorker);
      owner := owner[newWorker.name := newWorker.uid];
    }

    /** addWorker for an unknown worker, then updateWorker. */
    method UpdateTree(oldWorker: Worker, newWorker: Worker, known: bool)
      requires workerTree.Valid() && newWorker.name == oldWorker.name
      requires known ==> newWorker.name in workerTree.zoneOf && workerTree.zoneOf[newWorker.name] == ZoneKey(oldWorker)
      requires !known ==> newWorker.name !in workerTree.zoneOf
      modifies workerTree
      ensures workerTree.Valid() && workerTree.zoneOf == old(workerTree.zoneOf)[newWorker.name := ZoneKey(newWorker)]
    {
      hide Tree.Valid, ZoneKey;
      if !known {
        workerTree.AddWorker(newWorker);
      }
      workerTree.UpdateWorker(oldWorker, newWorker);
      SetTwice(old(workerTree.zoneOf), newWorker.name, ZoneKey(newWorker), ZoneKey(newWorker));
    }

    lemma InfoKeys()
      ensures InfoMap().Keys == workers.Keys && forall u :: u in workers ==> InfoMap()[u] == workers[u].info
    {
    }

    method RemoveWorker(worker: Worker) returns (r: Outcome)
      requires Rep()
      modifies this, workers.Values, workerTree
      ensures (View(), r) == Spec.RemoveWorker(old(View()), worker)
      ensures Rep() && (old(Sound(Spec.OpRemoveWorker(worker))) ==> Valid())
      ensures workers.Values <= old(workers.Values)
    {
      hide View, Rep, Spec.RemoveWorker, Spec.Inv, Spec.Allowed, ZoneKey;
      if Sound(Spec.OpRemoveWorker(worker)) {
        Spec.StepKeeps(View(), Spec.OpRemoveWorker(worker));
      }
      r := DropWorker(worker);
    }

    method DropWorker(worker: Worker) returns (r: Outcome)
      requires Rep()
      modifies this, workers.Values, workerTree
      ensures (View(), r) == Spec.RemoveWorker(old(View()), worker)
      ensures Rep()
      ensures workers.Values <= old(workers.Values)
    {
      hide LinkedOn, InfoMap, Spec.Without, Tree.Valid, ZoneKey;
      InfoKeys();
      if worker.uid !in workers {
        return Spec.Err;
      }
      ClearWorkerEntry(worker.uid);
      var found := workerTree.RemoveWorker(worker);
      if found {
        owner := owner - {worker.name};
      }
      return if found then Spec.Ok else Spec.Err;
    }

    /** WorkerInfo.RemoveWorker, then out of the list or to its head. */
    method ClearWorkerEntry(uid: string)
      requires Rep() && uid in workers
      modifies this`workers, this`generation, this`headWorker, this`order, this`nodes, workers.Values
      ensures LinkedOn(workers.Keys) && workers.Values <= old(workers.Values) && generation == old(generation) + 1
      ensures var info := old(workers[uid].info).(worker := None, generation := generation);
        if info.stages == [] then
          InfoMap() == old(InfoMap()) - {uid} && order == Spec.Without(old(order), uid)
        else
          InfoMap() == old(InfoMap())[uid := info] && order == [uid] + Spec.Without(old(order), uid)
    {
      hide LinkedOn, AlmostLinked, Spec.Without, Tree.Valid, InfoMap;
      var info := workers[uid].info;
      generation := generation + 1;
      if |info.stages| == 0 {
        RemoveWorkerInfoFromList(uid);
      } else {
        Linked(uid);
        Touch(uid, info.(worker := None, generation := generation));
      }
    }
  }

  lemma SetTwice<K, V>(m: map<K, V>, k: K, v: V, w: V)
    ensures m[k := v][k := w] == m[k := w]
  {
  }
}
