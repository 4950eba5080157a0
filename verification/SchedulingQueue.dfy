/** pkg/scheduler/queue as the object it is: two keyed heaps, a map and two counters, changed in
    place. Every method is proved against the function of the same name on the queue's contents. */
module SchedulingQueue {
  import opened Common
  import opened HeapOrder
  import opened KeyedHeap
  import Spec = SchedulingQueueSpec

  type Info = Spec.QueuedStageInfo

  class PriorityQueue {
    const cfg: Spec.Config
    const activeQ: Heap<Info>
    const stageBackoffQ: Heap<Info>
    var unschedulableStages: map<string, Info>
    var schedulingCycle: int
    var moveRequestCycle: int
    var closed: bool

    ghost predicate Valid()
      reads this, activeQ, stageBackoffQ
    {
      && activeQ != stageBackoffQ
      && activeQ.Valid() && stageBackoffQ.Valid()
      && (forall p: Info :: activeQ.keyFunc(p) == Some(p.stage.name))
      && (forall p: Info :: stageBackoffQ.keyFunc(p) == Some(p.stage.name))
      && (forall a, b :: stageBackoffQ.lessFunc(a, b) == Spec.BackoffLess(cfg)(a, b))
    }

    ghost function View(): Spec.Queue
      reads this, activeQ, stageBackoffQ
    {
      Spec.Queue(activeQ.Contents(), stageBackoffQ.Contents(), unschedulableStages,
                 schedulingCycle, moveRequestCycle, closed)
    }

    constructor (cfg: Spec.Config, lessFn: (Info, Info) -> bool)
      requires StrictWeakOrder(lessFn)
      ensures Valid() && View() == Spec.EMPTY && this.cfg == cfg && activeQ.lessFunc == lessFn
      ensures fresh(activeQ) && fresh(stageBackoffQ)
    {
      Spec.OrdersAreStrictWeak(cfg);
      this.cfg := cfg;
      activeQ := new Heap(Spec.NameKey, lessFn);
      stageBackoffQ := new Heap(Spec.NameKey, Spec.BackoffLess(cfg));
      unschedulableStages := map[];
      schedulingCycle := 0;
      moveRequestCycle := -1;
      closed := false;
    }

    method Add(stage: Spec.Stage, now: int)
      requires Valid()
      modifies this, activeQ, stageBackoffQ
      ensures Valid() && View() == Spec.Add(old(View()), stage, now)
    {
      hide Heap.Valid, Heap.Contents, Spec.BackoffDuration;
      var pInfo := Spec.NewInfo(stage, now);
      var _ := activeQ.Add(pInfo);
      if stage.uid in unschedulableStages {
        unschedulableStages := unschedulableStages - {stage.uid};
      }
      var _ := stageBackoffQ.Delete(pInfo);
    }

    method Activate(stage: Spec.Stage) returns (activated: bool)
      requires Valid()
      modifies this, activeQ, stageBackoffQ
      ensures Valid() && View() == Spec.Activate(old(View()), stage)
      ensures activated <==> stage.name !in old(View()).active && Spec.Holds(old(View()), stage)
    {
      hide Heap.Valid, Heap.Contents, Spec.BackoffDuration;
      var lookup := Spec.NewInfo(stage, 0);
      var inActive := activeQ.Get(lookup);
      if inActive.Ok? {
        return false;
      }
      var pInfo;
      if stage.uid in unschedulableStages {
        pInfo := unschedulableStages[stage.uid];
      } else {
        var obj := stageBackoffQ.Get(lookup);
        if !obj.Ok? {
          return false;
        }
        pInfo := obj.value;
      }
      ActivateInfo(stage, pInfo);
      return true;
    }

    method ActivateInfo(stage: Spec.Stage, pInfo: Info)
      requires Valid()
      modifies this, activeQ, stageBackoffQ
      ensures Valid() && View() == Spec.ActivateInfo(old(View()), stage, pInfo)
    {
      hide Heap.Valid, Heap.Contents, Spec.BackoffDuration;
      var _ := activeQ.Add(pInfo);
      unschedulableStages := unschedulableStages - {stage.uid};
      var _ := stageBackoffQ.Delete(pInfo);
    }

    method AddUnschedulableIfNotPresent(pInfo: Info, stageSchedulingCycle: int, now: int) returns (ok: bool)
      requires Valid()
      modifies this, stageBackoffQ
      ensures Valid() && View() == Spec.AddUnschedulable(old(View()), pInfo, stageSchedulingCycle, now)
      ensures ok <==> !Spec.Holds(old(View()), pInfo.stage)
    {
      hide Heap.Valid, Heap.Contents, Spec.BackoffDuration;
      if pInfo.stage.uid in unschedulableStages {
        return false;
      }
      var inActive := activeQ.Get(pInfo);
      if inActive.Ok? {
        return false;
      }
      var inBackoff := stageBackoffQ.Get(pInfo);
      if inBackoff.Ok? {
        return false;
      }
      var refreshed := pInfo.(timestamp := now);
      if moveRequestCycle >= stageSchedulingCycle {
        var _ := stageBackoffQ.Add(refreshed);
      } else {
        unschedulableStages := unschedulableStages[pInfo.stage.uid := refreshed];
      }
      return true;
    }

    /** One turn of Pop's wait loop. The popped entry is one that no other goes before. */
    method Pop() returns (r: Attempt<Info>)
      requires Valid()
      modifies this, activeQ
      ensures Valid()
      ensures !r.Taken? <==> old(activeQ.Contents()) == map[]
      ensures !r.Taken? ==> View() == old(View()) && (r.Closed? <==> closed)
      ensures r.Taken? ==>
        exists p :: p in old(activeQ.Contents()).Values && r.item == p.(attempts := p.attempts + 1)
          && p.stage.name in old(View()).active && old(View()).active[p.stage.name] == p
          && View() == Spec.Pop(old(View()), p)
          && forall k :: k in old(activeQ.Contents()) ==> !activeQ.lessFunc(old(activeQ.Contents())[k], p)
    {
      hide Heap.Valid, Heap.Contents, Spec.BackoffDuration;
      var n := activeQ.Len();
      if n == 0 {
        return if closed then Closed else Waits;
      }
      var pInfo := activeQ.Pop();
      assert pInfo in old(activeQ.Contents()).Values;
      schedulingCycle := schedulingCycle + 1;
      return Taken(pInfo.(attempts := pInfo.attempts + 1));
    }

    /** With no old stage the source dereferences nil if the stage is unschedulable. */
    method Update(oldStage: Option<Spec.Stage>, newStage: Spec.Stage, now: int)
      requires Valid()
      requires oldStage.None? ==> newStage.uid !in unschedulableStages
      requires oldStage.Some? ==> oldStage.value.name == newStage.name && oldStage.value.uid == newStage.uid
      requires newStage.uid in unschedulableStages ==> unschedulableStages[newStage.uid].stage.uid == newStage.uid
      modifies this, activeQ, stageBackoffQ
      ensures Valid() && View() == Spec.Update(cfg, old(View()), oldStage, newStage, now)
    {
      hide Heap.Valid, Heap.Contents, Spec.BackoffDuration;
      if oldStage.Some? {
        var lookup := Spec.NewInfo(oldStage.value, 0);
        var inActive := activeQ.Get(lookup);
        if inActive.Ok? {
          var _ := activeQ.Update(inActive.value.(stage := newStage));
          return;
        }
        var inBackoff := stageBackoffQ.Get(lookup);
        if inBackoff.Ok? {
          var _ := stageBackoffQ.Update(inBackoff.value.(stage := newStage));
          return;
        }
      }
      if newStage.uid in unschedulableStages {
        var pInfo := unschedulableStages[newStage.uid].(stage := newStage);
        if Spec.StageUpdated(oldStage.value, newStage) {
          if Spec.BackoffTime(cfg, pInfo) > now {
            var _ := stageBackoffQ.Add(pInfo);
          } else {
            var _ := activeQ.Add(pInfo);
          }
          unschedulableStages := unschedulableStages - {pInfo.stage.uid};
        } else {
          unschedulableStages := unschedulableStages[newStage.uid := pInfo];
        }
        return;
      }
      var _ := activeQ.Add(Spec.NewInfo(newStage, now));
    }

    method Delete(stage: Spec.Stage)
      requires Valid()
      modifies this, activeQ, stageBackoffQ
      ensures Valid() && View() == Spec.Delete(old(View()), stage)
    {
      hide Heap.Valid, Heap.Contents, Spec.BackoffDuration;
      var lookup := Spec.NewInfo(stage, 0);
      var r := activeQ.Delete(lookup);
      if !r.Ok? {
        var _ := stageBackoffQ.Delete(lookup);
        unschedulableStages := unschedulableStages - {stage.uid};
      }
    }

    method MoveStagesToActiveOrBackoffQueue(stageInfoList: seq<Info>, event: Spec.ClusterEvent, now: int)
      requires Valid()
      modifies this, activeQ, stageBackoffQ
      ensures Valid() && View() == Spec.Move(cfg, old(View()), stageInfoList, event, now)
    {
      hide Heap.Valid, Heap.Contents, Spec.BackoffDuration;
      for i := 0 to |stageInfoList|
        invariant Valid()
        invariant View() == Spec.MoveEach(cfg, old(View()), stageInfoList[..i], event, now)
      {
        assert stageInfoList[..i + 1][..i] == stageInfoList[..i];
        MoveStage(stageInfoList[i], event, now);
      }
      assert stageInfoList[..|stageInfoList|] == stageInfoList;
      MoveCycles(stageInfoList, now, event, old(View()));
      moveRequestCycle := schedulingCycle;
    }

    method MoveStage(pInfo: Info, event: Spec.ClusterEvent, now: int)
      requires Valid()
      modifies this, activeQ, stageBackoffQ
      ensures Valid() && View() == Spec.MoveOne(cfg, old(View()), pInfo, event, now)
    {
      hide Heap.Valid, Heap.Contents, Spec.BackoffDuration;
      if pInfo.plugins != {} && !Spec.MatchesEvent(cfg, pInfo, event) {
        return;
      }
      if Spec.BackoffTime(cfg, pInfo) > now {
        var _ := stageBackoffQ.Add(pInfo);
      } else {
        var _ := activeQ.Add(pInfo);
      }
      unschedulableStages := unschedulableStages - {pInfo.stage.uid};
    }

    lemma {:induction false} MoveCycles(ps: seq<Info>, now: int, event: Spec.ClusterEvent, q: Spec.Queue)
      ensures Spec.MoveEach(cfg, q, ps, event, now).cycle == q.cycle
    {
      if ps != [] {
        MoveCycles(ps[..|ps| - 1], now, event, q);
      }
    }

    /** The loop of MoveAllToActiveOrBackoffQueue and of the two flushes that pick entries. */
    method PickStages(order: seq<string>, check: Info -> bool) returns (ps: seq<Info>)
      requires forall u :: u in order ==> u in unschedulableStages
      ensures ps == Spec.Pick(View(), order, check)
    {
      hide Heap.Valid, Heap.Contents, Spec.BackoffDuration;
      ps := [];
      for i := 0 to |order|
        invariant ps == Spec.Pick(View(), order[..i], check)
      {
        assert order[..i + 1][..i] == order[..i];
        if check(unschedulableStages[order[i]]) {
          ps := ps + [unschedulableStages[order[i]]];
        }
      }
      assert order[..|order|] == order;
    }

    method MoveAllToActiveOrBackoffQueue(order: seq<string>, event: Spec.ClusterEvent, preCheck: Info -> bool, now: int)
      requires Valid() && Enumerates(order, unschedulableStages.Keys)
      modifies this, activeQ, stageBackoffQ
      ensures Valid()
      ensures View() == Spec.Move(cfg, old(View()), Spec.Pick(old(View()), order, preCheck), event, now)
    {
      hide Heap.Valid, Heap.Contents, Spec.BackoffDuration;
      var ps := PickStages(order, preCheck);
      MoveStagesToActiveOrBackoffQueue(ps, event, now);
    }

    /** Pops the backoff heap until its head has not expired. Because the heap is ordered by backoff
        time this moves exactly the expired stages. */
    method FlushBackoffQCompleted(now: int)
      requires Valid()
      modifies this, activeQ, stageBackoffQ
      ensures Valid() && View() == Spec.FlushBackoff(cfg, old(View()), now)
    {
      hide Valid, View, Shifted, Spec.BackoffTime;
      ghost var before := View();
      ghost var moved: set<string> := {};
      ShiftNoneOrAll(before, now);
      while true
        invariant Valid() && moved <= Spec.Expired(cfg, before, now)
        invariant View() == Shifted(before, moved)
        decreases |View().backoff|
      {
        var more, name := MoveExpiredHead(now);
        if !more {
          assert moved == Spec.Expired(cfg, before, now) by {
            NothingExpiredLeft(before, moved, now);
          }
          break;
        }
        ShiftOne(before, moved, name, now);
        moved := moved + {name};
      }
    }

    /** One turn of the loop: peek, compare, pop, add. */
    method MoveExpiredHead(now: int) returns (moved: bool, ghost name: string)
      requires Valid()
      modifies this, activeQ, stageBackoffQ
      ensures Valid()
      ensures !moved ==> View() == old(View()) && Spec.Expired(cfg, View(), now) == {}
      ensures moved ==> name in Spec.Expired(cfg, old(View()), now)
      ensures moved ==> View() == old(View()).(backoff := old(View()).backoff - {name},
                                               active := old(View()).active[name := old(View()).backoff[name]])
      ensures moved ==> |View().backoff| < old(|View().backoff|)
    {
      hide Heap.Valid, Heap.Contents, Spec.BackoffDuration;
      var head := stageBackoffQ.Peek();
      if head.None? || Spec.BackoffTime(cfg, head.value) > now {
        return false, "";
      }
      ghost var was := stageBackoffQ.Contents();
      var pInfo := stageBackoffQ.Pop();
      name := pInfo.stage.name;
      assert !stageBackoffQ.lessFunc(was[head.value.stage.name], pInfo);
      Shrinks(was, name);
      var _ := activeQ.Add(pInfo);
      return true, name;
    }

    /** The queue after the entries in `moved` went from the backoff heap to the active one. */
    ghost function Shifted(q: Spec.Queue, moved: set<string>): Spec.Queue
      requires moved <= q.backoff.Keys
    {
      q.(backoff := q.backoff - moved, active := q.active + (map n | n in moved :: q.backoff[n]))
    }

    lemma ShiftNoneOrAll(q: Spec.Queue, now: int)
      ensures Shifted(q, {}) == q && Shifted(q, Spec.Expired(cfg, q, now)) == Spec.FlushBackoff(cfg, q, now)
    {
    }

    lemma ShiftOne(q: Spec.Queue, moved: set<string>, name: string, now: int)
      requires moved <= Spec.Expired(cfg, q, now) && name in Spec.Expired(cfg, Shifted(q, moved), now)
      ensures name in Spec.Expired(cfg, q, now)
      ensures Shifted(q, moved + {name})
              == Shifted(q, moved).(backoff := Shifted(q, moved).backoff - {name},
                                    active := Shifted(q, moved).active[name := Shifted(q, moved).backoff[name]])
    {
      hide Spec.BackoffTime;
      assert q.backoff - (moved + {name}) == q.backoff - moved - {name};
      assert q.active + (map n | n in moved + {name} :: q.backoff[n])
          == (q.active + (map n | n in moved :: q.backoff[n]))[name := q.backoff[name]];
    }

    lemma NothingExpiredLeft(before: Spec.Queue, moved: set<string>, now: int)
      requires moved <= Spec.Expired(cfg, before, now)
      requires Spec.Expired(cfg, Shifted(before, moved), now) == {}
      ensures moved == Spec.Expired(cfg, before, now)
    {
      forall n | n in before.backoff && n !in moved ensures n !in Spec.Expired(cfg, before, now) {
        assert n in Shifted(before, moved).backoff;
        assert n !in Spec.Expired(cfg, Shifted(before, moved), now);
      }
    }

    lemma Shrinks(m: map<string, Info>, n: string)
      requires n in m
      ensures |m - {n}| < |m|
    {
      assert (m - {n}).Keys == m.Keys - {n};
    }

    method FlushUnschedulableStagesLeftover(order: seq<string>, now: int)
      requires Valid() && Enumerates(order, unschedulableStages.Keys)
      modifies this, activeQ, stageBackoffQ
      ensures Valid() && View() == Spec.FlushUnschedulable(cfg, old(View()), order, now)
    {
      hide Heap.Valid, Heap.Contents, Spec.BackoffDuration;
      var ps := PickStages(order, Spec.Overdue(cfg, now));
      if |ps| > 0 {
        MoveStagesToActiveOrBackoffQueue(ps, Spec.UNSCHEDULABLE_TIMEOUT, now);
      }
    }
  }
}
