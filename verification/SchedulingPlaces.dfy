/** The scheduling queue as its callers see it: every stage is in one place, and each operation says which
    places change and how. */
module SchedulingPlaces {
  import opened Common
  import opened SchedulingQueueSpec

  datatype Place =
    | Nowhere
    | Active(info: QueuedStageInfo)
    | Backoff(info: QueuedStageInfo)
    | Resting(info: QueuedStageInfo)

  /** Where the stage with this UID is; the invariant leaves one place only. */
  function Where(q: Queue, nm: Naming, u: string): Place {
    if nm.nameOf(u) in q.active then Active(q.active[nm.nameOf(u)])
    else if nm.nameOf(u) in q.backoff then Backoff(q.backoff[nm.nameOf(u)])
    else if u in q.unschedulable then Resting(q.unschedulable[u])
    else Nowhere
  }

  /** Only the stage with this UID is elsewhere. */
  ghost predicate OnlyMoved(q: Queue, r: Queue, nm: Naming, uid: string, to: Place) {
    forall u :: Where(r, nm, u) == if u == uid then to else Where(q, nm, u)
  }

  /** p waits for its backoff, counted from its timestamp, to be over. */
  predicate Waiting(cfg: Config, p: QueuedStageInfo, now: int) {
    p.timestamp + BackoffDuration(cfg, p.attempts) > now
  }

  /** No two fields that isStageUpdated compares differ. */
  predicate SameToTheScheduler(a: Stage, b: Stage) {
    a.name == b.name && a.uid == b.uid && a.priority == b.priority && a.spec == b.spec
  }

  /** Some plugin that rejected the stage has registered for such an event; none rejected it; or the event
      is for all. */
  ghost predicate Concerns(cfg: Config, p: QueuedStageInfo, e: ClusterEvent) {
    || p.plugins == {}
    || (e.resource == "*" && e.action == 63)
    || exists r, plugin :: r in cfg.eventMap && plugin in cfg.eventMap[r] && plugin in p.plugins && Covers(r, e)
  }

  predicate Covers(r: ClusterEvent, e: ClusterEvent) {
    (r.resource == "*" && r.action == 63) || (r.resource == e.resource && r.action & e.action != 0)
  }

  lemma ConcernsIsHelps(cfg: Config, p: QueuedStageInfo, e: ClusterEvent)
    ensures Concerns(cfg, p, e) <==> Helps(cfg, p, e)
  {
    hide EventMatch, Covers;
    forall r ensures Covers(r, e) <==> EventMatch(r, e) { CoversIsMatch(r, e); }
    forall r | r in cfg.eventMap
      ensures cfg.eventMap[r] * p.plugins != {} <==> exists plugin :: plugin in cfg.eventMap[r] && plugin in p.plugins {
      InCommon(cfg.eventMap[r], p.plugins);
    }
  }

  lemma CoversIsMatch(r: ClusterEvent, e: ClusterEvent)
    ensures Covers(r, e) <==> EventMatch(r, e)
  {
  }

  lemma InCommon(a: set<string>, b: set<string>)
    ensures a * b != {} <==> exists x :: x in a && x in b
  {
    if x :| x in a && x in b { assert x in a * b; }
    if x :| x in a * b { assert x in a && x in b; }
  }

  /** The first wait is the initial duration, and each later one doubles it up to the cap. */
  lemma BackoffDoubles(cfg: Config, attempts: int)
    requires 0 <= cfg.initialBackoff <= cfg.maxBackoff
    ensures attempts <= 1 ==> BackoffDuration(cfg, attempts) == cfg.initialBackoff
    ensures attempts >= 1 ==>
      var twice := 2 * BackoffDuration(cfg, attempts);
      BackoffDuration(cfg, attempts + 1) == if twice < cfg.maxBackoff then twice else cfg.maxBackoff
  {
    if attempts >= 1 {
      assert Pow2(attempts) == 2 * Pow2(attempts - 1);
      assert cfg.initialBackoff * Pow2(attempts) == 2 * (cfg.initialBackoff * Pow2(attempts - 1));
      assert Pow2(0) == 1;
    }
  }

  // ---- One stage ---------------------------------------------------------------------------------

  lemma AddPlaces(q: Queue, nm: Naming, s: Stage, now: int)
    requires OneToOne(nm) && Inv(q, nm) && Named(nm, s)
    ensures OnlyMoved(q, Add(q, s, now), nm, s.uid, Active(QueuedStageInfo(s, now, 0, now, {})))
    ensures Add(q, s, now).cycle == q.cycle && Add(q, s, now).moveRequestCycle == q.moveRequestCycle
  {
  }

  /** A waiting stage comes to activeQ as it is; others do not move. */
  lemma ActivatePlaces(q: Queue, nm: Naming, s: Stage)
    requires OneToOne(nm) && Inv(q, nm) && Named(nm, s)
    ensures OnlyMoved(q, Activate(q, s), nm, s.uid,
      if Where(q, nm, s.uid) == Nowhere then Nowhere else Active(Where(q, nm, s.uid).info))
    ensures Activate(q, s).cycle == q.cycle && Activate(q, s).moveRequestCycle == q.moveRequestCycle
  {
  }

  /** A stage that is nowhere goes to backoff if a move request has reached the cycle given, else to rest;
      its timestamp alone is renewed. */
  lemma AddUnschedulablePlaces(q: Queue, nm: Naming, p: QueuedStageInfo, cycle: int, now: int)
    requires OneToOne(nm) && Inv(q, nm) && Named(nm, p.stage)
    ensures var p' := QueuedStageInfo(p.stage, now, p.attempts, p.initialAttempt, p.plugins);
            OnlyMoved(q, AddUnschedulable(q, p, cycle, now), nm, p.stage.uid,
              if Where(q, nm, p.stage.uid) != Nowhere then Where(q, nm, p.stage.uid)
              else if q.moveRequestCycle >= cycle then Backoff(p') else Resting(p'))
    ensures var r := AddUnschedulable(q, p, cycle, now); r.cycle == q.cycle && r.moveRequestCycle == q.moveRequestCycle
  {
  }

  lemma PopPlaces(q: Queue, nm: Naming, p: QueuedStageInfo)
    requires OneToOne(nm) && Inv(q, nm) && p.stage.name in q.active && q.active[p.stage.name] == p
    ensures Where(q, nm, p.stage.uid) == Active(p) && OnlyMoved(q, Pop(q, p), nm, p.stage.uid, Nowhere)
    ensures Pop(q, p).cycle == q.cycle + 1 && Pop(q, p).moveRequestCycle == q.moveRequestCycle
  {
  }

  lemma DeletePlaces(q: Queue, nm: Naming, s: Stage)
    requires OneToOne(nm) && Inv(q, nm) && Named(nm, s)
    ensures OnlyMoved(q, Delete(q, s), nm, s.uid, Nowhere)
    ensures Delete(q, s).cycle == q.cycle && Delete(q, s).moveRequestCycle == q.moveRequestCycle
  {
  }

  /** The new stage is stored wherever the old one is, with everything else about it kept; at rest, a change
      that the scheduler sees sends it on as its backoff says; a stage that is nowhere is new. */
  lemma UpdatePlaces(cfg: Config, q: Queue, nm: Naming, o: Stage, s: Stage, now: int)
    requires OneToOne(nm) && Inv(q, nm) && Named(nm, s) && Named(nm, o) && o.uid == s.uid
    ensures var r := Update(cfg, q, Some(o), s, now);
            && r.cycle == q.cycle && r.moveRequestCycle == q.moveRequestCycle
            && OnlyMoved(q, r, nm, s.uid,
                 match Where(q, nm, s.uid)
                 case Active(p) => Active(p.(stage := s))
                 case Backoff(p) => Backoff(p.(stage := s))
                 case Resting(p) =>
                   if SameToTheScheduler(o, s) then Resting(p.(stage := s))
                   else if Waiting(cfg, p, now) then Backoff(p.(stage := s))
                   else Active(p.(stage := s))
                 case Nowhere => Active(QueuedStageInfo(s, now, 0, now, {})))
  {
    hide Inv, Update, Where;
    UpdateOwnPlace(cfg, q, nm, o, s, now);
    forall u | u != s.uid ensures Where(Update(cfg, q, Some(o), s, now), nm, u) == Where(q, nm, u) {
      UpdateOthers(cfg, q, nm, o, s, now, u);
    }
  }

  /** Without an old stage the stage is taken for new. */
  lemma UpdateNewPlaces(cfg: Config, q: Queue, nm: Naming, s: Stage, now: int)
    requires OneToOne(nm) && Inv(q, nm) && Named(nm, s) && s.uid !in q.unschedulable && s.name !in q.backoff
    ensures OnlyMoved(q, Update(cfg, q, None, s, now), nm, s.uid, Active(QueuedStageInfo(s, now, 0, now, {})))
  {
  }

  lemma UpdateOwnPlace(cfg: Config, q: Queue, nm: Naming, o: Stage, s: Stage, now: int)
    requires OneToOne(nm) && Inv(q, nm) && Named(nm, s) && Named(nm, o) && o.uid == s.uid
    ensures var r := Update(cfg, q, Some(o), s, now);
            && r.cycle == q.cycle && r.moveRequestCycle == q.moveRequestCycle
            && Where(r, nm, s.uid) ==
                 match Where(q, nm, s.uid)
                 case Active(p) => Active(p.(stage := s))
                 case Backoff(p) => Backoff(p.(stage := s))
                 case Resting(p) =>
                   if SameToTheScheduler(o, s) then Resting(p.(stage := s))
                   else if Waiting(cfg, p, now) then Backoff(p.(stage := s))
                   else Active(p.(stage := s))
                 case Nowhere => Active(QueuedStageInfo(s, now, 0, now, {}))
  {
    hide BackoffDuration;
    assert StageUpdated(o, s) <==> !SameToTheScheduler(o, s);
  }

  lemma UpdateOthers(cfg: Config, q: Queue, nm: Naming, o: Stage, s: Stage, now: int, u: string)
    requires OneToOne(nm) && Named(nm, s) && Named(nm, o) && o.uid == s.uid && u != s.uid
    ensures Where(Update(cfg, q, Some(o), s, now), nm, u) == Where(q, nm, u)
  {
    hide Where, StageUpdated, BackoffTime, NewInfo;
    assert nm.nameOf(u) != s.name;
    SameLookups(q, Update(cfg, q, Some(o), s, now), nm, u);
  }

  predicate SameAt<V(==)>(a: map<string, V>, b: map<string, V>, k: string) {
    if k in a then k in b && a[k] == b[k] else k !in b
  }

  lemma SameLookups(q: Queue, r: Queue, nm: Naming, u: string)
    requires SameAt(q.active, r.active, nm.nameOf(u)) && SameAt(q.backoff, r.backoff, nm.nameOf(u))
    requires SameAt(q.unschedulable, r.unschedulable, u)
    ensures Where(r, nm, u) == Where(q, nm, u)
  {
  }

  // ---- Many stages -------------------------------------------------------------------------------

  /** Where an entry goes once it may be tried again. */
  function Released(cfg: Config, p: QueuedStageInfo, now: int): Place {
    if Waiting(cfg, p, now) then Backoff(p) else Active(p)
  }

  /** A move request releases exactly the listed resting stages that the event concerns, and notes its
      cycle. */
  lemma MovePlaces(cfg: Config, q: Queue, nm: Naming, ps: seq<QueuedStageInfo>, e: ClusterEvent, now: int)
    requires OneToOne(nm) && Inv(q, nm) && DistinctUids(ps) && FromUnschedulable(q, ps)
    ensures var r := Move(cfg, q, ps, e, now);
            && r.cycle == q.cycle && r.moveRequestCycle == q.cycle
            && forall u :: Where(r, nm, u) ==
                 match Where(q, nm, u)
                 case Resting(p) => if p in ps && Concerns(cfg, p, e) then Released(cfg, p, now) else Resting(p)
                 case other => other
  {
    MoveKeeps(cfg, q, nm, ps, e, now);
    var r := Move(cfg, q, ps, e, now);
    var m := MoveEach(cfg, q, ps, e, now);
    hide MoveEach;
    forall u ensures Where(r, nm, u) ==
      match Where(q, nm, u)
      case Resting(p) => if p in ps && Concerns(cfg, p, e) then Released(cfg, p, now) else Resting(p)
      case other => other
    {
      assert Where(r, nm, u) == Where(m, nm, u);
      if u in q.unschedulable { ConcernsIsHelps(cfg, q.unschedulable[u], e); }
      MovedPlace(cfg, q, m, nm, ps, e, now, u);
    }
  }

  lemma MovedPlace(cfg: Config, q: Queue, m: Queue, nm: Naming, ps: seq<QueuedStageInfo>, e: ClusterEvent, now: int,
                   u: string)
    requires OneToOne(nm) && Inv(q, nm) && Inv(m, nm) && SamePending(q, m, nm) && Moved(cfg, q, m, ps, e, now)
    requires FromUnschedulable(q, ps)
    ensures Where(m, nm, u) ==
      match Where(q, nm, u)
      case Resting(p) => if p in ps && Helps(cfg, p, e) then Released(cfg, p, now) else Resting(p)
      case other => other
  {
    hide Helps, BackoffDuration;
    match Where(q, nm, u)
    case Resting(p) =>
      assert p.stage.name == nm.nameOf(u);
      if p in ps && Helps(cfg, p, e) {
        var i :| 0 <= i < |ps| && ps[i] == p;
        assert Placed(cfg, m, p, now);
      }
    case Nowhere => assert !Pending(q, nm, u);
    case _ =>
  }

  /** The flush of backoffQ releases exactly the entries whose backoff is over. */
  lemma FlushBackoffPlaces(cfg: Config, q: Queue, nm: Naming, now: int)
    requires OneToOne(nm) && Inv(q, nm)
    ensures var r := FlushBackoff(cfg, q, now);
            && r.cycle == q.cycle && r.moveRequestCycle == q.moveRequestCycle
            && forall u :: Where(r, nm, u) ==
                 match Where(q, nm, u)
                 case Backoff(p) => if Waiting(cfg, p, now) then Backoff(p) else Active(p)
                 case other => other
  {
    hide BackoffDuration;
  }

  /** The flush of the leftovers releases exactly the stages at rest for longer than the limit; with none of
      them it is no move request. */
  lemma FlushUnschedulablePlaces(cfg: Config, q: Queue, nm: Naming, order: seq<string>, now: int)
    requires OneToOne(nm) && Inv(q, nm) && Enumerates(order, q.unschedulable.Keys)
    ensures var r := FlushUnschedulable(cfg, q, order, now);
            && r.cycle == q.cycle
            && (r.moveRequestCycle == if exists u :: Overstays(cfg, q, nm, u, now) then q.cycle else q.moveRequestCycle)
            && forall u :: Where(r, nm, u) ==
                 if Overstays(cfg, q, nm, u, now) then Released(cfg, Where(q, nm, u).info, now) else Where(q, nm, u)
  {
    var check := Overdue(cfg, now);
    var ps := Pick(q, order, check);
    PickDistinct(q, nm, order, check);
    forall u ensures Overstays(cfg, q, nm, u, now) <==> Where(q, nm, u).Resting? && Where(q, nm, u).info in ps {
      if u in q.unschedulable && q.unschedulable[u] in ps {
        var v :| v in order && q.unschedulable[v] == q.unschedulable[u];
        assert check(q.unschedulable[u]);
      }
    }
    if ps != [] {
      MovePlaces(cfg, q, nm, ps, UNSCHEDULABLE_TIMEOUT, now);
      assert ps[0] in ps && Overstays(cfg, q, nm, ps[0].stage.uid, now);
    }
  }

  predicate Overstays(cfg: Config, q: Queue, nm: Naming, u: string, now: int) {
    Where(q, nm, u).Resting? && now - Where(q, nm, u).info.timestamp > cfg.maxInUnschedulable
  }
}
