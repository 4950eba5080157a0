/** pkg/scheduler/queue as a state machine on values: every lock-protected method is one function
    from the queue's contents to its new contents. */
module SchedulingQueueSpec {
  import opened Common
  import opened HeapOrder

  // ---- Data -----------------------------------------------------------------------------------

  /** `spec` stands for every field that isStageUpdated compares. */
  datatype Stage = Stage(name: string, uid: string, priority: int, spec: string, resourceVersion: string)

  datatype QueuedStageInfo = QueuedStageInfo(
    stage: Stage, timestamp: int, attempts: int, initialAttempt: int, plugins: set<string>)

  datatype ClusterEvent = ClusterEvent(resource: string, action: bv64, tag: string)

  const WILD_CARD := "*"
  const ALL_ACTIONS: bv64 := 63

  datatype Config = Config(
    initialBackoff: int, maxBackoff: int, maxInUnschedulable: int,
    eventMap: map<ClusterEvent, set<string>>)

  /** activeQ and stageBackoffQ are keyed by Name, unschedulableStages by UID. */
  datatype Queue = Queue(
    active: map<string, QueuedStageInfo>,
    backoff: map<string, QueuedStageInfo>,
    unschedulable: map<string, QueuedStageInfo>,
    cycle: int, moveRequestCycle: int, closed: bool)

  const EMPTY := Queue(map[], map[], map[], 0, -1, false)

  // ---- Backoff arithmetic ---------------------------------------------------------------------

  function Pow2(n: nat): (r: nat)
    ensures r >= 1
  {
    if n == 0 then 1 else 2 * Pow2(n - 1)
  }

  /** The documented meaning: the initial duration doubled per retry, capped. */
  function BackoffDuration(cfg: Config, attempts: int): int {
    if attempts <= 1 then cfg.initialBackoff
    else if cfg.initialBackoff * Pow2(attempts - 1) > cfg.maxBackoff then cfg.maxBackoff
    else cfg.initialBackoff * Pow2(attempts - 1)
  }

  function BackoffTime(cfg: Config, p: QueuedStageInfo): int {
    p.timestamp + BackoffDuration(cfg, p.attempts)
  }

  lemma {:induction false} Pow2Grows(m: nat, n: nat)
    requires m <= n
    ensures Pow2(m) <= Pow2(n)
  {
    if m < n {
      Pow2Grows(m, n - 1);
    }
  }

  lemma ScaleGrows(d: int, m: nat, n: nat)
    requires d >= 0 && m <= n
    ensures d * Pow2(m) <= d * Pow2(n)
  {
  }

  /** calculateBackoffDuration: the loop tests `duration > max - duration` before it doubles. */
  method CalculateBackoffDuration(cfg: Config, attempts: int) returns (duration: int)
    requires cfg.initialBackoff >= 0
    ensures duration == BackoffDuration(cfg, attempts)
  {
    duration := cfg.initialBackoff;
    var i := 1;
    while i < attempts
      invariant 1 <= i && (i == 1 || i <= attempts)
      invariant duration == cfg.initialBackoff * Pow2(i - 1)
      invariant i == 1 || duration <= cfg.maxBackoff
    {
      assert cfg.initialBackoff * Pow2(i) == 2 * duration;
      if duration > cfg.maxBackoff - duration {
        ScaleGrows(cfg.initialBackoff, i, attempts - 1);
        return cfg.maxBackoff;
      }
      duration := duration + duration;
      i := i + 1;
    }
  }

  /** A later attempt never waits less, for every pair of attempts, exactly when the initial
      duration is within the cap: the cap is not applied to the first attempt. */
  lemma BackoffNeverShrinksIff(cfg: Config)
    requires cfg.initialBackoff >= 0
    ensures (forall a, b :: a <= b ==> BackoffDuration(cfg, a) <= BackoffDuration(cfg, b))
            <==> cfg.initialBackoff <= cfg.maxBackoff
  {
    if cfg.initialBackoff <= cfg.maxBackoff {
      forall a, b | a <= b ensures BackoffDuration(cfg, a) <= BackoffDuration(cfg, b) {
        if 1 < b {
          ScaleGrows(cfg.initialBackoff, if a <= 1 then 0 else a - 1, b - 1);
        }
      }
    } else {
      ScaleGrows(cfg.initialBackoff, 0, 1);
      assert BackoffDuration(cfg, 2) < BackoffDuration(cfg, 1);
    }
  }

  /** With an initial duration above the cap the second attempt waits less than the first. */
  lemma FirstAttemptIsNotCapped()
    ensures var cfg := Config(20, 10, 300, map[]); BackoffDuration(cfg, 1) == 20 && BackoffDuration(cfg, 2) == 10
  {
    assert Pow2(1) == 2 * Pow2(0);
  }

  // ---- Orders ---------------------------------------------------------------------------------

  function NameKey(p: QueuedStageInfo): Option<string> { Some(p.stage.name) }

  function BackoffLess(cfg: Config): (QueuedStageInfo, QueuedStageInfo) -> bool {
    (a, b) => BackoffTime(cfg, a) < BackoffTime(cfg, b)
  }

  /** The default queue sort: higher priority first, then earlier timestamp. */
  predicate PrioritySort(a: QueuedStageInfo, b: QueuedStageInfo) {
    a.stage.priority > b.stage.priority || (a.stage.priority == b.stage.priority && a.timestamp < b.timestamp)
  }

  lemma OrdersAreStrictWeak(cfg: Config)
    ensures StrictWeakOrder(BackoffLess(cfg)) && StrictWeakOrder(PrioritySort)
  {
  }

  // ---- Events ---------------------------------------------------------------------------------

  predicate IsWildCard(e: ClusterEvent) { e.resource == WILD_CARD && e.action == ALL_ACTIONS }

  predicate EventMatch(registered: ClusterEvent, e: ClusterEvent) {
    IsWildCard(registered) || (registered.resource == e.resource && registered.action & e.action != 0)
  }

  /** stageMatchesEvent. */
  predicate MatchesEvent(cfg: Config, p: QueuedStageInfo, e: ClusterEvent) {
    IsWildCard(e) ||
    exists r :: r in cfg.eventMap && EventMatch(r, e) && cfg.eventMap[r] * p.plugins != {}
  }

  predicate Helps(cfg: Config, p: QueuedStageInfo, e: ClusterEvent) {
    p.plugins == {} || MatchesEvent(cfg, p, e)
  }

  // ---- Operations -----------------------------------------------------------------------------

  function NewInfo(stage: Stage, now: int): QueuedStageInfo {
    QueuedStageInfo(stage, now, 0, now, {})
  }

  function Add(q: Queue, stage: Stage, now: int): Queue {
    q.(active := q.active[stage.name := NewInfo(stage, now)],
       unschedulable := q.unschedulable - {stage.uid},
       backoff := q.backoff - {stage.name})
  }

  function Activate(q: Queue, stage: Stage): Queue {
    if stage.name in q.active then q
    else if stage.uid in q.unschedulable then ActivateInfo(q, stage, q.unschedulable[stage.uid])
    else if stage.name in q.backoff then ActivateInfo(q, stage, q.backoff[stage.name])
    else q
  }

  function ActivateInfo(q: Queue, stage: Stage, p: QueuedStageInfo): Queue {
    q.(active := q.active[p.stage.name := p],
       unschedulable := q.unschedulable - {stage.uid},
       backoff := q.backoff - {p.stage.name})
  }

  predicate Holds(q: Queue, stage: Stage) {
    stage.uid in q.unschedulable || stage.name in q.active || stage.name in q.backoff
  }

  /** Re-adds a stage whose scheduling attempt failed; `cycle` is the cycle number of that attempt. */
  function AddUnschedulable(q: Queue, p: QueuedStageInfo, cycle: int, now: int): Queue {
    var p' := p.(timestamp := now);
    if Holds(q, p.stage) then q
    else if q.moveRequestCycle >= cycle then q.(backoff := q.backoff[p.stage.name := p'])
    else q.(unschedulable := q.unschedulable[p.stage.uid := p'])
  }

  /** Pop takes some least entry p of the active heap. */
  function Pop(q: Queue, p: QueuedStageInfo): Queue {
    q.(active := q.active - {p.stage.name}, cycle := q.cycle + 1)
  }

  predicate StageUpdated(old': Stage, new': Stage) {
    old'.(resourceVersion := "") != new'.(resourceVersion := "")
  }

  /** An entry leaves unschedulableStages for one of the heaps. */
  function ToBackoff(q: Queue, p: QueuedStageInfo): Queue {
    q.(backoff := q.backoff[p.stage.name := p], unschedulable := q.unschedulable - {p.stage.uid})
  }

  function ToActive(q: Queue, p: QueuedStageInfo): Queue {
    q.(active := q.active[p.stage.name := p], unschedulable := q.unschedulable - {p.stage.uid})
  }

  function Update(cfg: Config, q: Queue, oldStage: Option<Stage>, newStage: Stage, now: int): Queue
    requires oldStage.None? ==> newStage.uid !in q.unschedulable
  {
    if oldStage.Some? && oldStage.value.name in q.active then
      q.(active := q.active[newStage.name := q.active[oldStage.value.name].(stage := newStage)])
    else if oldStage.Some? && oldStage.value.name in q.backoff then
      q.(backoff := q.backoff[newStage.name := q.backoff[oldStage.value.name].(stage := newStage)])
    else if newStage.uid in q.unschedulable then
      var p := q.unschedulable[newStage.uid].(stage := newStage);
      if !StageUpdated(oldStage.value, newStage) then
        q.(unschedulable := q.unschedulable[newStage.uid := p])
      else if BackoffTime(cfg, p) > now then ToBackoff(q, p)
      else ToActive(q, p)
    else
      q.(active := q.active[newStage.name := NewInfo(newStage, now)])
  }

  function Delete(q: Queue, stage: Stage): Queue {
    if stage.name in q.active then q.(active := q.active - {stage.name})
    else q.(backoff := q.backoff - {stage.name}, unschedulable := q.unschedulable - {stage.uid})
  }

  function MoveOne(cfg: Config, q: Queue, p: QueuedStageInfo, e: ClusterEvent, now: int): Queue {
    if !Helps(cfg, p, e) then q
    else if BackoffTime(cfg, p) > now then ToBackoff(q, p)
    else ToActive(q, p)
  }

  function MoveEach(cfg: Config, q: Queue, ps: seq<QueuedStageInfo>, e: ClusterEvent, now: int): Queue {
    if ps == [] then q
    else MoveOne(cfg, MoveEach(cfg, q, ps[..|ps| - 1], e, now), ps[|ps| - 1], e, now)
  }

  /** moveStagesToActiveOrBackoffQueue: a move request. */
  function Move(cfg: Config, q: Queue, ps: seq<QueuedStageInfo>, e: ClusterEvent, now: int): Queue {
    MoveEach(cfg, q, ps, e, now).(moveRequestCycle := q.cycle)
  }

  /** The entries picked for a move, in the order in which the map is ranged over. */
  function Pick(q: Queue, order: seq<string>, check: QueuedStageInfo -> bool): (ps: seq<QueuedStageInfo>)
    requires forall u :: u in order ==> u in q.unschedulable
    ensures forall p :: p in ps ==> check(p) && exists u :: u in order && q.unschedulable[u] == p
    ensures forall u :: u in order && check(q.unschedulable[u]) ==> q.unschedulable[u] in ps
  {
    if order == [] then []
    else
      var u := order[|order| - 1];
      var rest := Pick(q, order[..|order| - 1], check);
      if check(q.unschedulable[u]) then rest + [q.unschedulable[u]] else rest
  }

  function Overdue(cfg: Config, now: int): QueuedStageInfo -> bool {
    (p: QueuedStageInfo) => now - p.timestamp > cfg.maxInUnschedulable
  }

  const UNSCHEDULABLE_TIMEOUT := ClusterEvent(WILD_CARD, ALL_ACTIONS, "UnschedulableTimeout")

  /** flushUnschedulableStagesLeftover: a move request only when something is overdue. */
  function FlushUnschedulable(cfg: Config, q: Queue, order: seq<string>, now: int): Queue
    requires forall u :: u in order ==> u in q.unschedulable
  {
    var ps := Pick(q, order, Overdue(cfg, now));
    if ps == [] then q else Move(cfg, q, ps, UNSCHEDULABLE_TIMEOUT, now)
  }

  function Expired(cfg: Config, q: Queue, now: int): set<string> {
    set n | n in q.backoff && BackoffTime(cfg, q.backoff[n]) <= now
  }

  /** flushBackoffQCompleted, said without the heap: exactly the expired entries change queue. */
  function FlushBackoff(cfg: Config, q: Queue, now: int): Queue {
    var e := Expired(cfg, q, now);
    q.(backoff := q.backoff - e, active := q.active + (map n | n in e :: q.backoff[n]))
  }

  // ---- The invariant --------------------------------------------------------------------------

  /** Names and UIDs correspond one to one. */
  datatype Naming = Naming(nameOf: string -> string, uidOf: string -> string)

  ghost predicate OneToOne(nm: Naming) {
    forall u :: nm.uidOf(nm.nameOf(u)) == u
  }

  predicate Named(nm: Naming, s: Stage) { s.name == nm.nameOf(s.uid) }

  ghost predicate Keyed(q: Queue, nm: Naming) {
    && (forall n :: n in q.active ==> q.active[n].stage.name == n && Named(nm, q.active[n].stage))
    && (forall n :: n in q.backoff ==> q.backoff[n].stage.name == n && Named(nm, q.backoff[n].stage))
    && (forall u :: u in q.unschedulable ==>
          q.unschedulable[u].stage.uid == u && Named(nm, q.unschedulable[u].stage))
  }

  /** No stage sits in two of the three collections. */
  ghost predicate Disjoint(q: Queue, nm: Naming) {
    && (forall n :: n in q.active ==> n !in q.backoff)
    && (forall u :: u in q.unschedulable ==> nm.nameOf(u) !in q.active && nm.nameOf(u) !in q.backoff)
  }

  ghost predicate Inv(q: Queue, nm: Naming) {
    Keyed(q, nm) && Disjoint(q, nm)
  }

  /** The stage with this UID is in one of the three collections. */
  predicate Pending(q: Queue, nm: Naming, u: string) {
    u in q.unschedulable || nm.nameOf(u) in q.active || nm.nameOf(u) in q.backoff
  }

  ghost predicate SamePending(q: Queue, r: Queue, nm: Naming) {
    forall u :: Pending(q, nm, u) <==> Pending(r, nm, u)
  }

  ghost predicate AlsoPending(q: Queue, r: Queue, nm: Naming, uid: string) {
    forall u :: Pending(r, nm, u) <==> Pending(q, nm, u) || u == uid
  }

  ghost predicate NoLongerPending(q: Queue, r: Queue, nm: Naming, uid: string) {
    forall u :: Pending(r, nm, u) <==> Pending(q, nm, u) && u != uid
  }

  lemma AddKeeps(q: Queue, nm: Naming, s: Stage, now: int)
    requires OneToOne(nm) && Inv(q, nm) && Named(nm, s)
    ensures Inv(Add(q, s, now), nm) && AlsoPending(q, Add(q, s, now), nm, s.uid)
    ensures s.name in Add(q, s, now).active
  {
  }

  /** Activate changes no membership of the union and puts a pending stage in activeQ. */
  lemma ActivateKeeps(q: Queue, nm: Naming, s: Stage)
    requires OneToOne(nm) && Inv(q, nm) && Named(nm, s)
    ensures Inv(Activate(q, s), nm) && SamePending(q, Activate(q, s), nm)
    ensures Pending(q, nm, s.uid) ==> s.name in Activate(q, s).active
  {
    hide Disjoint, ActivateInfo;
    if s.name !in q.active && s.uid in q.unschedulable {
      ActivateInfoKeeps(q, nm, s, q.unschedulable[s.uid]);
    } else if s.name !in q.active && s.name in q.backoff {
      ActivateInfoKeeps(q, nm, s, q.backoff[s.name]);
    }
  }

  lemma ActivateInfoKeeps(q: Queue, nm: Naming, s: Stage, p: QueuedStageInfo)
    requires OneToOne(nm) && Inv(q, nm) && Named(nm, s) && Named(nm, p.stage)
    requires p.stage.name == s.name && Pending(q, nm, s.uid)
    ensures Inv(ActivateInfo(q, s, p), nm) && SamePending(q, ActivateInfo(q, s, p), nm)
    ensures s.name in ActivateInfo(q, s, p).active
  {
  }

  lemma PopKeeps(q: Queue, nm: Naming, p: QueuedStageInfo)
    requires OneToOne(nm) && Inv(q, nm) && p.stage.name in q.active && q.active[p.stage.name] == p
    ensures Inv(Pop(q, p), nm) && NoLongerPending(q, Pop(q, p), nm, p.stage.uid)
  {
  }

  /** Delete looks into the other two collections only when activeQ does not hold the stage; that
      it still leaves the stage in none of them is the disjointness. */
  lemma DeleteKeeps(q: Queue, nm: Naming, s: Stage)
    requires OneToOne(nm) && Inv(q, nm) && Named(nm, s)
    ensures Inv(Delete(q, s), nm) && NoLongerPending(q, Delete(q, s), nm, s.uid)
  {
  }

  lemma AddUnschedulableKeeps(q: Queue, nm: Naming, p: QueuedStageInfo, cycle: int, now: int)
    requires OneToOne(nm) && Inv(q, nm) && Named(nm, p.stage)
    ensures Inv(AddUnschedulable(q, p, cycle, now), nm)
    ensures AlsoPending(q, AddUnschedulable(q, p, cycle, now), nm, p.stage.uid)
  {
    if !Holds(q, p.stage) {
      hide Inv;
      OverwriteBackoff(q, nm, p.(timestamp := now));
      OverwriteUnschedulable(q, nm, p.(timestamp := now));
    }
  }

  lemma LeaveKeeps(q: Queue, nm: Naming, p: QueuedStageInfo)
    requires OneToOne(nm) && Inv(q, nm) && Named(nm, p.stage) && p.stage.uid in q.unschedulable
    ensures Inv(ToBackoff(q, p), nm) && SamePending(q, ToBackoff(q, p), nm)
    ensures Inv(ToActive(q, p), nm) && SamePending(q, ToActive(q, p), nm)
  {
  }

  /** Update keeps the collections disjoint for every old stage of the same UID, and without an
      old stage exactly when the stage is not backing off: the backoff queue is then not looked at. */
  lemma UpdateKeepsIff(cfg: Config, q: Queue, nm: Naming, o: Option<Stage>, s: Stage, now: int)
    requires OneToOne(nm) && Inv(q, nm) && Named(nm, s)
    requires o.None? ==> s.uid !in q.unschedulable
    requires o.Some? ==> o.value.uid == s.uid && Named(nm, o.value)
    ensures Inv(Update(cfg, q, o, s, now), nm) <==> o.Some? || s.name !in q.backoff
    ensures AlsoPending(q, Update(cfg, q, o, s, now), nm, s.uid)
  {
    hide Inv;
    if o.Some? && s.name in q.active {
      OverwriteActive(q, nm, q.active[s.name].(stage := s));
      InvApart(q, nm, s);
    } else if o.Some? && s.name in q.backoff {
      OverwriteBackoff(q, nm, q.backoff[s.name].(stage := s));
      InvApart(q, nm, s);
    } else if s.uid in q.unschedulable {
      var p := q.unschedulable[s.uid].(stage := s);
      OverwriteUnschedulable(q, nm, p);
      InvApart(q, nm, s);
      LeaveKeeps(q, nm, p);
    } else {
      OverwriteActive(q, nm, NewInfo(s, now));
    }
  }

  lemma InvApart(q: Queue, nm: Naming, s: Stage)
    requires Inv(q, nm) && Named(nm, s)
    ensures s.name in q.active ==> s.name !in q.backoff && s.uid !in q.unschedulable
    ensures s.name in q.backoff ==> s.uid !in q.unschedulable
  {
  }

  /** Storing an entry for a stage in the collection that may hold it. */
  lemma OverwriteActive(q: Queue, nm: Naming, p: QueuedStageInfo)
    requires OneToOne(nm) && Inv(q, nm) && Named(nm, p.stage)
    ensures var r := q.(active := q.active[p.stage.name := p]);
            AlsoPending(q, r, nm, p.stage.uid) &&
            (Inv(r, nm) <==> p.stage.name !in q.backoff && p.stage.uid !in q.unschedulable)
  {
    assert p.stage.name in q.(active := q.active[p.stage.name := p]).active;
  }

  lemma OverwriteBackoff(q: Queue, nm: Naming, p: QueuedStageInfo)
    requires OneToOne(nm) && Inv(q, nm) && Named(nm, p.stage)
    ensures var r := q.(backoff := q.backoff[p.stage.name := p]);
            AlsoPending(q, r, nm, p.stage.uid) &&
            (Inv(r, nm) <==> p.stage.name !in q.active && p.stage.uid !in q.unschedulable)
  {
    assert p.stage.name in q.(backoff := q.backoff[p.stage.name := p]).backoff;
  }

  lemma OverwriteUnschedulable(q: Queue, nm: Naming, p: QueuedStageInfo)
    requires OneToOne(nm) && Inv(q, nm) && Named(nm, p.stage)
    ensures var r := q.(unschedulable := q.unschedulable[p.stage.uid := p]);
            AlsoPending(q, r, nm, p.stage.uid) &&
            (Inv(r, nm) <==> p.stage.name !in q.active && p.stage.name !in q.backoff)
  {
    assert p.stage.uid in q.(unschedulable := q.unschedulable[p.stage.uid := p]).unschedulable;
  }

  /** Update without an old stage: the same stage ends up in two queues. */
  lemma UpdateWithoutOldBreaksDisjointness()
    ensures var nm := Naming((u: string) => u, (n: string) => n);
            var s := Stage("a", "a", 0, "", "");
            var q := EMPTY.(backoff := map["a" := NewInfo(s, 0)]);
            OneToOne(nm) && Inv(q, nm) && !Disjoint(Update(Config(1, 10, 300, map[]), q, None, s, 0), nm)
  {
  }

  // ---- Moves ----------------------------------------------------------------------------------

  ghost predicate DistinctUids(ps: seq<QueuedStageInfo>) {
    forall i, j :: 0 <= i < j < |ps| ==> ps[i].stage.uid != ps[j].stage.uid
  }

  ghost predicate FromUnschedulable(q: Queue, ps: seq<QueuedStageInfo>) {
    forall i :: 0 <= i < |ps| ==> ps[i].stage.uid in q.unschedulable && q.unschedulable[ps[i].stage.uid] == ps[i]
  }

  /** p sits in the queue its backoff asks for. */
  predicate Placed(cfg: Config, r: Queue, p: QueuedStageInfo, now: int) {
    if BackoffTime(cfg, p) > now then p.stage.name in r.backoff && r.backoff[p.stage.name] == p
    else p.stage.name in r.active && r.active[p.stage.name] == p
  }

  /** What a move did: the listed entries that the event helps left unschedulableStages for the queue
      their backoff says, every other entry stayed where and as it was. */
  ghost predicate Moved(cfg: Config, q: Queue, r: Queue, ps: seq<QueuedStageInfo>, e: ClusterEvent, now: int) {
    && r.cycle == q.cycle && r.closed == q.closed
    && (forall i :: 0 <= i < |ps| && Helps(cfg, ps[i], e) ==>
          ps[i].stage.uid !in r.unschedulable && Placed(cfg, r, ps[i], now))
    && (forall u :: u in q.unschedulable && (q.unschedulable[u] in ps ==> !Helps(cfg, q.unschedulable[u], e)) ==>
          u in r.unschedulable)
    && (forall u :: u in r.unschedulable ==> u in q.unschedulable && r.unschedulable[u] == q.unschedulable[u])
    && (forall n :: n in q.active ==> n in r.active && r.active[n] == q.active[n])
    && (forall n :: n in q.backoff ==> n in r.backoff && r.backoff[n] == q.backoff[n])
  }

  lemma MoveOneKeeps(cfg: Config, q: Queue, nm: Naming, p: QueuedStageInfo, e: ClusterEvent, now: int)
    requires OneToOne(nm) && Inv(q, nm)
    requires p.stage.uid in q.unschedulable && q.unschedulable[p.stage.uid] == p
    ensures Inv(MoveOne(cfg, q, p, e, now), nm) && SamePending(q, MoveOne(cfg, q, p, e, now), nm)
    ensures Moved(cfg, q, MoveOne(cfg, q, p, e, now), [p], e, now)
  {
    LeaveKeeps(q, nm, p);
    assert p in [p];
    assert [p][0] == p;
  }

  lemma {:induction false} MoveKeeps(cfg: Config, q: Queue, nm: Naming, ps: seq<QueuedStageInfo>, e: ClusterEvent,
                                     now: int)
    requires OneToOne(nm) && Inv(q, nm) && DistinctUids(ps) && FromUnschedulable(q, ps)
    ensures Inv(MoveEach(cfg, q, ps, e, now), nm) && SamePending(q, MoveEach(cfg, q, ps, e, now), nm)
    ensures Moved(cfg, q, MoveEach(cfg, q, ps, e, now), ps, e, now)
    ensures MoveEach(cfg, q, ps, e, now).moveRequestCycle == q.moveRequestCycle
  {
    if ps != [] {
      var n := |ps| - 1;
      MoveKeeps(cfg, q, nm, ps[..n], e, now);
      var m := MoveEach(cfg, q, ps[..n], e, now);
      assert ps[n] !in ps[..n];
      assert m.unschedulable[ps[n].stage.uid] == ps[n];
      hide Inv, Moved, MoveOne;
      MoveOneKeeps(cfg, m, nm, ps[n], e, now);
      MovedChain(cfg, q, m, MoveEach(cfg, q, ps, e, now), ps, e, now);
    }
  }

  lemma MovedChain(cfg: Config, q: Queue, m: Queue, r: Queue, ps: seq<QueuedStageInfo>, e: ClusterEvent, now: int)
    requires ps != [] && DistinctUids(ps) && FromUnschedulable(q, ps)
    requires Moved(cfg, q, m, ps[..|ps| - 1], e, now) && Moved(cfg, m, r, [ps[|ps| - 1]], e, now)
    ensures Moved(cfg, q, r, ps, e, now)
  {
    var n := |ps| - 1;
    forall i | 0 <= i < |ps| && Helps(cfg, ps[i], e)
      ensures ps[i].stage.uid !in r.unschedulable && Placed(cfg, r, ps[i], now)
    {
      if i < n {
        assert ps[..n][i] == ps[i];
      } else {
        assert [ps[n]][0] == ps[i];
      }
    }
    forall u | u in q.unschedulable && (q.unschedulable[u] in ps ==> !Helps(cfg, q.unschedulable[u], e))
      ensures u in r.unschedulable
    {
      assert q.unschedulable[u] in ps[..n] ==> q.unschedulable[u] in ps;
      assert ps[n] in ps;
    }
  }

  /** Ranging over a map visits each key once, so a pick lists no stage twice. */
  lemma {:induction false} PickDistinct(q: Queue, nm: Naming, order: seq<string>, check: QueuedStageInfo -> bool)
    requires Keyed(q, nm) && NoDup(order)
    requires forall u :: u in order ==> u in q.unschedulable
    ensures DistinctUids(Pick(q, order, check)) && FromUnschedulable(q, Pick(q, order, check))
  {
    if order != [] {
      var n := |order| - 1;
      var rest := Pick(q, order[..n], check);
      PickDistinct(q, nm, order[..n], check);
      forall i | 0 <= i < |rest| ensures rest[i].stage.uid != q.unschedulable[order[n]].stage.uid {
        assert rest[i] in rest;
        var u :| u in order[..n] && q.unschedulable[u] == rest[i];
      }
    }
  }

  lemma FlushBackoffKeeps(cfg: Config, q: Queue, nm: Naming, now: int)
    requires OneToOne(nm) && Inv(q, nm)
    ensures Inv(FlushBackoff(cfg, q, now), nm) && SamePending(q, FlushBackoff(cfg, q, now), nm)
  {
  }
}
