/** Whole runs of the scheduling queue, with the history that moveRequestCycle stands for. */
module SchedulingRuns {
  import opened Common
  import opened SchedulingQueueSpec

  /** One Pop: which stage, the cycle number it was given, and when. */
  datatype Attempt = Attempt(uid: string, cycle: int, at: nat)

  datatype Op =
    | OpAdd(stage: Stage, now: int)
    | OpActivate(stage: Stage)
    | OpPop(info: QueuedStageInfo)
    | OpReadd(info: QueuedStageInfo, attempt: Attempt, now: int)
    | OpUpdate(oldStage: Stage, newStage: Stage, now: int)
    | OpDelete(stage: Stage)
    | OpMove(order: seq<string>, check: QueuedStageInfo -> bool, event: ClusterEvent, now: int)
    | OpFlushBackoff(now: int)
    | OpFlushUnschedulable(order: seq<string>, now: int)

  /** The queue, the number of steps so far, and what has happened: every attempt, the times of the
      move requests, for a stage in unschedulableStages the attempt that put it there, and the pairs
      (move request, stage) in which the request met the stage there and left it. */
  datatype History = History(
    q: Queue, time: nat, attempts: set<Attempt>, moves: set<nat>,
    resting: map<string, Attempt>, skipped: set<(nat, string)>)

  const START := History(EMPTY, 0, {}, {}, map[], {})

  ghost predicate Enabled(nm: Naming, h: History, op: Op) {
    match op
    case OpAdd(s, _) => Named(nm, s)
    case OpActivate(s) => Named(nm, s)
    case OpPop(p) => p.stage.name in h.q.active && h.q.active[p.stage.name] == p
    case OpReadd(p, a, _) => Named(nm, p.stage) && a in h.attempts && a.uid == p.stage.uid
    case OpUpdate(o, s, _) => Named(nm, s) && Named(nm, o) && o.uid == s.uid
    case OpDelete(s) => Named(nm, s)
    case OpMove(order, _, _, _) => Enumerates(order, h.q.unschedulable.Keys)
    case OpFlushBackoff(_) => true
    case OpFlushUnschedulable(order, _) => Enumerates(order, h.q.unschedulable.Keys)
  }

  /** The queue's own step. A failed stage comes back with the cycle number of its own Pop. */
  ghost function Step(cfg: Config, nm: Naming, h: History, op: Op): Queue
    requires Enabled(nm, h, op)
  {
    match op
    case OpAdd(s, now) => Add(h.q, s, now)
    case OpActivate(s) => Activate(h.q, s)
    case OpPop(p) => Pop(h.q, p)
    case OpReadd(p, a, now) => AddUnschedulable(h.q, p, a.cycle, now)
    case OpUpdate(o, s, now) => Update(cfg, h.q, Some(o), s, now)
    case OpDelete(s) => Delete(h.q, s)
    case OpMove(order, check, e, now) => Move(cfg, h.q, Pick(h.q, order, check), e, now)
    case OpFlushBackoff(now) => FlushBackoff(cfg, h.q, now)
    case OpFlushUnschedulable(order, now) => FlushUnschedulable(cfg, h.q, order, now)
  }

  predicate IsMoveRequest(cfg: Config, h: History, op: Op)
    requires op.OpFlushUnschedulable? ==> forall u :: u in op.order ==> u in h.q.unschedulable
  {
    op.OpMove? || (op.OpFlushUnschedulable? && Pick(h.q, op.order, Overdue(cfg, op.now)) != [])
  }

  /** The history after a step to q': `popped` if it was a Pop, `readd` if it re-added an attempt. */
  ghost function Record(h: History, q': Queue, popped: Option<string>, readd: Option<Attempt>, move: bool): History {
    var t := h.time + 1;
    History(
      q', t,
      if popped.Some? then h.attempts + {Attempt(popped.value, q'.cycle, t)} else h.attempts,
      if move then h.moves + {t} else h.moves,
      map u | u in q'.unschedulable ::
        if u in h.resting then h.resting[u] else if readd.Some? then readd.value else Attempt(u, 0, 0),
      if move then h.skipped + (set u | u in h.q.unschedulable && u in q'.unschedulable :: (t, u)) else h.skipped)
  }

  function PoppedBy(op: Op): Option<string> { if op.OpPop? then Some(op.info.stage.uid) else None }

  function ReaddedBy(op: Op): Option<Attempt> { if op.OpReadd? then Some(op.attempt) else None }

  ghost function Next(cfg: Config, nm: Naming, h: History, op: Op): History
    requires Enabled(nm, h, op)
  {
    Record(h, Step(cfg, nm, h, op), PoppedBy(op), ReaddedBy(op), IsMoveRequest(cfg, h, op))
  }

  ghost predicate MovedAfter(h: History, t: nat) {
    exists m :: m in h.moves && m > t
  }

  /** Collections disjoint, cycle numbers in step with time, and the two history claims. */
  ghost predicate Sound(nm: Naming, h: History) {
    && Inv(h.q, nm)
    && h.resting.Keys == h.q.unschedulable.Keys
    && h.q.moveRequestCycle <= h.q.cycle
    && (forall m :: m in h.moves ==> m <= h.time)
    && (forall a :: a in h.attempts ==> a.at <= h.time && a.cycle <= h.q.cycle)
    && CycleTellsMoves(h)
    && RestingSawOnlySkips(h)
  }

  /** moveRequestCycle has reached the cycle of an attempt exactly when a move request ran after it. */
  ghost predicate CycleTellsMoves(h: History) {
    forall a :: a in h.attempts ==> (h.q.moveRequestCycle >= a.cycle <==> MovedAfter(h, a.at))
  }

  /** A stage rests in unschedulableStages only if every move request since its Pop met it there and
      skipped it. */
  ghost predicate RestingSawOnlySkips(h: History) {
    forall u :: u in h.resting ==>
      h.resting[u] in h.attempts && h.resting[u].uid == u &&
      forall m :: m in h.moves && m > h.resting[u].at ==> (m, u) in h.skipped
  }

  // ---- Each step keeps the invariant ----------------------------------------------------------

  lemma QueueStepKeeps(cfg: Config, nm: Naming, h: History, op: Op)
    requires OneToOne(nm) && Inv(h.q, nm) && Enabled(nm, h, op)
    ensures Inv(Step(cfg, nm, h, op), nm)
    ensures match op
            case OpAdd(s, _) => AlsoPending(h.q, Step(cfg, nm, h, op), nm, s.uid)
            case OpReadd(p, _, _) => AlsoPending(h.q, Step(cfg, nm, h, op), nm, p.stage.uid)
            case OpUpdate(_, s, _) => AlsoPending(h.q, Step(cfg, nm, h, op), nm, s.uid)
            case OpPop(p) => NoLongerPending(h.q, Step(cfg, nm, h, op), nm, p.stage.uid)
            case OpDelete(s) => NoLongerPending(h.q, Step(cfg, nm, h, op), nm, s.uid)
            case _ => SamePending(h.q, Step(cfg, nm, h, op), nm)
  {
    match op
    case OpAdd(s, now) => AddKeeps(h.q, nm, s, now);
    case OpActivate(s) => ActivateKeeps(h.q, nm, s);
    case OpPop(p) => PopKeeps(h.q, nm, p);
    case OpReadd(p, a, now) => AddUnschedulableKeeps(h.q, nm, p, a.cycle, now);
    case OpUpdate(o, s, now) => UpdateKeepsIff(cfg, h.q, nm, Some(o), s, now);
    case OpDelete(s) => DeleteKeeps(h.q, nm, s);
    case OpMove(order, check, e, now) =>
      MoveFrame(cfg, nm, h.q, order, check, e, now);
    case OpFlushBackoff(now) => FlushBackoffKeeps(cfg, h.q, nm, now);
    case OpFlushUnschedulable(order, now) =>
      MoveFrame(cfg, nm, h.q, order, Overdue(cfg, now), UNSCHEDULABLE_TIMEOUT, now);
  }

  /** How a step touches what the history claims are about. */
  ghost predicate Frame(cfg: Config, h: History, op: Op, q': Queue)
    requires op.OpFlushUnschedulable? ==> forall u :: u in op.order ==> u in h.q.unschedulable
  {
    && q'.cycle == h.q.cycle + (if op.OpPop? then 1 else 0)
    && q'.moveRequestCycle == (if IsMoveRequest(cfg, h, op) then h.q.cycle else h.q.moveRequestCycle)
    && (forall u :: u in q'.unschedulable ==> u in h.q.unschedulable || Arrives(h, op, u))
  }

  predicate Arrives(h: History, op: Op, u: string) {
    op.OpReadd? && op.info.stage.uid == u && h.q.moveRequestCycle < op.attempt.cycle
  }

  lemma MoveFrame(cfg: Config, nm: Naming, q: Queue, order: seq<string>, check: QueuedStageInfo -> bool,
                  e: ClusterEvent, now: int)
    requires OneToOne(nm) && Inv(q, nm) && Enumerates(order, q.unschedulable.Keys)
    ensures var r := MoveEach(cfg, q, Pick(q, order, check), e, now);
            && Inv(r, nm) && SamePending(q, r, nm) && r.cycle == q.cycle
            && forall u :: u in r.unschedulable ==> u in q.unschedulable
  {
    PickDistinct(q, nm, order, check);
    MoveKeeps(cfg, q, nm, Pick(q, order, check), e, now);
  }

  lemma UpdateFrame(cfg: Config, q: Queue, o: Stage, s: Stage, now: int)
    ensures var r := Update(cfg, q, Some(o), s, now);
            && r.cycle == q.cycle && r.moveRequestCycle == q.moveRequestCycle
            && forall u :: u in r.unschedulable ==> u in q.unschedulable
  {
  }

  lemma StepFrame(cfg: Config, nm: Naming, h: History, op: Op)
    requires OneToOne(nm) && Inv(h.q, nm) && Enabled(nm, h, op)
    ensures Frame(cfg, h, op, Step(cfg, nm, h, op))
  {
    match op
    case OpMove(order, check, e, now) => MoveFrame(cfg, nm, h.q, order, check, e, now);
    case OpFlushUnschedulable(order, now) =>
      MoveFrame(cfg, nm, h.q, order, Overdue(cfg, now), UNSCHEDULABLE_TIMEOUT, now);
    case OpUpdate(o, s, now) => UpdateFrame(cfg, h.q, o, s, now);
    case OpAdd(_, _) =>
    case OpActivate(_) =>
    case OpPop(_) =>
    case OpReadd(_, _, _) =>
    case OpDelete(_) =>
    case OpFlushBackoff(_) =>
  }

  lemma StepKeepsSound(cfg: Config, nm: Naming, h: History, op: Op)
    requires OneToOne(nm) && Sound(nm, h) && Enabled(nm, h, op)
    ensures Sound(nm, Next(cfg, nm, h, op))
  {
    QueueStepKeeps(cfg, nm, h, op);
    StepFrame(cfg, nm, h, op);
    RecordKeepsSound(nm, h, Step(cfg, nm, h, op), PoppedBy(op), ReaddedBy(op), IsMoveRequest(cfg, h, op));
  }

  lemma RecordKeepsSound(nm: Naming, h: History, q': Queue, popped: Option<string>, readd: Option<Attempt>, move: bool)
    requires Sound(nm, h) && Inv(q', nm)
    requires q'.cycle == h.q.cycle + (if popped.Some? then 1 else 0)
    requires q'.moveRequestCycle == if move then h.q.cycle else h.q.moveRequestCycle
    requires move ==> popped.None? && readd.None?
    requires forall u :: u in q'.unschedulable && u !in h.q.unschedulable ==>
      readd.Some? && readd.value in h.attempts && readd.value.uid == u && h.q.moveRequestCycle < readd.value.cycle
    ensures Sound(nm, Record(h, q', popped, readd, move))
  {
    var h' := Record(h, q', popped, readd, move);
    forall a | a in h'.attempts ensures h'.q.moveRequestCycle >= a.cycle <==> MovedAfter(h', a.at) {
      if move {
        assert h'.time in h'.moves;
      } else if a in h.attempts {
        assert h.q.moveRequestCycle >= a.cycle <==> MovedAfter(h, a.at);
      }
    }
    forall u | u in h'.resting
      ensures h'.resting[u] in h'.attempts && h'.resting[u].uid == u
      ensures forall m :: m in h'.moves && m > h'.resting[u].at ==> (m, u) in h'.skipped
    {
      if u !in h.resting {
        assert h'.resting[u] == readd.value && !MovedAfter(h, readd.value.at);
      }
    }
  }

  // ---- Whole runs -----------------------------------------------------------------------------

  ghost predicate Runnable(cfg: Config, nm: Naming, h: History, ops: seq<Op>)
    decreases |ops|
  {
    ops == [] || (Enabled(nm, h, ops[0]) && Runnable(cfg, nm, Next(cfg, nm, h, ops[0]), ops[1..]))
  }

  ghost function Run(cfg: Config, nm: Naming, h: History, ops: seq<Op>): History
    requires Runnable(cfg, nm, h, ops)
    decreases |ops|
  {
    if ops == [] then h else Run(cfg, nm, Next(cfg, nm, h, ops[0]), ops[1..])
  }

  lemma {:induction false} RunKeepsSound(cfg: Config, nm: Naming, h: History, ops: seq<Op>)
    requires OneToOne(nm) && Sound(nm, h) && Runnable(cfg, nm, h, ops)
    ensures Sound(nm, Run(cfg, nm, h, ops))
    decreases |ops|
  {
    if ops != [] {
      StepKeepsSound(cfg, nm, h, ops[0]);
      RunKeepsSound(cfg, nm, Next(cfg, nm, h, ops[0]), ops[1..]);
    }
  }

  /** In every reachable state the collections are disjoint and no stage rests in
      unschedulableStages past a move request that did not meet it there. */
  lemma ReachableSound(cfg: Config, nm: Naming, ops: seq<Op>)
    requires OneToOne(nm) && Runnable(cfg, nm, START, ops)
    ensures Sound(nm, Run(cfg, nm, START, ops))
  {
    RunKeepsSound(cfg, nm, START, ops);
  }

  /** A failed stage re-added with its own Pop's number backs off iff a move request ran since. */
  lemma ReaddedToBackoffIffMoved(cfg: Config, nm: Naming, ops: seq<Op>, p: QueuedStageInfo, a: Attempt, now: int)
    requires OneToOne(nm) && Runnable(cfg, nm, START, ops)
    requires var h := Run(cfg, nm, START, ops); a in h.attempts && !Holds(h.q, p.stage)
    ensures var h := Run(cfg, nm, START, ops);
            p.stage.name in AddUnschedulable(h.q, p, a.cycle, now).backoff <==> MovedAfter(h, a.at)
  {
    ReachableSound(cfg, nm, ops);
  }

  /** The scheduler's error function passes the queue's current number, not the attempt's own. The
      stage then goes where its own number would send it exactly when the request it must not miss
      did not fall between its Pop and the latest Pop `last`. */
  lemma CurrentNumberIsOwnIff(cfg: Config, nm: Naming, ops: seq<Op>, p: QueuedStageInfo, a: Attempt, last: Attempt,
                              now: int)
    requires OneToOne(nm) && Runnable(cfg, nm, START, ops)
    requires var h := Run(cfg, nm, START, ops);
             a in h.attempts && last in h.attempts && last.cycle == h.q.cycle && !Holds(h.q, p.stage)
    ensures var h := Run(cfg, nm, START, ops);
            AddUnschedulable(h.q, p, h.q.cycle, now) == AddUnschedulable(h.q, p, a.cycle, now)
            <==> (MovedAfter(h, a.at) ==> MovedAfter(h, last.at))
  {
    ReachableSound(cfg, nm, ops);
    var h := Run(cfg, nm, START, ops);
    var p' := p.(timestamp := now);
    assert p.stage.name in h.q.(backoff := h.q.backoff[p.stage.name := p']).backoff;
    assert h.q.(backoff := h.q.backoff[p.stage.name := p'])
        != h.q.(unschedulable := h.q.unschedulable[p.stage.uid := p']);
  }

  // ---- The run in which the current number loses a move request -------------------------------

  const CFG := Config(1, 10, 300, map[])
  const SAME_NAME := Naming((u: string) => u, (n: string) => n)
  const STAGE_A := Stage("a", "a", 0, "", "")
  const STAGE_B := Stage("b", "b", 0, "", "")
  const WORKER_ADD := ClusterEvent("Worker", 1, "WorkerAdd")
  const ANY: QueuedStageInfo -> bool := (p: QueuedStageInfo) => true

  /** Pop a, then a move request, then pop b: the states, spelled out. */
  lemma LosingSteps()
    ensures var a, b := NewInfo(STAGE_A, 0), NewInfo(STAGE_B, 0);
            var h2 := History(EMPTY.(active := map["a" := a, "b" := b]), 2, {}, {}, map[], {});
            var h3 := History(EMPTY.(active := map["b" := b], cycle := 1), 3, {Attempt("a", 1, 3)}, {}, map[], {});
            var h4 := h3.(q := h3.q.(moveRequestCycle := 1), time := 4, moves := {4});
            && Enabled(SAME_NAME, h2, OpPop(a)) && Next(CFG, SAME_NAME, h2, OpPop(a)) == h3
            && Enabled(SAME_NAME, h3, OpMove([], ANY, WORKER_ADD, 0))
            && Next(CFG, SAME_NAME, h3, OpMove([], ANY, WORKER_ADD, 0)) == h4
  {
  }

  lemma FirstSteps()
    ensures var a, b := NewInfo(STAGE_A, 0), NewInfo(STAGE_B, 0);
            var h2 := History(EMPTY.(active := map["a" := a, "b" := b]), 2, {}, {}, map[], {});
            Next(CFG, SAME_NAME, Next(CFG, SAME_NAME, START, OpAdd(STAGE_A, 0)), OpAdd(STAGE_B, 0)) == h2
  {
  }

  lemma LastStep()
    ensures var a, b := NewInfo(STAGE_A, 0), NewInfo(STAGE_B, 0);
            var h4 := History(EMPTY.(active := map["b" := b], cycle := 1, moveRequestCycle := 1), 4,
                              {Attempt("a", 1, 3)}, {4}, map[], {});
            var h5 := Next(CFG, SAME_NAME, h4, OpPop(b));
            && Enabled(SAME_NAME, h4, OpPop(b)) && Attempt("a", 1, 3) in h5.attempts && MovedAfter(h5, 3)
            && !Holds(h5.q, STAGE_A)
            && "a" in AddUnschedulable(h5.q, a, h5.q.cycle, 0).unschedulable
  {
  }

  /** Two stages popped with a move request in between: re-added with the current number, the first
      one goes to rest in unschedulableStages although the request ran after its Pop. */
  lemma CurrentNumberLosesAMove(ops: seq<Op>)
    requires ops == [OpAdd(STAGE_A, 0), OpAdd(STAGE_B, 0), OpPop(NewInfo(STAGE_A, 0)),
                     OpMove([], ANY, WORKER_ADD, 0), OpPop(NewInfo(STAGE_B, 0))]
    ensures OneToOne(SAME_NAME) && Runnable(CFG, SAME_NAME, START, ops)
    ensures var h := Run(CFG, SAME_NAME, START, ops);
            && Attempt("a", 1, 3) in h.attempts && MovedAfter(h, 3) && !Holds(h.q, STAGE_A)
            && "a" in AddUnschedulable(h.q, NewInfo(STAGE_A, 0), h.q.cycle, 0).unschedulable
  {
    FirstSteps();
    LosingSteps();
    LastStep();
    var h1 := Next(CFG, SAME_NAME, START, ops[0]);
    var h2 := Next(CFG, SAME_NAME, h1, ops[1]);
    var h3 := Next(CFG, SAME_NAME, h2, ops[2]);
    var h4 := Next(CFG, SAME_NAME, h3, ops[3]);
    Unroll(h4, ops[4], []);
    Unroll(h3, ops[3], [ops[4]]);
    Unroll(h2, ops[2], [ops[3], ops[4]]);
    Unroll(h1, ops[1], [ops[2], ops[3], ops[4]]);
    Unroll(START, ops[0], [ops[1], ops[2], ops[3], ops[4]]);
  }

  lemma Unroll(h: History, op: Op, rest: seq<Op>)
    requires Enabled(SAME_NAME, h, op) && Runnable(CFG, SAME_NAME, Next(CFG, SAME_NAME, h, op), rest)
    ensures Runnable(CFG, SAME_NAME, h, [op] + rest)
    ensures Run(CFG, SAME_NAME, h, [op] + rest) == Run(CFG, SAME_NAME, Next(CFG, SAME_NAME, h, op), rest)
  {
    assert ([op] + rest)[1..] == rest;
  }
}
