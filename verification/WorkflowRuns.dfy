/** Every interleaving of split, bind, worker execution and the stage controller's read-then-write. */
module WorkflowRuns {
  import opened Common
  import opened Graphs
  import opened WorkflowSpec

  ghost function Parents(g: Graph, n: string): set<string> {
    set u | u in g.vertices && (u, n) in g.edges
  }

  /** A stage as dagSort plans it: its dependencies are its node's parents, and it is Ready at once if
      and only if there are none. */
  ghost predicate Planned(g: Graph, node: string, deps: seq<string>, state: StageState) {
    && node in g.vertices
    && Enumerates(deps, Parents(g, node))
    && state == if deps == [] then Ready else Create
  }

  /** store: the stages as stored. past: every version that was ever stored, so "has ever been in a
      state" is membership in past. pending: everything a pass has ever decided to write. */
  datatype System = System(store: map<string, Stage>, past: set<Stage>, pending: set<Stage>)

  const INITIAL := System(map[], {}, {})

  /** The write of a whole stage object. */
  function Write(s: System, v: Stage): System {
    s.(store := s.store[v.uid := v], past := s.past + {v})
  }

  /** What executeCode makes of a stage. */
  function Executed(v: Stage, ok: bool, output: Option<string>): Stage {
    if ok then v.(state := Success, output := output) else v.(state := Failed)
  }

  /** Everything read may be stale: any version ever stored, each stage of a list at its own moment.
      - Split: one stage of a job is created; a split that failed half-way may be repeated.
      - BindTo: a stage seen Ready is bound; the object written was read separately.
      - Execute: a stage seen bound is run; the object written is the lister's.
      - Pass: dependStage returns items to write.
      - Update: one of the items, at any time, perhaps again, is written. */
  datatype Step =
    | Split(v: Stage)
    | BindTo(seen: Stage, v: Stage, worker: string)
    | Execute(seen: Stage, v: Stage, ok: bool, output: Option<string>)
    | Pass(upper: Stage, list: seq<Stage>, items: seq<Stage>)
    | Update(v: Stage)

  ghost predicate Enabled(dags: map<string, Graph>, s: System, step: Step) {
    match step
    case Split(v) => v.uid !in s.store && v.job in dags && Planned(dags[v.job], v.node, v.deps, v.state)
    case BindTo(seen, v, worker) => seen in s.past && v in s.past && seen.uid == v.uid && seen.state == Ready
    case Execute(seen, v, ok, output) => seen in s.past && v in s.past && seen.uid == v.uid && seen.state == Bind
    case Pass(upper, list, items) =>
      && upper in s.past && (forall v :: v in list ==> v in s.past)
      && MayReturn(upper, JobStages(list, upper.job), items)
    case Update(v) => v in s.pending
  }

  function Next(s: System, step: Step): System {
    match step
    case Split(v) => Write(s, v)
    case BindTo(seen, v, worker) => Write(s, v.(state := Bind, worker := worker))
    case Execute(seen, v, ok, output) => Write(s, Executed(v, ok, output))
    case Pass(upper, list, items) => s.(pending := s.pending + set v | v in items)
    case Update(v) => Write(s, v)
  }

  ghost predicate Run(dags: map<string, Graph>, states: seq<System>, steps: seq<Step>) {
    && |states| == |steps| + 1 && states[0] == INITIAL
    && (forall i :: 0 <= i < |steps| ==>
          Enabled(dags, states[i], steps[i]) && states[i + 1] == Next(states[i], steps[i]))
  }

  predicate Started(v: Stage) { v.state == Ready || v.state == Bind || v.state == Success }

  ghost predicate Succeeded(past: set<Stage>, job: string, n: string) {
    exists w :: w in past && w.job == job && w.node == n && w.state == Success
  }

  // ---- The invariant -------------------------------------------------------------------------------

  ghost predicate SameStage(v: Stage, w: Stage) {
    v.job == w.job && v.node == w.node && v.deps == w.deps
  }

  /** A version that may be stored: it is a stage of its job's DAG, the same stage as every other
      version under its uid, and if it has started then every dependency has once been Success. */
  ghost predicate VersionOk(dags: map<string, Graph>, s: System, v: Stage) {
    && v.job in dags && v.node in dags[v.job].vertices && Enumerates(v.deps, Parents(dags[v.job], v.node))
    && v.uid in s.store && SameStage(v, s.store[v.uid])
    && (v.state == Create ==> v.deps != [])
    && (Started(v) ==> forall d :: d in v.deps ==> Succeeded(s.past, v.job, d))
  }

  ghost predicate Inv(dags: map<string, Graph>, s: System) {
    && (forall v :: v in s.past ==> VersionOk(dags, s, v))
    && (forall v :: v in s.pending ==> VersionOk(dags, s, v))
    && (forall u :: u in s.store ==> s.store[u] in s.past && s.store[u].uid == u)
  }

  /** Writing an acceptable version, new or of a known stage, takes nothing away. */
  lemma WriteKeeps(dags: map<string, Graph>, s: System, v: Stage)
    requires Inv(dags, s)
    requires VersionOk(dags, Write(s, v), v) && (v.uid in s.store ==> SameStage(v, s.store[v.uid]))
    ensures Inv(dags, Write(s, v))
  {
  }

  lemma StillSucceeded(past: set<Stage>, more: set<Stage>, job: string, n: string)
    requires past <= more && Succeeded(past, job, n)
    ensures Succeeded(more, job, n)
  {
  }

  /** Another version of a stage that has started somewhere in the past. */
  lemma RewriteKeeps(dags: map<string, Graph>, s: System, seen: Stage, v: Stage, v': Stage)
    requires Inv(dags, s) && seen in s.past && v in s.past && seen.uid == v.uid && Started(seen)
    requires SameStage(v', v) && v'.uid == v.uid && v'.state != Create
    ensures Inv(dags, Write(s, v'))
  {
  }

  /** What a pass decides from stale, partial reads is acceptable. This is where the library's refusal
      of an unknown id matters: the test itself passes over a dependency that has no stage. */
  lemma PassKeeps(dags: map<string, Graph>, s: System, upper: Stage, list: seq<Stage>, items: seq<Stage>, i: nat)
    requires Inv(dags, s) && Enabled(dags, s, Pass(upper, list, items)) && i < |items|
    ensures VersionOk(dags, s, items[i])
  {
    var js := JobStages(list, upper.job);
    JobStagesFrom(list, upper.job);
    assert Keyed(js);
    var v := items[i];
    hide Enumerates, Parents, Reaches;
    match upper.state
    case Success =>
      var order :| Enumerates(order, Children(js, upper.node)) && items == Release(js, order).1;
      InOrder(js, upper.node, order, upper.node);
      ReleaseSound(js, order, i);
      assert VersionOk(dags, s, js[v.node]);
      forall d | d in v.deps ensures Succeeded(s.past, v.job, d) {
        assert js[d] in s.past;
      }
    case Failed =>
      FailurePropagates(upper, js, items);
      assert VersionOk(dags, s, js[v.node]);
    case _ =>
  }

  lemma StepKeeps(dags: map<string, Graph>, s: System, step: Step)
    requires Inv(dags, s) && Enabled(dags, s, step)
    ensures Inv(dags, Next(s, step))
  {
    match step
    case Split(v) => WriteKeeps(dags, s, v);
    case BindTo(seen, v, worker) => RewriteKeeps(dags, s, seen, v, v.(state := Bind, worker := worker));
    case Execute(seen, v, ok, output) =>
      RewriteKeeps(dags, s, seen, v, Executed(v, ok, output));
    case Pass(upper, list, items) =>
      forall v | v in items ensures VersionOk(dags, s, v) {
        var i :| 0 <= i < |items| && items[i] == v;
        PassKeeps(dags, s, upper, list, items, i);
      }
      hide MayReturn, Enumerates, Succeeded;
      assert forall v :: VersionOk(dags, s, v) ==> VersionOk(dags, Next(s, step), v);
    case Update(v) =>
      assert VersionOk(dags, s, v);
      if Started(v) {
        forall d | d in v.deps ensures Succeeded(Write(s, v).past, v.job, d) {
          StillSucceeded(s.past, Write(s, v).past, v.job, d);
        }
      }
      WriteKeeps(dags, s, v);
  }

  lemma {:induction false} RunKeeps(dags: map<string, Graph>, states: seq<System>, steps: seq<Step>, i: nat)
    requires Run(dags, states, steps) && i < |states|
    ensures Inv(dags, states[i])
  {
    if i > 0 {
      RunKeeps(dags, states, steps, i - 1);
      StepKeeps(dags, states[i - 1], steps[i - 1]);
    }
  }

  // ---- Safety --------------------------------------------------------------------------------------

  /** Back along the dependencies, one at a time. */
  lemma {:induction false} WalkSucceeded(dags: map<string, Graph>, s: System, v: Stage, p: seq<string>)
    requires Inv(dags, s) && v in s.past && Started(v) && Inside(dags[v.job])
    requires Walk(dags[v.job].edges, p) && p[|p| - 1] == v.node
    ensures Succeeded(s.past, v.job, p[0])
    decreases |p|
  {
    var n := |p| - 2;
    assert VersionOk(dags, s, v);
    assert (p[n], p[n + 1]) in dags[v.job].edges;
    assert p[n] in Parents(dags[v.job], v.node);
    assert p[n] in v.deps;
    var w :| w in s.past && w.job == v.job && w.node == p[n] && w.state == Success;
    if n > 0 {
      Shorter(dags[v.job].edges, p, 0, n + 1);
      WalkSucceeded(dags, s, w, p[0..n + 1]);
    }
  }

  /** In every run, no stage is ever Ready, Bind or Success before each of its transitive dependencies
      has been Success: not at the moment that version is stored (it is not in the state before), and
      so not later. */
  lemma NeverBeforeItsDependencies(dags: map<string, Graph>, states: seq<System>, steps: seq<Step>, i: nat, v: Stage,
                                   n: string)
    requires Run(dags, states, steps) && i < |steps|
    requires v in states[i + 1].past && Started(v)
    requires v.job in dags && Inside(dags[v.job]) && Acyclic(dags[v.job].edges) && Reaches(dags[v.job].edges, n, v.node)
    ensures Succeeded(states[i].past, v.job, n)
  {
    RunKeeps(dags, states, steps, i + 1);
    RunKeeps(dags, states, steps, i);
    var s, s' := states[i], states[i + 1];
    var p :| Walk(dags[v.job].edges, p) && p[0] == n && p[|p| - 1] == v.node;
    WalkSucceeded(dags, s', v, p);
    var w :| w in s'.past && w.job == v.job && w.node == n && w.state == Success;
    hide Inv, Acyclic, Enabled, Reaches;
    if w !in s.past {
      assert w.node != v.node by { assert Acyclic(dags[v.job].edges); NotItself(dags[v.job].edges, n, v.node); }
      OneVersionPerStep(dags, s, steps[i], v, w);
      assert v in s.past;
      WalkSucceeded(dags, s, v, p);
    }
  }

  // ---- Life of a stage -----------------------------------------------------------------------------

  ghost predicate Ever(past: set<Stage>, uid: string, state: StageState) {
    exists w :: w in past && w.uid == uid && w.state == state
  }

  /** No stage succeeds that was not bound, none is bound that was not ready, and a pass only ever
      makes stages ready or failed. */
  ghost predicate LifeOk(s: System) {
    && (forall v :: v in s.past && v.state == Success ==> Ever(s.past, v.uid, Bind))
    && (forall v :: v in s.past && v.state == Bind ==> Ever(s.past, v.uid, Ready))
    && (forall v :: v in s.pending ==> v.state == Ready || v.state == Failed)
  }

  lemma PassStates(upper: Stage, list: seq<Stage>, items: seq<Stage>, i: nat)
    requires MayReturn(upper, JobStages(list, upper.job), items) && i < |items|
    ensures items[i].state == Ready || items[i].state == Failed
  {
    var js := JobStages(list, upper.job);
    JobStagesFrom(list, upper.job);
    assert Keyed(js);
    match upper.state
    case Success =>
      var order :| Enumerates(order, Children(js, upper.node)) && items == Release(js, order).1;
      ReleaseSound(js, order, i);
    case Failed => FailurePropagates(upper, js, items);
    case _ =>
  }

  lemma StepKeepsLife(dags: map<string, Graph>, s: System, step: Step)
    requires LifeOk(s) && Enabled(dags, s, step)
    ensures LifeOk(Next(s, step))
  {
    var s' := Next(s, step);
    forall uid, state | Ever(s.past, uid, state) ensures Ever(s'.past, uid, state) {
      var w :| w in s.past && w.uid == uid && w.state == state;
      assert w in s'.past;
    }
    if step.Pass? {
      forall v | v in step.items ensures v.state == Ready || v.state == Failed {
        var i :| 0 <= i < |step.items| && step.items[i] == v;
        PassStates(step.upper, step.list, step.items, i);
      }
    }
  }

  lemma {:induction false} RunKeepsLife(dags: map<string, Graph>, states: seq<System>, steps: seq<Step>, i: nat)
    requires Run(dags, states, steps) && i < |states|
    ensures LifeOk(states[i])
  {
    if i > 0 {
      RunKeepsLife(dags, states, steps, i - 1);
      StepKeepsLife(dags, states[i - 1], steps[i - 1]);
    }
  }

  /** In every run a stage becomes Success only by a successful execution after it was bound, with the
      output of that execution, and it was Ready before it was bound. */
  lemma OnlyExecutionSucceeds(dags: map<string, Graph>, states: seq<System>, steps: seq<Step>, i: nat, v: Stage)
    requires Run(dags, states, steps) && i < |steps|
    requires v in states[i + 1].past && v !in states[i].past && v.state == Success
    ensures steps[i].Execute? && steps[i].ok && v == steps[i].v.(state := Success, output := steps[i].output)
    ensures Ever(states[i].past, v.uid, Bind) && Ever(states[i].past, v.uid, Ready)
  {
    RunKeepsLife(dags, states, steps, i);
    hide Run;
    var s, step := states[i], steps[i];
    assert Enabled(dags, s, step) && states[i + 1] == Next(s, step) by { RunStep(dags, states, steps, i); }
    assert step.Execute?;
    assert step.seen in s.past && step.seen.state == Bind && step.seen.uid == v.uid;
  }

  /** Nothing but the split, a binding, an execution or a pass writes a stage: what each step leaves in
      storage, field by field. */
  lemma WhatAStepWrites(dags: map<string, Graph>, states: seq<System>, steps: seq<Step>, i: nat, uid: string)
    requires Run(dags, states, steps) && i < |steps| && uid in states[i + 1].store
    requires uid !in states[i].store || states[i + 1].store[uid] != states[i].store[uid]
    ensures var v := states[i + 1].store[uid];
            match steps[i]
            case Split(w) => v == w && (v.state == Ready <==> v.deps == []) && (v.state == Create <==> v.deps != [])
            case BindTo(_, w, worker) => w.uid == uid && v == w.(state := Bind, worker := worker)
            case Execute(_, w, ok, output) =>
              w.uid == uid && v == if ok then w.(state := Success, output := output) else w.(state := Failed)
            case Pass(_, _, _) => false
            case Update(w) => v == w && (v.state == Ready || v.state == Failed)
  {
    RunKeepsLife(dags, states, steps, i);
    RunStep(dags, states, steps, i);
  }

  /** A pass stores nothing by itself; each of its items may be written from then on, at any time. */
  lemma PassLeavesItems(dags: map<string, Graph>, s: System, upper: Stage, list: seq<Stage>, items: seq<Stage>,
                        later: System)
    requires Enabled(dags, s, Pass(upper, list, items))
    requires Next(s, Pass(upper, list, items)).pending <= later.pending
    ensures var s' := Next(s, Pass(upper, list, items));
            && s'.store == s.store && s'.past == s.past && s.pending <= s'.pending
            && (forall v :: v in s'.pending ==> v in s.pending || v in items)
    ensures forall v :: v in items ==> Enabled(dags, later, Update(v)) && Next(later, Update(v)).store[v.uid] == v
  {
    hide MayReturn;
  }

  // ---- What a stage is given -------------------------------------------------------------------------

  predicate Feeds(w: Stage, v: Stage)
    requires v.deps != []
  {
    w.job == v.job && w.node == v.deps[|v.deps| - 1] && w.state == Success && w.output == v.input
  }

  /** Some version of the last dependency has put out what the stage takes in. */
  ghost predicate Fed(past: set<Stage>, v: Stage) {
    v.deps != [] ==>
      exists w :: w in past && Feeds(w, v)
  }

  ghost predicate AllFed(s: System) {
    forall v :: (v in s.past || v in s.pending) && v.state == Ready ==> Fed(s.past, v)
  }

  lemma PassFeeds(dags: map<string, Graph>, s: System, upper: Stage, list: seq<Stage>, items: seq<Stage>, i: nat)
    requires Enabled(dags, s, Pass(upper, list, items)) && i < |items| && items[i].state == Ready
    ensures Fed(s.past, items[i])
  {
    var js := JobStages(list, upper.job);
    JobStagesFrom(list, upper.job);
    assert Keyed(js);
    var v := items[i];
    match upper.state
    case Success =>
      var order :| Enumerates(order, Children(js, upper.node)) && items == Release(js, order).1;
      hide Enumerates;
      InOrder(js, upper.node, order, upper.node);
      ReleaseSound(js, order, i);
      if v.deps != [] {
        var d := v.deps[|v.deps| - 1];
        assert d in v.deps;
        assert js[d] in s.past && Feeds(js[d], v);
      }
    case Failed => FailurePropagates(upper, js, items);
    case _ =>
  }

  lemma StepFeeds(dags: map<string, Graph>, s: System, step: Step)
    requires AllFed(s) && Enabled(dags, s, step)
    ensures AllFed(Next(s, step))
  {
    hide MayReturn, Planned, Fed;
    var s' := Next(s, step);
    forall v | Fed(s.past, v) ensures Fed(s'.past, v) { StillFed(s.past, s'.past, v); }
    if step.Pass? {
      forall v | v in step.items && v.state == Ready ensures Fed(s.past, v) {
        var i :| 0 <= i < |step.items| && step.items[i] == v;
        PassFeeds(dags, s, step.upper, step.list, step.items, i);
      }
    }
    if step.Split? && step.v.state == Ready {
      RootsEatNothing(dags[step.v.job], s.past, step.v);
    }
  }

  lemma StillFed(past: set<Stage>, more: set<Stage>, v: Stage)
    requires past <= more && Fed(past, v)
    ensures Fed(more, v)
  {
    if v.deps != [] {
      var w :| w in past && Feeds(w, v);
      assert w in more;
    }
  }

  lemma RootsEatNothing(g: Graph, past: set<Stage>, v: Stage)
    requires Planned(g, v.node, v.deps, v.state) && v.state == Ready
    ensures forall more: set<Stage> :: Fed(more, v)
  {
  }

  /** In every run a stage that is Ready, other than a root, has as its input what some successful version
      of its last dependency has put out. */
  lemma {:induction false} ReadyCarriesOutput(dags: map<string, Graph>, states: seq<System>, steps: seq<Step>, i: nat)
    requires Run(dags, states, steps) && i < |states|
    ensures AllFed(states[i])
  {
    if i > 0 {
      ReadyCarriesOutput(dags, states, steps, i - 1);
      RunStep(dags, states, steps, i - 1);
      StepFeeds(dags, states[i - 1], steps[i - 1]);
    }
  }

  lemma RunStep(dags: map<string, Graph>, states: seq<System>, steps: seq<Step>, i: nat)
    requires Run(dags, states, steps) && i < |steps|
    ensures Enabled(dags, states[i], steps[i]) && states[i + 1] == Next(states[i], steps[i])
  {
  }

  lemma NotItself(edges: set<Edge>, n: string, m: string)
    requires Acyclic(edges) && Reaches(edges, n, m)
    ensures n != m
  {
  }

  lemma OneVersionPerStep(dags: map<string, Graph>, s: System, step: Step, v: Stage, w: Stage)
    requires v in Next(s, step).past && w in Next(s, step).past && v != w && w !in s.past
    ensures v in s.past
  {
  }

  // ---- Ending --------------------------------------------------------------------------------------

  /** A list read at one moment that holds every node of the job once. */
  ghost predicate WholeJob(g: Graph, s: System, list: seq<Stage>, job: string) {
    && (forall v :: v in list ==> v in s.past)
    && (forall n :: n in g.vertices ==> n in JobStages(list, job))
    && (forall v, w :: v in list && w in list && v.job == job && w.job == job && v.node == w.node ==> v == w)
  }

  /** Once a job is wholly split, the graph built from its stages is accepted again and its edges are
      the DAG's. */
  lemma WholeJobAccepted(dags: map<string, Graph>, s: System, list: seq<Stage>, job: string)
    requires Inv(dags, s) && job in dags && Inside(dags[job]) && Acyclic(dags[job].edges)
    requires WholeJob(dags[job], s, list, job)
    ensures var js := JobStages(list, job); Accepted(js) && RootsReady(js) && EdgesOf(js) == dags[job].edges
  {
    hide Acyclic;
    var g, js := dags[job], JobStages(list, job);
    JobStagesFrom(list, job);
    forall n | n in js
      ensures n in g.vertices && NoDup(js[n].deps) && (js[n].state == Create ==> js[n].deps != [])
      ensures forall d :: d in js[n].deps <==> d in Parents(g, n) {
      assert VersionOk(dags, s, js[n]);
    }
    forall e ensures e in EdgesOf(js) <==> e in g.edges {
      if e in g.edges {
        assert e.0 in Parents(g, e.1);
        assert e.0 in js[e.1].deps;
        assert e == (e.0, e.1);
      }
    }
    assert EdgesOf(js) == g.edges;
  }

  /** In every run: a wholly split job that is quiet has no stage left that could go on, and completeJob
      sets it to exactly one of success and failed. */
  lemma QuietJobEnds(dags: map<string, Graph>, states: seq<System>, steps: seq<Step>, i: nat, list: seq<Stage>,
                     job: string, r: Outcome)
    requires Run(dags, states, steps) && i < |states|
    requires job in dags && Inside(dags[job]) && Acyclic(dags[job].edges) && dags[job].vertices != {}
    requires WholeJob(dags[job], states[i], list, job) && Quiet(JobStages(list, job)) && Completes(list, job, r)
    ensures r == JobSuccess || r == JobFailed
    ensures forall v :: v in list && v.job == job ==> Finished(v)
  {
    hide Quiet, Completes, Acyclic;
    RunKeeps(dags, states, steps, i);
    WholeJobAccepted(dags, states[i], list, job);
    hide Inv, Run, Accepted, RootsReady;
    var n :| n in dags[job].vertices;
    QuietCompletes(list, job, r);
  }
}
