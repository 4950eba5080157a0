/** What one pass of the stage controller computes from a snapshot of the stages. */
module WorkflowSpec {
  import opened Common
  import opened Graphs

  datatype StageState = Create | Ready | Bind | Success | Failed

  datatype Stage = Stage(uid: string, job: string, node: string, deps: seq<string>, state: StageState,
                         worker: string, input: Option<string>, output: Option<string>)

  type Stages = map<string, Stage>

  /** The stages of a job by node; of two for one node, the later in the list. */
  function JobStages(list: seq<Stage>, job: string): Stages {
    if list == [] then map[]
    else
      var m := JobStages(list[..|list| - 1], job);
      var v := list[|list| - 1];
      if v.job == job then m[v.node := v] else m
  }

  ghost function EdgesOf(js: Stages): set<Edge> {
    set n, d | n in js && d in js[n].deps :: (d, n)
  }

  ghost function DagOf(js: Stages): Graph { Graph(js.Keys, EdgesOf(js)) }

  /** The library takes every vertex and edge: dependStage goes on. */
  ghost predicate Accepted(js: Stages) {
    && (forall n :: n in js ==> NoDup(js[n].deps) && forall d :: d in js[n].deps ==> d in js)
    && Acyclic(EdgesOf(js))
  }

  function Children(js: Stages, u: string): set<string> {
    set n | n in js && u in js[n].deps
  }

  /** As dependStage tests it: a dependency without a stage is passed over. */
  predicate AllSuccess(js: Stages, deps: seq<string>) {
    forall d :: d in deps && d in js ==> js[d].state == Success
  }

  /** The output of the last dependency that has one to give. */
  function InputOf(js: Stages, deps: seq<string>): Option<string> {
    if deps == [] then None
    else
      var d := deps[|deps| - 1];
      if d in js && js[d].state == Success then js[d].output else InputOf(js, deps[..|deps| - 1])
  }

  /** The last dependency that the job map shows as Success. */
  predicate LastDone(js: Stages, deps: seq<string>, i: nat) {
    && i < |deps| && deps[i] in js && js[deps[i]].state == Success
    && forall j :: i < j < |deps| && deps[j] in js ==> js[deps[j]].state != Success
  }

  function Released(js: Stages, c: string): Stage
    requires c in js
  {
    js[c].(state := Ready, input := InputOf(js, js[c].deps))
  }

  /** The Success case over the children in `order`; each release is seen by the children after it. */
  function Release(js: Stages, order: seq<string>): (Stages, seq<Stage>) {
    if order == [] then (js, [])
    else
      var (m, items) := Release(js, order[..|order| - 1]);
      var c := order[|order| - 1];
      if c in m && AllSuccess(m, m[c].deps) then (m[c := Released(m, c)], items + [Released(m, c)]) else (m, items)
  }

  /** The Failed case over every child met, in `order`, perhaps repeatedly. */
  function Fail(js: Stages, order: seq<string>): (Stages, seq<Stage>) {
    if order == [] then (js, [])
    else
      var (m, items) := Fail(js, order[..|order| - 1]);
      var c := order[|order| - 1];
      if c in m && m[c].state == Create then (m[c := m[c].(state := Failed)], items + [m[c].(state := Failed)])
      else (m, items)
  }

  /** `order` meets exactly the vertices below u. */
  ghost predicate MeetsDescendants(js: Stages, u: string, order: seq<string>) {
    forall n :: n in order <==> Reaches(EdgesOf(js), u, n)
  }

  /** A pass over `upper` with this job map may return these items to be written. */
  ghost predicate MayReturn(upper: Stage, js: Stages, items: seq<Stage>) {
    && Accepted(js)
    && match upper.state
       case Success =>
         && upper.node in js
         && exists order :: Enumerates(order, Children(js, upper.node)) && items == Release(js, order).1
       case Failed =>
         && upper.node in js
         && exists order :: MeetsDescendants(js, upper.node, order) && items == Fail(js, order).1
       case _ => items == []
  }

  // ---- Proof: JobStages ----------------------------------------------------------------------------

  lemma {:induction false} JobStagesFrom(list: seq<Stage>, job: string)
    ensures forall n :: n in JobStages(list, job) ==>
              var v := JobStages(list, job)[n]; v in list && v.job == job && v.node == n
    ensures forall v :: v in list && v.job == job ==> v.node in JobStages(list, job)
  {
    if list != [] {
      var n := |list| - 1;
      assert list == list[..n] + [list[n]];
      JobStagesFrom(list[..n], job);
    }
  }

  /** Of two stages of the job for one node the later in the list is taken. */
  lemma {:induction false} JobStagesLatest(list: seq<Stage>, job: string, i: nat)
    requires i < |list| && list[i].job == job
    requires forall j :: i < j < |list| ==> list[j].job != job || list[j].node != list[i].node
    ensures list[i].node in JobStages(list, job) && JobStages(list, job)[list[i].node] == list[i]
  {
    if i < |list| - 1 {
      JobStagesLatest(list[..|list| - 1], job, i);
    }
  }

  // ---- Proof: the Success case ---------------------------------------------------------------------

  function Nodes(items: seq<Stage>): (r: seq<string>)
    ensures |r| == |items| && forall i :: 0 <= i < |items| ==> r[i] == items[i].node
  {
    seq(|items|, i requires 0 <= i < |items| => items[i].node)
  }

  ghost predicate Keyed(js: Stages) {
    forall n :: n in js ==> js[n].node == n
  }

  /** One stage as the pass leaves it: as it was, or released. */
  ghost predicate OnlyReleased(js: Stages, m: Stages, n: string)
    requires n in js && n in m
  {
    m[n] == js[n] || m[n] == js[n].(state := Ready, input := m[n].input)
  }

  lemma {:induction false} ReleaseMap(js: Stages, order: seq<string>)
    requires Keyed(js)
    ensures var m := Release(js, order).0;
            && m.Keys == js.Keys && Keyed(m)
            && (forall n :: n in js ==> OnlyReleased(js, m, n))
            && (forall n :: n in js && n !in Nodes(Release(js, order).1) ==> m[n] == js[n])
            && (forall n :: n in Nodes(Release(js, order).1) ==> n in js && n in order && m[n].state == Ready)
  {
    if order != [] {
      var k := |order| - 1;
      ReleaseMap(js, order[..k]);
      var m := Release(js, order[..k]).0;
      var items := Release(js, order[..k]).1;
      var c := order[k];
      assert order == order[..k] + [c];
      if c in m && AllSuccess(m, m[c].deps) {
        var v := Released(m, c);
        assert Nodes(items + [v]) == Nodes(items) + [c];
        var m' := m[c := v];
        assert m'.Keys == js.Keys;
        forall n | n in js ensures OnlyReleased(js, m', n) {
          assert OnlyReleased(js, m, n);
        }
      }
    }
  }

  /** Exactly who is released: a child all of whose dependencies the snapshot shows as Success, none of
      them released by this very pass before its turn came. */
  lemma {:induction false} ReleasedIff(js: Stages, order: seq<string>, i: nat)
    requires Keyed(js) && NoDup(order) && i < |order| && order[i] in js
    ensures order[i] in Nodes(Release(js, order).1) <==>
            && AllSuccess(js, js[order[i]].deps)
            && forall d :: d in js[order[i]].deps && d in js ==> d !in Nodes(Release(js, order[..i]).1)
  {
    hide Release, AllSuccess;
    var k := |order| - 1;
    if i == k {
      ReleasedLast(js, order);
    } else {
      ReleasedIff(js, order[..k], i);
      assert order[..k][..i] == order[..i];
      ReleaseOneMore(js, order);
    }
  }

  /** The last child of a pass sees what the ones before it have done. */
  lemma ReleasedLast(js: Stages, order: seq<string>)
    requires Keyed(js) && NoDup(order) && order != [] && order[|order| - 1] in js
    ensures var k := |order| - 1;
            var c, before := order[k], Nodes(Release(js, order[..k]).1);
            c in Nodes(Release(js, order).1) <==>
                AllSuccess(js, js[c].deps) && forall d :: d in js[c].deps && d in js ==> d !in before
  {
    var k := |order| - 1;
    var c := order[k];
    ReleaseMap(js, order[..k]);
    ReleaseOneMore(js, order);
    assert c !in order[..k];
    hide Release;
    SuccessSeen(js, Release(js, order[..k]).0, Nodes(Release(js, order[..k]).1), js[c].deps);
  }

  lemma SuccessSeen(js: Stages, m: Stages, released: seq<string>, deps: seq<string>)
    requires m.Keys == js.Keys && (forall n :: n in js && n !in released ==> m[n] == js[n])
    requires forall n :: n in released ==> n in js && m[n].state == Ready
    ensures AllSuccess(m, deps) <==> AllSuccess(js, deps) && forall d :: d in deps && d in js ==> d !in released
  {
  }

  lemma ReleaseOneMore(js: Stages, order: seq<string>)
    requires Keyed(js) && order != []
    ensures var k := |order| - 1;
            var m, before, c := Release(js, order[..k]).0, Nodes(Release(js, order[..k]).1), order[k];
            Nodes(Release(js, order).1) == if c in m && AllSuccess(m, m[c].deps) then before + [c] else before
  {
    hide AllSuccess, Nodes, InputOf, OnlyReleased;
    var k := |order| - 1;
    ReleaseMap(js, order[..k]);
    var (m, items) := Release(js, order[..k]);
    if order[k] in m {
      NodesOneMore(items, Released(m, order[k]));
    }
  }

  lemma NodesOneMore(items: seq<Stage>, v: Stage)
    ensures Nodes(items + [v]) == Nodes(items) + [v.node]
  {
  }

  /** Every released item is its child made Ready, with every dependency present and Success in the
      snapshot as it was read, and with the output of the last of them as its input. */
  lemma {:induction false} ReleaseSound(js: Stages, order: seq<string>, i: nat)
    requires Keyed(js) && Accepted(js) && NoDup(order) && i < |Release(js, order).1|
    ensures var v := Release(js, order).1[i];
            && v.node in js && v.node in order
            && (forall d :: d in v.deps ==> d in js && js[d].state == Success)
            && v == js[v.node].(state := Ready, input := if v.deps == [] then None else js[v.deps[|v.deps| - 1]].output)
  {
    hide Release, Accepted, OnlyReleased;
    var k := |order| - 1;
    ReleaseItems(js, order);
    InLast(order, order[k]);
    if i < |Release(js, order[..k]).1| {
      ReleaseSound(js, order[..k], i);
      InLast(order, Release(js, order).1[i].node);
    } else {
      LastReleaseSound(js, order);
    }
  }

  lemma ReleaseItems(js: Stages, order: seq<string>)
    ensures order == [] ==> Release(js, order).1 == []
    ensures order != [] ==>
      var k := |order| - 1;
      var m, items, c := Release(js, order[..k]).0, Release(js, order[..k]).1, order[k];
      Release(js, order).1 == if c in m && AllSuccess(m, m[c].deps) then items + [Released(m, c)] else items
  {
  }

  lemma LastReleaseSound(js: Stages, order: seq<string>)
    requires Keyed(js) && Accepted(js) && NoDup(order) && order != []
    requires var k := |order| - 1;
             var m := Release(js, order[..k]).0; order[k] in m && AllSuccess(m, m[order[k]].deps)
    ensures var k := |order| - 1;
            var v := Released(Release(js, order[..k]).0, order[k]);
            && v.node == order[k] && v.node in js
            && (forall d :: d in v.deps ==> d in js && js[d].state == Success)
            && v == js[v.node].(state := Ready, input := if v.deps == [] then None else js[v.deps[|v.deps| - 1]].output)
  {
    var k := |order| - 1;
    ReleaseMap(js, order[..k]);
    var m, c := Release(js, order[..k]).0, order[k];
    hide Release;
    assert c !in order[..k];
    assert m[c] == js[c];
    var deps := js[c].deps;
    forall d | d in deps ensures d in js && m[d] == js[d] && js[d].state == Success {
      assert OnlyReleased(js, m, d);
    }
    hide Acyclic, OnlyReleased;
    InputIsLastOutput(m, deps);
    assert deps != [] ==> LastDone(m, deps, |deps| - 1);
  }

  /** The input is what the last successful dependency has put out, and nothing if there is none. */
  lemma {:induction false} InputIsLastOutput(js: Stages, deps: seq<string>)
    ensures forall i: nat :: LastDone(js, deps, i) ==> InputOf(js, deps) == js[deps[i]].output
    ensures (forall i :: 0 <= i < |deps| ==> !LastDone(js, deps, i)) ==> InputOf(js, deps) == None
  {
    if deps != [] {
      var n := |deps| - 1;
      InputIsLastOutput(js, deps[..n]);
      if deps[n] in js && js[deps[n]].state == Success {
        assert LastDone(js, deps, n);
        assert forall i: nat :: LastDone(js, deps, i) ==> i == n;
      } else {
        forall i: nat ensures LastDone(js, deps, i) <==> LastDone(js, deps[..n], i) {
          SameLast(js, deps, i);
        }
      }
    }
  }

  lemma SameLast(js: Stages, deps: seq<string>, i: nat)
    requires deps != [] && !(deps[|deps| - 1] in js && js[deps[|deps| - 1]].state == Success)
    ensures LastDone(js, deps, i) <==> LastDone(js, deps[..|deps| - 1], i)
  {
    var n := |deps| - 1;
    assert forall j :: 0 <= j < n ==> deps[..n][j] == deps[j];
    if LastDone(js, deps, i) {
      assert forall j :: i < j < n ==> deps[..n][j] == deps[j];
    }
    if LastDone(js, deps[..n], i) {
      forall j | i < j < |deps| && deps[j] in js ensures js[deps[j]].state != Success {
        assert j < n ==> deps[..n][j] == deps[j];
      }
    }
  }

  // ---- Proof: the Failed case ----------------------------------------------------------------------

  /** The items are the stages met in Create, each exactly once and made Failed; the map agrees. */
  lemma {:induction false} FailExact(js: Stages, order: seq<string>)
    requires Keyed(js)
    ensures var (m, items) := Fail(js, order);
            && m.Keys == js.Keys
            && NoDup(Nodes(items))
            && (forall n :: n in Nodes(items) <==> n in order && n in js && js[n].state == Create)
            && (forall n :: n in js ==> m[n] == if n in Nodes(items) then js[n].(state := Failed) else js[n])
            && (forall i :: 0 <= i < |items| ==> items[i].node in js && items[i] == js[items[i].node].(state := Failed))
  {
    if order != [] {
      var k := |order| - 1;
      FailExact(js, order[..k]);
      var m := Fail(js, order[..k]).0;
      var items := Fail(js, order[..k]).1;
      var c := order[k];
      assert order == order[..k] + [c];
      if c in m && m[c].state == Create {
        assert Nodes(items + [m[c].(state := Failed)]) == Nodes(items) + [c];
        assert m[c := m[c].(state := Failed)].Keys == js.Keys;
      }
    }
  }

  /** A pass over a failed stage fails exactly its transitive descendants still in Create, each once,
      in whatever order the flow visits them. */
  lemma FailurePropagates(upper: Stage, js: Stages, items: seq<Stage>)
    requires Keyed(js) && upper.state == Failed && MayReturn(upper, js, items)
    ensures NoDup(Nodes(items))
    ensures forall n :: n in Nodes(items) <==> n in js && js[n].state == Create && Reaches(EdgesOf(js), upper.node, n)
    ensures forall i :: 0 <= i < |items| ==> items[i].node in js && items[i] == js[items[i].node].(state := Failed)
  {
    var order :| MeetsDescendants(js, upper.node, order) && items == Fail(js, order).1;
    FailExact(js, order);
  }

  // ---- Quiescence ----------------------------------------------------------------------------------

  predicate Finished(v: Stage) { v.state == Success || v.state == Failed }

  /** Nothing runs or waits to run, and no pass over a finished stage would change a Create stage. */
  ghost predicate Quiet(js: Stages) {
    && (forall n :: n in js ==> js[n].state != Ready && js[n].state != Bind)
    && (forall u, items, n ::
          u in js && Finished(js[u]) && MayReturn(js[u], js, items) && n in Nodes(items) && n in js ==>
            js[n].state != Create)
  }

  /** As splitDag makes them: only a stage that depends on something starts in Create. */
  ghost predicate RootsReady(js: Stages) {
    forall n :: n in js && js[n].state == Create ==> js[n].deps != []
  }

  lemma SuccessPassExists(js: Stages, u: string) returns (order: seq<string>)
    requires Keyed(js) && Accepted(js) && u in js && js[u].state == Success
    ensures Enumerates(order, Children(js, u)) && MayReturn(js[u], js, Release(js, order).1)
  {
    order := EnumerationExists(Children(js, u));
  }

  lemma FailedPassExists(js: Stages, u: string) returns (order: seq<string>)
    requires Keyed(js) && Accepted(js) && u in js && js[u].state == Failed
    ensures MeetsDescendants(js, u, order) && MayReturn(js[u], js, Fail(js, order).1)
  {
    order := EnumerationExists(set n | n in js && Reaches(EdgesOf(js), u, n));
    forall n | Reaches(EdgesOf(js), u, n) ensures n in js {
      var w := LastStep(EdgesOf(js), u, n);
    }
  }

  /** The first Create stage has finished dependencies only; one that failed would fail it, and if all
      succeeded the last of them would release it. */
  lemma QuietHasNoCreate(js: Stages, n: string)
    requires Keyed(js) && Accepted(js) && RootsReady(js) && Quiet(js) && n in js
    ensures js[n].state != Create
  {
    if js[n].state == Create {
      var g := DagOf(js);
      assert Inside(g);
      var waiting := set x | x in js && js[x].state == Create;
      var c := FirstOf(g, waiting, n);
      forall d | d in js[c].deps ensures d in js && Finished(js[d]) {
        assert (d, c) in g.edges;
      }
      if d :| d in js[c].deps && js[d].state == Failed {
        FailReaches(js, c, d);
      } else {
        SuccessReaches(js, c);
      }
      assert false;
    }
  }

  lemma FailReaches(js: Stages, c: string, d: string)
    requires Keyed(js) && Accepted(js) && c in js && js[c].state == Create && d in js[c].deps
    requires d in js && js[d].state == Failed
    ensures !Quiet(js)
  {
    var order := FailedPassExists(js, d);
    EdgeReaches(EdgesOf(js), d, c);
    FailExact(js, order);
    assert c in Nodes(Fail(js, order).1);
  }

  lemma SuccessReaches(js: Stages, c: string)
    requires Keyed(js) && Accepted(js) && c in js && js[c].state == Create && js[c].deps != []
    requires forall d :: d in js[c].deps ==> d in js && js[d].state == Success
    ensures !Quiet(js)
  {
    hide Enumerates, Acyclic, Reaches;
    var g := DagOf(js);
    var d := LastOf(g, Elems(js[c].deps), js[c].deps[0]);
    var order := SuccessPassExists(js, d);
    InOrder(js, d, order, c);
    var i :| 0 <= i < |order| && order[i] == c;
    forall x | x in js[c].deps && x in js ensures x !in Nodes(Release(js, order[..i]).1) {
      ReleaseMap(js, order[..i]);
      assert (d, x) !in g.edges;
      if x in order[..i] {
        InOrder(js, d, order, x);
      }
    }
    ReleasedIff(js, order, i);
    assert c in Nodes(Release(js, order).1);
  }

  lemma InOrder(js: Stages, u: string, order: seq<string>, n: string)
    requires Enumerates(order, Children(js, u)) && n in js
    ensures NoDup(order) && (n in order <==> u in js[n].deps)
  {
  }

  // ---- completeJob ---------------------------------------------------------------------------------

  datatype Outcome = Unchanged | JobSuccess | JobFailed

  ghost predicate SomeOf(list: seq<Stage>, job: string) { exists v :: v in list && v.job == job }

  /** What completeJob does to a job. */
  ghost predicate Completes(list: seq<Stage>, job: string, r: Outcome) {
    && (r == JobSuccess <==> SomeOf(list, job) && forall v :: v in list && v.job == job ==> v.state == Success)
    && (r == JobFailed <==> exists v :: v in list && v.job == job && v.state == Failed)
  }

  /** When a job with one stage per node is quiet, completeJob ends it one way or the other: failed if
      any stage failed, success otherwise. */
  lemma QuietCompletes(list: seq<Stage>, job: string, r: Outcome)
    requires var js := JobStages(list, job); js != map[] && Accepted(js) && RootsReady(js) && Quiet(js)
    requires forall v, w :: v in list && w in list && v.job == job && w.job == job && v.node == w.node ==> v == w
    requires Completes(list, job, r)
    ensures r == JobSuccess || r == JobFailed
    ensures forall v :: v in list && v.job == job ==> Finished(v)
  {
    var js := JobStages(list, job);
    JobStagesFrom(list, job);
    hide Quiet, Accepted;
    assert Keyed(js);
    forall v | v in list && v.job == job ensures Finished(v) {
      assert js[v.node] == v;
      QuietHasNoCreate(js, v.node);
      QuietNotRunning(js, v.node);
    }
    var n :| n in js;
    assert js[n] in list;
  }

  lemma QuietNotRunning(js: Stages, n: string)
    requires Quiet(js) && n in js
    ensures js[n].state != Ready && js[n].state != Bind
  {
  }
}
