/** dagSort, dependStage, completeJob and executeCode, with the loops and in-place updates they use. */
module Workflow {
  import opened Common
  import opened Graphs
  import opened WorkflowSpec
  import opened WorkflowRuns

  // ---- pkg/controller/dag/dag_controller.go --------------------------------------------------------

  datatype Node = Node(id: string, code: string)
  datatype DagStage = DagStage(node: string, deps: seq<string>, state: StageState, code: string)

  /** What dagSort demands of a DAG: a code on every node, distinct ids, and edges the library takes. */
  ghost predicate Sortable(nodes: seq<Node>, edges: seq<Edge>) {
    && NodesOk(nodes)
    && (forall i :: 0 <= i < |edges| ==> edges[i].0 in Ids(nodes) && edges[i].1 in Ids(nodes))
    && NoDup(edges) && Acyclic(Elems(edges))
  }

  ghost predicate NodesOk(nodes: seq<Node>) {
    && (forall i :: 0 <= i < |nodes| ==> nodes[i].code != "")
    && (forall i, j :: 0 <= i < j < |nodes| ==> nodes[i].id != nodes[j].id)
  }

  ghost function Ids(nodes: seq<Node>): set<string> {
    set i | 0 <= i < |nodes| :: nodes[i].id
  }

  /** The first loop of dagSort. */
  method CollectNodes(nodes: seq<Node>) returns (r: Option<map<string, Node>>)
    ensures r.Some? <==> NodesOk(nodes)
    ensures r.Some? ==> r.value.Keys == Ids(nodes) && forall i :: 0 <= i < |nodes| ==> r.value[nodes[i].id] == nodes[i]
  {
    var m: map<string, Node> := map[];
    for i := 0 to |nodes|
      invariant forall j :: 0 <= j < i ==> nodes[j].code != ""
      invariant forall j, k :: 0 <= j < k < i ==> nodes[j].id != nodes[k].id
      invariant forall j :: 0 <= j < i ==> nodes[j].id in m && m[nodes[j].id] == nodes[j]
      invariant forall id :: id in m ==> exists j :: 0 <= j < i && nodes[j].id == id
    {
      if nodes[i].code == "" || nodes[i].id in m { return None; }
      m := m[nodes[i].id := nodes[i]];
    }
    r := Some(m);
  }

  /** Every node becomes exactly one stage, with its parents as its dependencies, Ready if and only if it
      has none. `order` and `parentOrder` are the orders of ranging over the two maps. */
  method DagSort(nodes: seq<Node>, edges: seq<Edge>, order: seq<string>, parentOrder: map<string, seq<string>>)
    returns (r: Option<seq<DagStage>>)
    requires Enumerates(order, Ids(nodes))
    requires forall n :: n in order ==> n in parentOrder && Enumerates(parentOrder[n], Parents(Plan(nodes, edges), n))
    ensures r.Some? <==> Sortable(nodes, edges)
    ensures r.Some? ==> |r.value| == |order|
    ensures r.Some? ==> forall i :: 0 <= i < |order| ==> PlannedFor(nodes, edges, order[i], r.value[i])
  {
    hide Enumerates, Acyclic;
    var nodeMap := CollectNodes(nodes);
    if nodeMap.None? { return None; }
    NoCycleYet();
    var d := AddEdges(Graph(nodeMap.value.Keys, {}), edges);
    assert {} + Elems(edges) == Elems(edges);
    if d.None? { return None; }
    var result: seq<DagStage> := [];
    for i := 0 to |order|
      invariant |result| == i
      invariant forall j :: 0 <= j < i ==> PlannedFor(nodes, edges, order[j], result[j])
    {
      var id := order[i];
      InEnumeration(order, Ids(nodes), i);
      var dependNodeId := parentOrder[id];
      var state := Create;
      var isRoot := forall e :: e in d.value.edges ==> e.1 != id;
      if isRoot { state := Ready; }
      RootIff(Plan(nodes, edges), id, dependNodeId);
      result := result + [DagStage(id, dependNodeId, state, nodeMap.value[id].code)];
    }
    r := Some(result);
  }

  ghost function Plan(nodes: seq<Node>, edges: seq<Edge>): Graph { Graph(Ids(nodes), Elems(edges)) }

  ghost predicate PlannedFor(nodes: seq<Node>, edges: seq<Edge>, id: string, v: DagStage) {
    && v.node == id && Planned(Plan(nodes, edges), id, v.deps, v.state)
    && exists i :: 0 <= i < |nodes| && nodes[i] == Node(id, v.code)
  }

  lemma NoCycleYet()
    ensures Acyclic({})
  {
    forall x: string ensures !Reaches({}, x, x) {
      if Reaches({}, x, x) {
        var w := FirstStep({}, x, x);
      }
    }
  }

  lemma InEnumeration(order: seq<string>, keys: set<string>, i: nat)
    requires Enumerates(order, keys) && i < |order|
    ensures order[i] in order && order[i] in keys
  {
  }

  lemma RootIff(g: Graph, id: string, deps: seq<string>)
    requires Inside(g) && Enumerates(deps, Parents(g, id))
    ensures deps == [] <==> forall e :: e in g.edges ==> e.1 != id
  {
    if e :| e in g.edges && e.1 == id {
      assert e == (e.0, id);
      assert e.0 in Parents(g, id);
      assert e.0 in deps;
    }
    assert deps != [] ==> deps[0] in deps && (deps[0], id) in g.edges;
  }

  // ---- pkg/controller/stage/stage_controller.go ----------------------------------------------------

  method CollectJobStages(list: seq<Stage>, job: string) returns (js: Stages)
    ensures js == JobStages(list, job)
  {
    js := map[];
    for i := 0 to |list|
      invariant js == JobStages(list[..i], job)
    {
      assert list[..i + 1][..i] == list[..i];
      if list[i].job == job { js := js[list[i].node := list[i]]; }
    }
    assert list[..|list|] == list;
  }

  function Into(n: string, deps: seq<string>): (r: seq<Edge>)
    ensures |r| == |deps| && forall i :: 0 <= i < |deps| ==> r[i] == (deps[i], n)
  {
    seq(|deps|, i requires 0 <= i < |deps| => (deps[i], n))
  }

  ghost function EdgesInto(js: Stages, order: seq<string>): set<Edge>
    requires forall n :: n in order ==> n in js
  {
    set n, d | n in order && d in js[n].deps :: (d, n)
  }

  lemma InSplit(order: seq<string>, i: nat)
    requires i < |order|
    ensures forall x :: x in order[..i + 1] <==> x in order[..i] || x == order[i]
  {
    assert order[..i + 1] == order[..i] + [order[i]];
  }

  lemma EdgesOneMore(js: Stages, order: seq<string>, i: nat)
    requires i < |order| && forall n :: n in order ==> n in js
    ensures EdgesInto(js, order[..i + 1]) == EdgesInto(js, order[..i]) + Elems(Into(order[i], js[order[i]].deps))
  {
  }

  /** The library takes one stage's dependencies or the graph is not acceptable. */
  lemma NodeAccepted(js: Stages, n: string, before: set<Edge>)
    requires n in js && before <= EdgesOf(js) && (forall e :: e in before ==> e.1 != n)
    ensures var l := Into(n, js[n].deps);
            Accepted(js) ==> && (forall i :: 0 <= i < |l| ==> l[i].0 in js && l[i].1 in js && l[i] !in before)
                             && NoDup(l) && Acyclic(before + Elems(l))
  {
    if Accepted(js) {
      var l := Into(n, js[n].deps);
      forall i | 0 <= i < |l| ensures l[i].0 in js { assert js[n].deps[i] in js[n].deps; }
      forall e | e in Elems(l) ensures e in EdgesOf(js) {
        var j :| 0 <= j < |l| && l[j] == e;
        assert js[n].deps[j] in js[n].deps;
      }
      AcyclicLess(before + Elems(l), EdgesOf(js));
    }
  }

  /** Lines 193-207 of stage_controller.go: the graph of a job's stages, or an error. */
  method BuildDag(js: Stages, order: seq<string>) returns (r: Option<Graph>)
    requires Keyed(js) && Enumerates(order, js.Keys)
    ensures r.Some? <==> Accepted(js)
    ensures r.Some? ==> r.value == DagOf(js)
  {
    hide Acyclic, Accepted;
    var d := Graph(js.Keys, {});
    NoCycleYet();
    for i := 0 to |order|
      invariant d == Graph(js.Keys, EdgesInto(js, order[..i])) && Inside(d) && Acyclic(d.edges)
      invariant forall n :: n in order[..i] ==> DepsTaken(js, n)
    {
      var n := order[i];
      NextNode(js, order, i);
      NodeAccepted(js, n, d.edges);
      EdgesOneMore(js, order, i);
      InSplit(order, i);
      var list := Into(n, js[n].deps);
      var d' := AddEdges(d, list);
      if d'.None? { return None; }
      DepsFromEdges(js, n, list);
      d := d'.value;
    }
    assert order[..|order|] == order;
    assert EdgesInto(js, order) == EdgesOf(js) by { AllEdges(js, order); }
    AcceptedAll(js, order);
    r := Some(d);
  }

  ghost predicate DepsTaken(js: Stages, n: string) {
    n in js && NoDup(js[n].deps) && forall d :: d in js[n].deps ==> d in js
  }

  lemma NextNode(js: Stages, order: seq<string>, i: nat)
    requires Enumerates(order, js.Keys) && i < |order|
    ensures order[i] in js && order[i] !in order[..i] && forall n :: n in order ==> n in js
    ensures EdgesInto(js, order[..i]) <= EdgesOf(js)
    ensures forall e :: e in EdgesInto(js, order[..i]) ==> e.1 != order[i]
  {
    assert order[i] in order;
  }

  lemma DepsFromEdges(js: Stages, n: string, list: seq<Edge>)
    requires n in js && list == Into(n, js[n].deps) && NoDup(list)
    requires forall i :: 0 <= i < |list| ==> list[i].0 in js
    ensures DepsTaken(js, n)
  {
  }

  lemma AllEdges(js: Stages, order: seq<string>)
    requires Enumerates(order, js.Keys)
    ensures forall n :: n in order ==> n in js
    ensures EdgesInto(js, order) == EdgesOf(js)
  {
  }

  lemma AcceptedAll(js: Stages, order: seq<string>)
    requires Enumerates(order, js.Keys) && (forall n :: n in order ==> DepsTaken(js, n)) && Acyclic(EdgesOf(js))
    ensures Accepted(js)
  {
  }

  /** Lines 215-240 of stage_controller.go, updating the job map in place. */
  method ReleaseChildren(js: Stages, order: seq<string>) returns (items: seq<Stage>)
    ensures items == Release(js, order).1
  {
    var m := js;
    items := [];
    for i := 0 to |order|
      invariant (m, items) == Release(js, order[..i])
    {
      assert order[..i + 1][..i] == order[..i];
      var c := order[i];
      if c in m {
        var allSuccess, input := CheckDependencies(m, m[c].deps);
        if allSuccess {
          m := m[c := m[c].(state := Ready, input := input)];
          items := items + [m[c]];
        }
      }
    }
    assert order[..|order|] == order;
  }

  method CheckDependencies(m: Stages, deps: seq<string>) returns (allSuccess: bool, input: Option<string>)
    ensures allSuccess <==> AllSuccess(m, deps)
    ensures input == InputOf(m, deps)
    ensures allSuccess <==> forall d :: d in deps && d in m ==> m[d].state == Success
    ensures forall i: nat :: LastDone(m, deps, i) ==> input == m[deps[i]].output
    ensures (forall i :: 0 <= i < |deps| ==> !LastDone(m, deps, i)) ==> input == None
  {
    InputIsLastOutput(m, deps);
    allSuccess, input := true, None;
    for i := 0 to |deps|
      invariant allSuccess <==> AllSuccess(m, deps[..i])
      invariant input == InputOf(m, deps[..i])
    {
      assert deps[..i + 1] == deps[..i] + [deps[i]];
      assert deps[..i + 1][..i] == deps[..i];
      if deps[i] in m {
        if m[deps[i]].state != Success {
          allSuccess := false;
        } else {
          input := m[deps[i]].output;
        }
      }
    }
    assert deps[..|deps|] == deps;
  }

  /** Lines 242-257 of stage_controller.go: the flow calls the callback once for the failed node and every node below,
      in the order `flow`; `childOrder` is the order of ranging over each one's children. */
  method FailDescendants(js: Stages, u: string, flow: seq<string>, childOrder: map<string, seq<string>>)
    returns (items: seq<Stage>, ghost met: seq<string>)
    requires Keyed(js) && Accepted(js) && u in js
    requires forall n :: n in flow <==> n == u || Reaches(EdgesOf(js), u, n)
    requires forall n :: n in flow ==> n in childOrder && forall c :: c in childOrder[n] <==> c in Children(js, n)
    ensures items == Fail(js, met).1 && MeetsDescendants(js, u, met)
  {
    hide Reaches, Accepted, Keyed, Fail, Children;
    var m := js;
    items, met := [], [];
    assert (m, items) == Fail(js, met) by { FailNothing(js); }
    for i := 0 to |flow|
      invariant (m, items) == Fail(js, met)
      invariant forall c :: c in met <==> exists n :: n in flow[..i] && c in Children(js, n)
    {
      assert flow[..i + 1] == flow[..i] + [flow[i]];
      var failed: seq<Stage>;
      FailConcat(js, met, childOrder[flow[i]]);
      m, failed := FailChildren(m, childOrder[flow[i]]);
      items := items + failed;
      met := met + childOrder[flow[i]];
    }
    assert flow[..|flow|] == flow;
    ChildrenOfFlow(js, u, flow, met);
  }

  /** The callback for one node. */
  method FailChildren(js: Stages, children: seq<string>) returns (m: Stages, items: seq<Stage>)
    ensures (m, items) == Fail(js, children)
  {
    m, items := js, [];
    for j := 0 to |children|
      invariant (m, items) == Fail(js, children[..j])
    {
      assert children[..j + 1][..j] == children[..j];
      var c := children[j];
      if c in m && m[c].state == Create {
        m := m[c := m[c].(state := Failed)];
        items := items + [m[c]];
      }
    }
    assert children[..|children|] == children;
  }

  lemma FailNothing(js: Stages)
    ensures Fail(js, []) == (js, [])
  {
  }

  lemma {:induction false} FailConcat(js: Stages, a: seq<string>, b: seq<string>)
    ensures Fail(js, a + b) == (Fail(Fail(js, a).0, b).0, Fail(js, a).1 + Fail(Fail(js, a).0, b).1)
  {
    if b == [] {
      assert a + b == a;
      FailNothing(Fail(js, a).0);
      assert Fail(js, a).1 + [] == Fail(js, a).1;
    } else {
      var n := |b| - 1;
      assert (a + b)[..|a + b| - 1] == a + b[..n];
      FailConcat(js, a, b[..n]);
      assert (a + b)[|a + b| - 1] == b[n];
      var (m, items) := Fail(Fail(js, a).0, b[..n]);
      var v := if b[n] in m && m[b[n]].state == Create then [m[b[n]].(state := Failed)] else [];
      assert Fail(js, a).1 + (items + v) == Fail(js, a).1 + items + v;
    }
  }

  lemma ChildrenOfFlow(js: Stages, u: string, flow: seq<string>, met: seq<string>)
    requires forall n :: n in flow <==> n == u || Reaches(EdgesOf(js), u, n)
    requires forall c :: c in met <==> exists n :: n in flow && c in Children(js, n)
    ensures MeetsDescendants(js, u, met)
  {
    hide Reaches;
    forall c ensures c in met <==> Reaches(EdgesOf(js), u, c) {
      if c in met {
        var n :| n in flow && c in Children(js, n);
        assert (n, c) in EdgesOf(js);
        EdgeReaches(EdgesOf(js), n, c);
        if n != u { ReachesTrans(EdgesOf(js), u, n, c); }
      }
      if Reaches(EdgesOf(js), u, c) {
        var w := LastStep(EdgesOf(js), u, c);
        assert w in flow && c in Children(js, w);
      }
    }
  }

  /** The choices of map order and flow order that one dependStage call makes. */
  datatype Orders = Orders(vertices: seq<string>, children: seq<string>, flow: seq<string>,
                           childOrder: map<string, seq<string>>)

  ghost predicate OrdersOk(js: Stages, u: string, o: Orders) {
    && Enumerates(o.vertices, js.Keys) && Enumerates(o.children, Children(js, u))
    && (forall n :: n in o.flow <==> n == u || Reaches(EdgesOf(js), u, n))
    && (forall n :: n in o.flow ==> n in o.childOrder && forall c :: c in o.childOrder[n] <==> c in Children(js, n))
  }

  /** dependStage fails exactly when the library refuses the graph, or does not know the finished node;
      otherwise what it returns is one of the results the runs allow. */
  method DependStage(upper: Stage, list: seq<Stage>, o: Orders) returns (r: Option<seq<Stage>>)
    requires OrdersOk(JobStages(list, upper.job), upper.node, o)
    ensures var js := JobStages(list, upper.job);
            r.None? <==> !Accepted(js) || (Finished(upper) && upper.node !in js)
    ensures r.Some? ==> MayReturn(upper, JobStages(list, upper.job), r.value)
  {
    hide Accepted, Enumerates, Reaches;
    var js := CollectJobStages(list, upper.job);
    JobStagesFrom(list, upper.job);
    var d := BuildDag(js, o.vertices);
    if d.None? { return None; }
    match upper.state {
      case Success =>
        if upper.node !in d.value.vertices { return None; }
        var items := ReleaseChildren(js, o.children);
        r := Some(items);
      case Failed =>
        if upper.node !in d.value.vertices { return None; }
        var items, met := FailDescendants(js, upper.node, o.flow, o.childOrder);
        r := Some(items);
      case _ =>
        r := Some([]);
    }
  }

  // ---- pkg/worker/controller.go --------------------------------------------------------------------

  datatype RunResult = Output(value: Option<string>) | RunError | Panic

  /** executeCode writes state and output on the stage it was given. */
  method ExecuteCode(stage: Stage, result: RunResult) returns (r: Stage)
    ensures r == Executed(stage, result.Output?, if result.Output? then result.value else None)
    ensures r == if result.Output? then stage.(state := Success, output := result.value) else stage.(state := Failed)
  {
    r := stage;
    match result {
      case Panic => r := r.(state := Failed);
      case RunError => r := r.(state := Failed);
      case Output(out) =>
        r := r.(state := Success);
        r := r.(output := out);
    }
  }

  // ---- pkg/controller/job/job_controller.go --------------------------------------------------------

  method CompleteJob(list: seq<Stage>, job: string) returns (r: Outcome)
    ensures Completes(list, job, r)
  {
    var checkStage: seq<Stage> := [];
    for i := 0 to |list|
      invariant forall v :: v in checkStage <==> v in list[..i] && v.job == job
    {
      assert list[..i + 1] == list[..i] + [list[i]];
      if list[i].job == job { checkStage := checkStage + [list[i]]; }
    }
    assert list[..|list|] == list;
    var successCount, failedCount := 0, 0;
    for i := 0 to |checkStage|
      invariant 0 <= successCount <= i && 0 <= failedCount
      invariant successCount == i <==> forall j :: 0 <= j < i ==> checkStage[j].state == Success
      invariant failedCount > 0 <==> exists j :: 0 <= j < i && checkStage[j].state == Failed
    {
      if checkStage[i].state == Success { successCount := successCount + 1; }
      if checkStage[i].state == Failed { failedCount := failedCount + 1; }
    }
    r := Unchanged;
    if |checkStage| > 0 {
      assert checkStage[0] in checkStage;
      if |checkStage| == successCount { r := JobSuccess; }
      if failedCount > 0 { r := JobFailed; }
    }
    Tallied(list, job, checkStage);
  }

  lemma Tallied(list: seq<Stage>, job: string, check: seq<Stage>)
    requires forall v :: v in check <==> v in list && v.job == job
    ensures (forall j :: 0 <= j < |check| ==> check[j].state == Success) <==>
        forall v :: v in list && v.job == job ==> v.state == Success
    ensures (exists j :: 0 <= j < |check| && check[j].state == Failed) <==>
        exists v :: v in list && v.job == job && v.state == Failed
    ensures SomeOf(list, job) <==> check != []
  {
    if forall j :: 0 <= j < |check| ==> check[j].state == Success {
      forall v | v in list && v.job == job ensures v.state == Success { assert v in check; }
    }
    if j :| 0 <= j < |check| && check[j].state == Failed { assert check[j] in check; }
    if v :| v in list && v.job == job && v.state == Failed { assert v in check; }
    if v :| v in list && v.job == job { assert v in check; }
    if check != [] { assert check[0] in check; }
  }
}
