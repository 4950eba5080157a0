/** The directed graph that the dag library keeps: AddEdge refuses unknown ids, self edges, repeated edges
    and edges that would close a cycle. */
module Graphs {
  import opened Common

  type Edge = (string, string)

  datatype Graph = Graph(vertices: set<string>, edges: set<Edge>)

  ghost predicate Walk(edges: set<Edge>, p: seq<string>) {
    |p| >= 2 && forall i :: 0 <= i < |p| - 1 ==> (p[i], p[i + 1]) in edges
  }

  ghost predicate Reaches(edges: set<Edge>, u: string, v: string) {
    exists p :: Walk(edges, p) && p[0] == u && p[|p| - 1] == v
  }

  ghost predicate Acyclic(edges: set<Edge>) {
    forall x :: !Reaches(edges, x, x)
  }

  ghost predicate Inside(g: Graph) {
    forall e :: e in g.edges ==> e.0 in g.vertices && e.1 in g.vertices
  }

  // ---- Reachability --------------------------------------------------------------------------------

  lemma EdgeReaches(edges: set<Edge>, u: string, v: string)
    requires (u, v) in edges
    ensures Reaches(edges, u, v)
  {
    assert Walk(edges, [u, v]);
  }

  lemma WalkReaches(edges: set<Edge>, p: seq<string>, u: string, v: string)
    requires Walk(edges, p) && p[0] == u && p[|p| - 1] == v
    ensures Reaches(edges, u, v)
  {
  }

  lemma ReachesTrans(edges: set<Edge>, u: string, v: string, w: string)
    requires Reaches(edges, u, v) && Reaches(edges, v, w)
    ensures Reaches(edges, u, w)
  {
    var p :| Walk(edges, p) && p[0] == u && p[|p| - 1] == v;
    var q :| Walk(edges, q) && q[0] == v && q[|q| - 1] == w;
    var r := p[..|p| - 1] + q;
    assert Walk(edges, r) by {
      forall i | 0 <= i < |r| - 1 ensures (r[i], r[i + 1]) in edges {
        if i < |p| - 1 {
          assert r[i] == p[i] && r[i + 1] == p[i + 1];
        } else {
          var j := i - (|p| - 1);
          assert r[i] == q[j] && r[i + 1] == q[j + 1];
        }
      }
    }
    WalkReaches(edges, r, u, w);
  }

  lemma FirstStep(edges: set<Edge>, u: string, v: string) returns (w: string)
    requires Reaches(edges, u, v)
    ensures (u, w) in edges && (w == v || Reaches(edges, w, v))
  {
    var p :| Walk(edges, p) && p[0] == u && p[|p| - 1] == v;
    w := p[1];
    assert (p[0], p[0 + 1]) in edges;
    if |p| > 2 {
      Shorter(edges, p, 1, |p|);
      WalkReaches(edges, p[1..], w, v);
    }
  }

  lemma LastStep(edges: set<Edge>, u: string, v: string) returns (w: string)
    requires Reaches(edges, u, v)
    ensures (w, v) in edges && (w == u || Reaches(edges, u, w))
  {
    var p :| Walk(edges, p) && p[0] == u && p[|p| - 1] == v;
    var n := |p| - 2;
    w := p[n];
    assert (p[n], p[n + 1]) in edges;
    if |p| > 2 {
      Shorter(edges, p, 0, |p| - 1);
      WalkReaches(edges, p[0..|p| - 1], u, w);
    }
  }

  lemma Shorter(edges: set<Edge>, p: seq<string>, lo: nat, hi: nat)
    requires Walk(edges, p) && lo + 2 <= hi <= |p|
    ensures Walk(edges, p[lo..hi])
  {
  }

  lemma ReachesMore(edges: set<Edge>, more: set<Edge>, u: string, v: string)
    requires edges <= more && Reaches(edges, u, v)
    ensures Reaches(more, u, v)
  {
  }

  lemma AcyclicLess(edges: set<Edge>, more: set<Edge>)
    requires edges <= more && Acyclic(more)
    ensures Acyclic(edges)
  {
    forall x ensures !Reaches(edges, x, x) {
      if Reaches(edges, x, x) { ReachesMore(edges, more, x, x); }
    }
  }

  /** A reach that uses the new edge passes through it. */
  lemma {:induction false} ReachWithEdge(edges: set<Edge>, u: string, v: string, p: seq<string>)
    requires Walk(edges + {(u, v)}, p)
    ensures var a, b := p[0], p[|p| - 1];
            || Reaches(edges, a, b)
            || ((a == u || Reaches(edges, a, u)) && (v == b || Reaches(edges, v, b)))
    decreases |p|
  {
    var n := |p| - 2;
    var b := p[n + 1];
    assert (p[n], p[n + 1]) in edges + {(u, v)};
    if (p[n], b) in edges { EdgeReaches(edges, p[n], b); }
    if n > 0 {
      Shorter(edges + {(u, v)}, p, 0, n + 1);
      ReachWithEdge(edges, u, v, p[0..n + 1]);
      assert p[0..n + 1][n] == p[n];
      if (p[n], b) in edges {
        if Reaches(edges, p[0], p[n]) { ReachesTrans(edges, p[0], p[n], b); }
        if Reaches(edges, v, p[n]) { ReachesTrans(edges, v, p[n], b); }
      }
    }
  }

  lemma AcyclicWithEdge(edges: set<Edge>, u: string, v: string)
    requires Acyclic(edges)
    ensures Acyclic(edges + {(u, v)}) <==> u != v && !Reaches(edges, v, u)
  {
    var more := edges + {(u, v)};
    EdgeReaches(more, u, v);
    if Reaches(edges, v, u) {
      ReachesMore(edges, more, v, u);
      ReachesTrans(more, u, v, u);
    }
    if u != v && !Reaches(edges, v, u) {
      forall x ensures !Reaches(more, x, x) {
        if Reaches(more, x, x) {
          var p :| Walk(more, p) && p[0] == x && p[|p| - 1] == x;
          ReachWithEdge(edges, u, v, p);
          if v != x && x != u { ReachesTrans(edges, v, x, u); }
          assert false;
        }
      }
    }
  }

  // ---- Minimal elements ----------------------------------------------------------------------------

  ghost function Ancestors(g: Graph, v: string): set<string> {
    set u | u in g.vertices && Reaches(g.edges, u, v)
  }

  /** A parent has strictly fewer ancestors. */
  lemma FewerAncestors(g: Graph, u: string, v: string)
    requires Inside(g) && Acyclic(g.edges) && (u, v) in g.edges
    ensures |Ancestors(g, u)| < |Ancestors(g, v)|
  {
    EdgeReaches(g.edges, u, v);
    forall x | x in Ancestors(g, u) ensures x in Ancestors(g, v) { ReachesTrans(g.edges, x, u, v); }
    assert u in Ancestors(g, v) && u !in Ancestors(g, u);
    FewerCount(Ancestors(g, u), Ancestors(g, v), u);
  }

  lemma {:induction false} FewerCount(a: set<string>, b: set<string>, x: string)
    requires a <= b && x in b && x !in a
    ensures |a| < |b|
    decreases |a|
  {
    if a != {} {
      var y :| y in a;
      FewerCount(a - {y}, b - {y}, x);
    }
  }

  /** In an acyclic graph every nonempty set of vertices has a member with no parent in the set. */
  lemma {:induction false} FirstOf(g: Graph, s: set<string>, x: string) returns (m: string)
    requires Inside(g) && Acyclic(g.edges) && x in s && s <= g.vertices
    ensures m in s && forall u :: u in s ==> (u, m) !in g.edges
    decreases |Ancestors(g, x)|
  {
    if u :| u in s && (u, x) in g.edges {
      FewerAncestors(g, u, x);
      m := FirstOf(g, s, u);
    } else {
      m := x;
    }
  }

  /** And one with no child in the set. */
  lemma {:induction false} LastOf(g: Graph, s: set<string>, x: string) returns (m: string)
    requires Inside(g) && Acyclic(g.edges) && x in s && s <= g.vertices
    ensures m in s && forall u :: u in s ==> (m, u) !in g.edges
    decreases |g.vertices| - |Ancestors(g, x)|
  {
    if u :| u in s && (x, u) in g.edges {
      FewerAncestors(g, x, u);
      SubsetCount(Ancestors(g, u), g.vertices);
      m := LastOf(g, s, u);
    } else {
      m := x;
    }
  }

  // ---- The library's operations --------------------------------------------------------------------

  method Descendants(g: Graph, v: string) returns (s: set<string>)
    requires Inside(g)
    ensures forall n :: n in s <==> Reaches(g.edges, v, n)
  {
    hide Reaches;
    s := set e | e in g.edges && e.0 == v :: e.1;
    forall n | n in s ensures Reaches(g.edges, v, n) { EdgeReaches(g.edges, v, n); }
    var next := set e | e in g.edges && e.0 in s && e.1 !in s :: e.1;
    while next != {}
      invariant next == set e | e in g.edges && e.0 in s && e.1 !in s :: e.1
      invariant s <= g.vertices
      invariant forall e :: e in g.edges && e.0 == v ==> e.1 in s
      invariant forall n :: n in s ==> Reaches(g.edges, v, n)
      decreases g.vertices - s
    {
      var n :| n in next;
      var e :| e in g.edges && e.0 in s && e.1 == n;
      assert (e.0, n) in g.edges;
      EdgeReaches(g.edges, e.0, n);
      ReachesTrans(g.edges, v, e.0, n);
      s := s + {n};
      next := set e | e in g.edges && e.0 in s && e.1 !in s :: e.1;
    }
    forall e | e in g.edges && e.0 in s ensures e.1 in s {
      assert e.1 in s || e.1 in next;
    }
    forall n | Reaches(g.edges, v, n) ensures n in s { ClosedUnderWalks(g.edges, s, v, n); }
  }

  lemma ClosedUnderWalks(edges: set<Edge>, s: set<string>, v: string, n: string)
    requires forall e :: e in edges && (e.0 == v || e.0 in s) ==> e.1 in s
    requires Reaches(edges, v, n)
    ensures n in s
  {
    var p :| Walk(edges, p) && p[0] == v && p[|p| - 1] == n;
    WalkStays(edges, s, v, p, |p| - 1);
  }

  lemma {:induction false} WalkStays(edges: set<Edge>, s: set<string>, v: string, p: seq<string>, i: nat)
    requires forall e :: e in edges && (e.0 == v || e.0 in s) ==> e.1 in s
    requires Walk(edges, p) && p[0] == v && 1 <= i < |p|
    ensures p[i] in s
  {
    if i > 1 { WalkStays(edges, s, v, p, i - 1); }
    assert (p[i - 1], p[i - 1 + 1]) in edges;
  }

  method AddEdge(g: Graph, u: string, v: string) returns (r: Option<Graph>)
    requires Inside(g)
    ensures r.None? <==> u !in g.vertices || v !in g.vertices || u == v || (u, v) in g.edges || Reaches(g.edges, v, u)
    ensures r.Some? ==> r.value == Graph(g.vertices, g.edges + {(u, v)})
  {
    if u !in g.vertices || v !in g.vertices || u == v || (u, v) in g.edges { return None; }
    var below := Descendants(g, v);
    if u in below { return None; }
    r := Some(Graph(g.vertices, g.edges + {(u, v)}));
  }

  /** Adding edges one by one succeeds if and only if all ids are known, none is repeated and the whole
      is acyclic: the order does not matter. */
  method AddEdges(g: Graph, list: seq<Edge>) returns (r: Option<Graph>)
    requires Inside(g) && Acyclic(g.edges)
    ensures r.Some? <==>
      && (forall i :: 0 <= i < |list| ==> list[i].0 in g.vertices && list[i].1 in g.vertices && list[i] !in g.edges)
      && NoDup(list) && Acyclic(g.edges + Elems(list))
    ensures r.Some? ==> r.value == Graph(g.vertices, g.edges + Elems(list))
    ensures r.Some? ==> Inside(r.value) && Acyclic(r.value.edges)
  {
    hide Acyclic, Reaches;
    var h := g;
    assert g.edges + Elems(list[..0]) == g.edges;
    for i := 0 to |list|
      invariant h == Graph(g.vertices, g.edges + Elems(list[..i])) && Inside(h) && Acyclic(h.edges)
      invariant forall j :: 0 <= j < i ==> list[j].0 in g.vertices && list[j].1 in g.vertices && list[j] !in g.edges
      invariant NoDup(list[..i])
    {
      var (u, v) := list[i];
      assert (u, v) == list[i];
      assert list[..i + 1] == list[..i] + [(u, v)];
      assert h.edges + {(u, v)} == g.edges + Elems(list[..i + 1]);
      AcyclicWithEdge(h.edges, u, v);
      var h' := AddEdge(h, u, v);
      if h'.None? {
        if Acyclic(g.edges + Elems(list)) {
          assert g.edges + Elems(list[..i + 1]) <= g.edges + Elems(list);
          AcyclicLess(g.edges + Elems(list[..i + 1]), g.edges + Elems(list));
          if (u, v) in Elems(list[..i]) {
            assert list[i] in list[..i];
          }
        }
        return None;
      }
      assert (u, v) !in list[..i];
      h := h'.value;
    }
    assert list[..|list|] == list;
    r := Some(h);
  }
}
