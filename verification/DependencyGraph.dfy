/** Cycles among task dependencies, and the depth-first search that looks for them. */
module DependencyGraph {
  import opened Prelude
  import opened BoardModel

  /** Each vertex of `p` depends on the next one. */
  ghost predicate Walk(edges: seq<Edge>, p: seq<TaskId>) {
    forall i :: 0 <= i < |p| - 1 ==> Edge(p[i], p[i + 1]) in edges
  }

  ghost predicate Cyclic(edges: seq<Edge>) {
    exists p :: |p| >= 2 && p[0] == p[|p| - 1] && Walk(edges, p)
  }

  /** A certificate of acyclicity: every listed task depends only on tasks listed before it. */
  ghost predicate Topological(edges: seq<Edge>, order: seq<TaskId>) {
    Distinct(order) &&
    forall i, d :: 0 <= i < |order| && Edge(order[i], d) in edges ==> d in order[..i]
  }

  lemma {:induction false} WalkDescends(edges: seq<Edge>, order: seq<TaskId>, p: seq<TaskId>, i: nat)
    requires Topological(edges, order) && Walk(edges, p) && |p| >= 2
    requires i < |order| && p[0] == order[i]
    ensures p[|p| - 1] in order[..i]
    decreases |p|
  {
    assert Edge(p[0], p[1]) in edges;
    var j :| 0 <= j < i && order[j] == p[1];
    if |p| > 2 {
      var q := p[1..];
      assert Walk(edges, q) by {
        forall k | 0 <= k < |q| - 1 ensures Edge(q[k], q[k + 1]) in edges {
          assert Edge(p[k + 1], p[k + 1 + 1]) in edges;
        }
      }
      WalkDescends(edges, order, q, j);
    }
  }

  /** A topological order of all the tasks that are depended on rules out every cycle. */
  lemma TopologicalMeansAcyclic(edges: seq<Edge>, order: seq<TaskId>)
    requires Topological(edges, order)
    requires forall e :: e in edges ==> e.dependsOn in order
    ensures !Cyclic(edges)
  {
    if Cyclic(edges) {
      var p :| |p| >= 2 && p[0] == p[|p| - 1] && Walk(edges, p);
      assert Edge(p[|p| - 2], p[|p| - 2 + 1]) in edges;
      var i :| 0 <= i < |order| && order[i] == p[0];
      WalkDescends(edges, order, p, i);
    }
  }

  /** Dropping edges cannot create a cycle. */
  lemma FewerEdgesAcyclic(edges: seq<Edge>, fewer: seq<Edge>)
    requires !Cyclic(edges)
    requires forall e :: e in fewer ==> e in edges
    ensures !Cyclic(fewer)
  {
    assert forall p :: Walk(fewer, p) ==> Walk(edges, p);
  }

  lemma TopologicalAppend(edges: seq<Edge>, order: seq<TaskId>, t: TaskId)
    requires Topological(edges, order) && t !in order
    requires forall d :: Edge(t, d) in edges ==> d in order
    ensures Topological(edges, order + [t])
  {
    var longer := order + [t];
    forall i, d | 0 <= i < |longer| && Edge(longer[i], d) in edges
      ensures d in longer[..i]
    {
      if i < |order| {
        assert longer[..i] == order[..i];
      } else {
        assert longer[..i] == order;
      }
    }
  }

  lemma WalkAppend(edges: seq<Edge>, p: seq<TaskId>, t: TaskId)
    requires Walk(edges, p) && (p != [] ==> Edge(p[|p| - 1], t) in edges)
    ensures Walk(edges, p + [t])
  {
    var q := p + [t];
    forall i | 0 <= i < |q| - 1 ensures Edge(q[i], q[i + 1]) in edges {
      if i < |p| - 1 {
        assert q[i] == p[i] && q[i + 1] == p[i + 1];
      }
    }
  }

  /** Meeting a vertex of the current path again closes a cycle. */
  lemma BackEdgeClosesCycle(edges: seq<Edge>, p: seq<TaskId>, t: TaskId)
    requires Walk(edges, p) && t in p && Edge(p[|p| - 1], t) in edges
    ensures Cyclic(edges)
  {
    var i :| 0 <= i < |p| && p[i] == t;
    var tail := p[i..];
    assert Walk(edges, tail) by {
      forall k | 0 <= k < |tail| - 1 ensures Edge(tail[k], tail[k + 1]) in edges {
        assert Edge(p[i + k], p[i + k + 1]) in edges;
      }
    }
    WalkAppend(edges, tail, t);
    var cycle := tail + [t];
    assert |cycle| >= 2 && cycle[0] == cycle[|cycle| - 1] && Walk(edges, cycle);
  }

  /** The working state of one search: the visited set and the stack of vertices being explored. */
  class CycleSearch {
    const edges: seq<Edge>
    ghost const nodes: set<TaskId>
    var visited: set<TaskId>
    var inStack: set<TaskId>
    ghost var path: seq<TaskId>
    ghost var order: seq<TaskId>

    ghost predicate Valid()
      reads this
    {
      Topological(edges, order) && Walk(edges, path) &&
      (forall t :: t in inStack <==> t in path) &&
      (forall t :: t in visited <==> t in path || t in order) &&
      (forall t :: t in path ==> t !in order) &&
      visited <= nodes &&
      forall e :: e in edges ==> e.dependsOn in nodes
    }

    constructor (edges: seq<Edge>, ghost nodes: set<TaskId>)
      requires forall e :: e in edges ==> e.dependsOn in nodes
      ensures Valid() && this.edges == edges && this.nodes == nodes && path == []
    {
      this.edges, this.nodes := edges, nodes;
      visited, inStack, path, order := {}, {}, [], [];
    }

    ghost predicate Returned(oldPath: seq<TaskId>, oldVisited: set<TaskId>, oldOrder: seq<TaskId>)
      reads this
    {
      Valid() && path == oldPath && oldVisited <= visited && forall t :: t in oldOrder ==> t in order
    }

    method Visit(current: TaskId) returns (found: bool)
      requires Valid() && current in nodes
      requires path != [] ==> Edge(path[|path| - 1], current) in edges
      modifies this
      ensures found ==> Cyclic(edges)
      ensures !found ==> Returned(old(path), old(visited), old(order)) && current in order
      decreases nodes - visited, 0
    {
      if current in inStack {
        BackEdgeClosesCycle(edges, path, current);
        return true;
      }
      if current in visited {
        return false;
      }
      visited := visited + {current};
      inStack := inStack + {current};
      WalkAppend(edges, path, current);
      path := path + [current];
      var targets := set e | e in edges && e.task == current :: e.dependsOn;
      assert forall d :: Edge(current, d) in edges <==> d in targets;
      found := VisitAll(current, targets);
      if !found {
        inStack := inStack - {current};
        path := path[..|path| - 1];
        TopologicalAppend(edges, order, current);
        order := order + [current];
      }
    }

    method VisitAll(current: TaskId, targets: set<TaskId>) returns (found: bool)
      requires Valid() && path != [] && path[|path| - 1] == current
      requires forall d :: d in targets ==> Edge(current, d) in edges
      modifies this
      ensures found ==> Cyclic(edges)
      ensures !found ==> Returned(old(path), old(visited), old(order)) && forall d :: d in targets ==> d in order
      decreases nodes - visited, 1
    {
      var rest := targets;
      while rest != {}
        invariant Returned(old(path), old(visited), old(order))
        invariant rest <= targets
        invariant forall d :: d in targets && d !in rest ==> d in order
        decreases rest
      {
        var next :| next in rest;
        found := Visit(next);
        if found {
          return;
        }
        rest := rest - {next};
      }
      return false;
    }
  }

  /** The search reports a cycle exactly when there is one. */
  method HasCycle(nodes: set<TaskId>, edges: seq<Edge>) returns (found: bool)
    requires forall e :: e in edges ==> e.dependsOn in nodes
    ensures found <==> Cyclic(edges)
  {
    var search := new CycleSearch(edges, nodes);
    var rest := nodes;
    while rest != {}
      invariant search.Valid() && search.path == [] && search.edges == edges && search.nodes == nodes
      invariant rest <= nodes
      invariant forall t :: t in nodes && t !in rest ==> t in search.order
      invariant fresh(search)
      decreases rest
    {
      var start :| start in rest;
      var hit := search.Visit(start);
      if hit {
        return true;
      }
      rest := rest - {start};
    }
    TopologicalMeansAcyclic(edges, search.order);
    return false;
  }
}
