/**
 Validation of an investigation task graph: unique ids, no dangling dependency, no cycle
 (a three-colour depth-first search) and a bound on the longest dependency chain.
 */
module TaskGraph {
  import opened Common

  type TaskId = string
  datatype Task = Task(id: TaskId, dependsOn: seq<TaskId>)
  type Graph = map<TaskId, seq<TaskId>>
  datatype Color = White | Grey | Black

  datatype GraphError =
    | DuplicateTaskId(taskId: TaskId, count: nat)
    | DanglingDependency(taskId: TaskId, missingId: TaskId)
    | CycleFound(cycle: seq<TaskId>)
    | DepthExceeded(maxDepth: int, actualDepth: nat, taskId: TaskId)

  function Ids(tasks: seq<Task>): (ids: seq<TaskId>)
    ensures |ids| == |tasks| && forall i :: 0 <= i < |tasks| ==> ids[i] == tasks[i].id
  {
    seq(|tasks|, i requires 0 <= i < |tasks| => tasks[i].id)
  }

  /** The dictionary from task id to dependencies; a later task wins over an earlier one. */
  function GraphOf(tasks: seq<Task>): Graph {
    if tasks == [] then map[]
    else GraphOf(tasks[..|tasks|-1])[tasks[|tasks|-1].id := tasks[|tasks|-1].dependsOn]
  }

  // ---- What the four checks mean ----

  ghost predicate UniqueIds(tasks: seq<Task>) {
    Distinct(Ids(tasks))
  }

  ghost predicate Closed(g: Graph) {
    forall n, d :: n in g && d in g[n] ==> d in g
  }

  ghost predicate Edge(g: Graph, a: TaskId, b: TaskId) {
    a in g && b in g && b in g[a]
  }

  /** A chain of tasks in which every task depends on the next one. */
  ghost predicate Walk(g: Graph, p: seq<TaskId>) {
    && |p| > 0
    && (forall i :: 0 <= i < |p| ==> p[i] in g)
    && (forall i, j :: 0 <= i < |p| && j == i + 1 < |p| ==> Edge(g, p[i], p[j]))
  }

  ghost predicate ClosedWalk(g: Graph, p: seq<TaskId>) {
    |p| >= 2 && Walk(g, p) && p[0] == p[|p|-1]
  }

  ghost predicate Acyclic(g: Graph) {
    forall p :: !ClosedWalk(g, p)
  }

  ghost predicate DepthWithin(g: Graph, maxDepth: int) {
    forall p :: Walk(g, p) ==> |p| <= maxDepth
  }

  /** The longest chain that starts at `n` has exactly `depth` tasks. */
  ghost predicate LongestChain(g: Graph, n: TaskId, depth: nat) {
    && (exists p :: Walk(g, p) && p[0] == n && |p| == depth)
    && (forall p :: Walk(g, p) && p[0] == n ==> |p| <= depth)
  }

  /** Every task occurs once, after all of its dependencies. */
  ghost predicate Topological(g: Graph, order: seq<TaskId>) {
    && Distinct(order)
    && (forall n :: n in order <==> n in g)
    && DependenciesFirst(g, order)
  }

  ghost predicate DependenciesFirst(g: Graph, order: seq<TaskId>) {
    forall i, d :: 0 <= i < |order| && Edge(g, order[i], d) ==> d in order[..i]
  }

  // ---- Topological orders exclude cycles ----

  lemma EdgeDescends(g: Graph, order: seq<TaskId>, a: TaskId, b: TaskId)
    requires Topological(g, order) && Edge(g, a, b)
    ensures IndexOf(order, b) < IndexOf(order, a)
  {
  }

  lemma {:induction false} WalkDescends(g: Graph, order: seq<TaskId>, p: seq<TaskId>)
    requires Topological(g, order) && Walk(g, p) && |p| >= 2
    ensures IndexOf(order, p[|p|-1]) < IndexOf(order, p[0])
  {
    EdgeDescends(g, order, p[|p|-2], p[|p|-1]);
    if |p| > 2 {
      WalkDescends(g, order, p[..|p|-1]);
    }
  }

  lemma TopologicalIsAcyclic(g: Graph, order: seq<TaskId>)
    requires Topological(g, order)
    ensures Acyclic(g)
  {
    forall p ensures !ClosedWalk(g, p) {
      if ClosedWalk(g, p) {
        WalkDescends(g, order, p);
      }
    }
  }

  // ---- Depth-first search with a grey path ----

  class CycleSearch {
    const graph: Graph
    var color: map<TaskId, Color>
    var cyclePath: seq<TaskId>
    ghost var finished: seq<TaskId>  // the black tasks, in the order they were finished

    ghost predicate Valid()
      reads this
    {
      && color.Keys == graph.Keys
      && Distinct(cyclePath)
      && (forall n :: n in cyclePath <==> n in graph && color[n] == Grey)
      && (forall i, j :: 0 <= i < |cyclePath| && j == i + 1 < |cyclePath| ==> Edge(graph, cyclePath[i], cyclePath[j]))
      && Distinct(finished)
      && (forall n :: n in finished <==> n in graph && color[n] == Black)
      && DependenciesFirst(graph, finished)
    }

    ghost function Whites(): set<TaskId>
      reads this
    {
      set n | n in color && color[n] == White
    }

    constructor (graph: Graph)
      ensures Valid() && this.graph == graph && cyclePath == [] && Whites() == graph.Keys
    {
      this.graph := graph;
      color := map n | n in graph :: White;
      cyclePath := [];
      finished := [];
    }

    /** Colours `node` grey and pushes it on the path. */
    method Enter(node: TaskId)
      requires Valid() && node in graph && color[node] == White
      requires cyclePath != [] ==> Edge(graph, cyclePath[|cyclePath|-1], node)
      modifies this
      ensures Valid() && cyclePath == old(cyclePath) + [node] && finished == old(finished)
      ensures Whites() == old(Whites()) - {node}
    {
      color := color[node := Grey];
      cyclePath := cyclePath + [node];
    }

    /** Pops `node` and colours it black; its dependencies must be black already. */
    method Leave(node: TaskId)
      requires Valid() && cyclePath != [] && cyclePath[|cyclePath|-1] == node
      requires forall d :: Edge(graph, node, d) ==> color[d] == Black
      modifies this
      ensures Valid() && cyclePath == old(cyclePath)[..|old(cyclePath)|-1] && finished == old(finished) + [node]
      ensures color[node] == Black && Whites() == old(Whites())
    {
      assert cyclePath == cyclePath[..|cyclePath|-1] + [node];
      cyclePath := cyclePath[..|cyclePath|-1];
      color := color[node := Black];
      finished := finished + [node];
    }

    /** A grey dependency of the top of the path closes a walk. */
    lemma GreyDependencyClosesWalk(dep: TaskId)
      requires Valid() && cyclePath != [] && dep in cyclePath && Edge(graph, cyclePath[|cyclePath|-1], dep)
      ensures ClosedWalk(graph, (cyclePath + [dep])[IndexOf(cyclePath, dep)..])
    {
    }

    /** Returns the cycle that the original raises, or None once `node` is finished. */
    method Dfs(node: TaskId) returns (cycle: Option<seq<TaskId>>)
      requires Valid() && node in graph && color[node] == White
      requires cyclePath != [] ==> Edge(graph, cyclePath[|cyclePath|-1], node)
      modifies this
      ensures cycle.None? ==> Valid() && cyclePath == old(cyclePath) && node in finished
      ensures cycle.None? ==> Whites() < old(Whites()) && old(finished) <= finished
      ensures cycle.Some? ==> ClosedWalk(graph, cycle.value)
      decreases Whites(), 0
    {
      assert node in Whites();
      Enter(node);
      var deps := graph[node];
      for i := 0 to |deps|
        invariant Valid() && cyclePath == old(cyclePath) + [node]
        invariant forall k :: 0 <= k < i && deps[k] in graph ==> deps[k] in finished
        invariant Whites() < old(Whites()) && old(finished) <= finished
      {
        var found := Follow(node, deps[i]);
        if found.Some? {
          return found;
        }
      }
      Leave(node);
      return None;
    }

    /** One iteration of the loop over the dependencies of `node`. */
    method Follow(node: TaskId, dep: TaskId) returns (cycle: Option<seq<TaskId>>)
      requires Valid() && cyclePath != [] && cyclePath[|cyclePath|-1] == node
      requires node in graph && dep in graph[node]
      modifies this
      ensures cycle.None? ==> Valid() && cyclePath == old(cyclePath) && (dep in graph ==> dep in finished)
      ensures cycle.None? ==> Whites() <= old(Whites()) && old(finished) <= finished
      ensures cycle.Some? ==> ClosedWalk(graph, cycle.value)
      decreases Whites(), 1
    {
      if dep !in graph {
        return None;
      }
      if color[dep] == Grey {
        GreyDependencyClosesWalk(dep);
        var start := IndexOf(cyclePath, dep);
        cyclePath := cyclePath + [dep];
        return Some(cyclePath[start..]);
      }
      if color[dep] == White {
        cycle := Dfs(dep);
      } else {
        cycle := None;
      }
    }

    /** Runs the search from every white task, in any order. */
    method Search() returns (cycle: Option<seq<TaskId>>)
      requires Valid() && cyclePath == []
      modifies this
      ensures cycle.Some? ==> ClosedWalk(graph, cycle.value)
      ensures cycle.None? ==> Topological(graph, finished)
    {
      hide DependenciesFirst, Distinct, ClosedWalk, Edge;
      var remaining := graph.Keys;
      while remaining != {}
        invariant Valid() && cyclePath == [] && remaining <= graph.Keys
        invariant forall n :: n in graph && n !in remaining ==> color[n] != White
        decreases remaining
      {
        var tid :| tid in remaining;
        remaining := remaining - {tid};
        if color[tid] == White {
          ghost var before := Whites();
          var found := Dfs(tid);
          if found.Some? {
            return found;
          }
          forall n | n in graph && n !in remaining ensures color[n] != White {
            assert n !in before || n == tid;
            assert n in Whites() ==> n in before;
          }
        }
      }
      return None;
    }
  }

  // ---- Longest dependency chain ----

  function LongestDepth(g: Graph, node: TaskId, visited: set<TaskId>): (depth: nat)
    requires Closed(g) && node in g
    decreases g.Keys - visited, node in visited, |g[node]| + 1
  {
    if g[node] == [] then 1 else MaxChild(g, node, g[node], visited) + 1
  }

  /** The loop over the dependencies: the running maximum after looking at `deps`. */
  function MaxChild(g: Graph, node: TaskId, deps: seq<TaskId>, visited: set<TaskId>): (depth: nat)
    requires Closed(g) && node in g && forall d :: d in deps ==> d in g
    decreases g.Keys - visited, node in visited, |deps|
  {
    if deps == [] then 0 else
      var dep := deps[|deps|-1];
      var sofar := MaxChild(g, node, deps[..|deps|-1], visited);
      if dep in visited then sofar else
        assert node in visited ==> visited + {node} == visited;
        var child := LongestDepth(g, dep, visited + {node});
        if child > sofar then child else sofar
  }

  ghost function Depth(g: Graph, n: TaskId): nat
    requires Closed(g) && n in g
  {
    LongestDepth(g, n, {})
  }

  /** On an acyclic graph the `visited` test never fires: the ancestors are irrelevant. */
  lemma {:induction false} VisitedNeverFires(g: Graph, order: seq<TaskId>, node: TaskId, visited: set<TaskId>)
    requires Closed(g) && Topological(g, order) && node in g
    requires forall v :: v in visited ==> v in g && IndexOf(order, node) < IndexOf(order, v)
    ensures LongestDepth(g, node, visited) == Depth(g, node)
    decreases IndexOf(order, node), |g[node]| + 1
  {
    if g[node] != [] {
      MaxChildIgnoresVisited(g, order, node, g[node], visited);
    }
  }

  lemma {:induction false} MaxChildIgnoresVisited(g: Graph, order: seq<TaskId>, node: TaskId, deps: seq<TaskId>,
                                                  visited: set<TaskId>)
    requires Closed(g) && Topological(g, order) && node in g
    requires forall d :: d in deps ==> d in g[node]
    requires forall v :: v in visited ==> v in g && IndexOf(order, node) < IndexOf(order, v)
    ensures MaxChild(g, node, deps, visited) == MaxChild(g, node, deps, {})
    ensures forall d :: d in deps ==> Depth(g, d) <= MaxChild(g, node, deps, {})
    ensures deps != [] ==> exists d :: d in deps && Depth(g, d) == MaxChild(g, node, deps, {})
    decreases IndexOf(order, node), |deps|
  {
    if deps != [] {
      var rest, dep := deps[..|deps|-1], deps[|deps|-1];
      assert deps == rest + [dep];
      MaxChildIgnoresVisited(g, order, node, rest, visited);
      assert Edge(g, node, dep);
      EdgeDescends(g, order, node, dep);
      VisitedNeverFires(g, order, dep, visited + {node});
      VisitedNeverFires(g, order, dep, {} + {node});
      assert Depth(g, dep) >= 1;
    }
  }

  /** The recursion equation that the scheduler relies on. */
  lemma DepthOfDependencies(g: Graph, order: seq<TaskId>, node: TaskId)
    requires Closed(g) && Topological(g, order) && node in g
    ensures forall d :: d in g[node] ==> Depth(g, d) < Depth(g, node)
    ensures g[node] == [] ==> Depth(g, node) == 1
    ensures g[node] != [] ==> exists d :: d in g[node] && Depth(g, node) == Depth(g, d) + 1
  {
    MaxChildIgnoresVisited(g, order, node, g[node], {});
  }

  lemma {:induction false} WalkAtMostDepth(g: Graph, order: seq<TaskId>, p: seq<TaskId>)
    requires Closed(g) && Topological(g, order) && Walk(g, p)
    ensures |p| <= Depth(g, p[0])
  {
    DepthOfDependencies(g, order, p[0]);
    if |p| > 1 {
      assert Edge(g, p[0], p[1]);
      WalkAtMostDepth(g, order, p[1..]);
    }
  }

  lemma {:induction false} WalkOfDepth(g: Graph, order: seq<TaskId>, n: TaskId) returns (p: seq<TaskId>)
    requires Closed(g) && Topological(g, order) && n in g
    ensures Walk(g, p) && p[0] == n && |p| == Depth(g, n)
    decreases IndexOf(order, n)
  {
    DepthOfDependencies(g, order, n);
    if g[n] == [] {
      p := [n];
    } else {
      var d :| d in g[n] && Depth(g, n) == Depth(g, d) + 1;
      assert Edge(g, n, d);
      EdgeDescends(g, order, n, d);
      var q := WalkOfDepth(g, order, d);
      p := [n] + q;
    }
  }

  /** `longest_depth` computes the length of the longest chain from its task. */
  lemma LongestDepthIsLongestChain(g: Graph, order: seq<TaskId>, n: TaskId)
    requires Closed(g) && Topological(g, order) && n in g
    ensures LongestChain(g, n, LongestDepth(g, n, {}))
  {
    var p := WalkOfDepth(g, order, n);
    forall q | Walk(g, q) && q[0] == n ensures |q| <= Depth(g, n) {
      WalkAtMostDepth(g, order, q);
    }
  }

  // ---- The task dictionary ----

  lemma {:induction false} GraphEntries(tasks: seq<Task>)
    requires UniqueIds(tasks)
    ensures forall t :: t in tasks ==> t.id in GraphOf(tasks) && GraphOf(tasks)[t.id] == t.dependsOn
    ensures forall n :: n in GraphOf(tasks) ==> Task(n, GraphOf(tasks)[n]) in tasks
  {
    if tasks != [] {
      var init, last := tasks[..|tasks|-1], tasks[|tasks|-1];
      assert tasks == init + [last];
      assert forall i :: 0 <= i < |init| ==> Ids(init)[i] == Ids(tasks)[i];
      GraphEntries(init);
      forall t | t in init ensures t.id != last.id {
        var i :| 0 <= i < |init| && init[i] == t;
        assert Ids(tasks)[i] == t.id && Ids(tasks)[|tasks|-1] == last.id;
      }
      assert last == Task(last.id, last.dependsOn);
    }
  }

  // ---- The four checks in order ----

  method CheckUnique(ids: seq<TaskId>) returns (err: Option<GraphError>)
    ensures err.None? <==> Distinct(ids)
    ensures err.Some? ==> err.value.DuplicateTaskId? && err.value.count == multiset(ids)[err.value.taskId] >= 2
  {
    var allIds: set<TaskId> := {};
    for i := 0 to |ids|
      invariant allIds == set k | 0 <= k < i :: ids[k]
      invariant Distinct(ids[..i])
    {
      if ids[i] in allIds {
        var j :| 0 <= j < i && ids[j] == ids[i];
        assert ids == ids[..j] + [ids[j]] + ids[j+1..i] + [ids[i]] + ids[i+1..];
        return Some(DuplicateTaskId(ids[i], multiset(ids)[ids[i]]));
      }
      allIds := allIds + {ids[i]};
      assert ids[..i+1] == ids[..i] + [ids[i]];
    }
    assert ids[..|ids|] == ids;
    return None;
  }

  method CheckDangling(tasks: seq<Task>, g: Graph) returns (err: Option<GraphError>)
    ensures err.None? <==> forall t, d :: t in tasks && d in t.dependsOn ==> d in g
    ensures err.Some? ==> err.value.DanglingDependency? && err.value.missingId !in g
    ensures err.Some? ==> exists t :: t in tasks && t.id == err.value.taskId && err.value.missingId in t.dependsOn
  {
    for i := 0 to |tasks|
      invariant forall k, d :: 0 <= k < i && d in tasks[k].dependsOn ==> d in g
    {
      var deps := tasks[i].dependsOn;
      for j := 0 to |deps|
        invariant forall k :: 0 <= k < j ==> deps[k] in g
      {
        if deps[j] !in g {
          assert tasks[i] in tasks;
          return Some(DanglingDependency(tasks[i].id, deps[j]));
        }
      }
    }
    return None;
  }

  /** Reports some task whose longest chain is too long, if there is one. */
  method CheckDepth(g: Graph, maxDepth: int, ghost order: seq<TaskId>) returns (err: Option<GraphError>)
    requires Closed(g) && Topological(g, order)
    ensures err.None? <==> DepthWithin(g, maxDepth)
    ensures err.Some? ==> err.value.DepthExceeded? && err.value.maxDepth == maxDepth < err.value.actualDepth
    ensures err.Some? ==> err.value.taskId in g && LongestChain(g, err.value.taskId, err.value.actualDepth)
  {
    var remaining := g.Keys;
    while remaining != {}
      invariant remaining <= g.Keys
      invariant forall n :: n in g && n !in remaining ==> Depth(g, n) <= maxDepth
      decreases remaining
    {
      var tid :| tid in remaining;
      remaining := remaining - {tid};
      var depth := LongestDepth(g, tid, {});
      if depth > maxDepth {
        LongestDepthIsLongestChain(g, order, tid);
        return Some(DepthExceeded(maxDepth, depth, tid));
      }
    }
    forall p | Walk(g, p) ensures |p| <= maxDepth {
      WalkAtMostDepth(g, order, p);
    }
    return None;
  }

  /** The first failing check wins, so the outcomes below are mutually exclusive equivalences. */
  method ValidateTaskGraph(tasks: seq<Task>, maxDepth: int) returns (err: Option<GraphError>, ghost order: seq<TaskId>)
    ensures err.None? ==> Topological(GraphOf(tasks), order)
    ensures var g := GraphOf(tasks);
      err.None? <==> UniqueIds(tasks) && Closed(g) && Acyclic(g) && DepthWithin(g, maxDepth)
    ensures var g := GraphOf(tasks);
      match err
      case None => true
      case Some(DuplicateTaskId(id, count)) =>
        !UniqueIds(tasks) && count == multiset(Ids(tasks))[id] >= 2
      case Some(DanglingDependency(id, missing)) =>
        UniqueIds(tasks) && id in g && missing in g[id] && missing !in g
      case Some(CycleFound(cycle)) =>
        UniqueIds(tasks) && Closed(g) && ClosedWalk(g, cycle)
      case Some(DepthExceeded(bound, actual, id)) =>
        && UniqueIds(tasks) && Closed(g) && Acyclic(g)
        && bound == maxDepth < actual && LongestChain(g, id, actual)
  {
    order := [];
    err := CheckUnique(Ids(tasks));
    if err.Some? {
      return;
    }
    var g := GraphOf(tasks);
    GraphEntries(tasks);
    err := CheckDangling(tasks, g);
    if err.Some? {
      return;
    }
    assert Closed(g) by {
      forall n, d | n in g && d in g[n] ensures d in g {
        assert Task(n, g[n]) in tasks;
      }
    }
    var search := new CycleSearch(g);
    var cycle := search.Search();
    if cycle.Some? {
      err := Some(CycleFound(cycle.value));
      return;
    }
    order := search.finished;
    TopologicalIsAcyclic(g, order);
    err := CheckDepth(g, maxDepth, order);
  }
}
