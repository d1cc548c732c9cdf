/** The graph projection of components/DAGVisualizer.tsx: one node per
    task, one edge per dependency whose source task exists, and the
    per-node subtask progress with its four indicator dots. Layout
    positions are not part of this model. */
module DagView {
  import opened Types
  import opened Registry

  /** A ReactFlow node without its position. */
  datatype FlowNode = FlowNode(id: string, task: Task, selected: bool)

  /** The three colours an edge is drawn in, with their CSS values. */
  datatype Colour = Emerald | Azure | Faded {
    function Css(): string {
      match this
      case Emerald => "#10b981"
      case Azure => "#3b82f6"
      case Faded => "rgba(148, 163, 184, 0.1)"
    }
  }

  /** An edge's CSS class: `animated-liquid` or the empty class. */
  datatype EdgeClass = LiquidFlow | NoClass {
    function Name(): string {
      match this
      case LiquidFlow => "animated-liquid"
      case NoClass => ""
    }
  }

  /** A ReactFlow edge: its id, endpoints, the `animated` flag, the CSS
      class, the arrow-head colour and the stroke colour. */
  datatype FlowEdge = FlowEdge(id: string, source: string, target: string, animated: bool,
                               className: EdgeClass, marker: Colour, stroke: Colour)

  /** `tasks.map(task => ({ id: task.id, data: { task }, selected: ... }))` (lines 107-110) */
  function Nodes(tasks: seq<Task>, selectedIds: seq<string>): (r: seq<FlowNode>)
    ensures |r| == |tasks|
    ensures forall i :: 0 <= i < |tasks| ==>
      r[i].id == tasks[i].id && r[i].task == tasks[i] && (r[i].selected <==> tasks[i].id in selectedIds)
  {
    if tasks == [] then []
    else [FlowNode(tasks[0].id, tasks[0], tasks[0].id in selectedIds)] + Nodes(tasks[1..], selectedIds)
  }

  /** Position `i` holds the first task with that id. */
  predicate FirstWithId(tasks: seq<Task>, id: string, i: int) {
    0 <= i < |tasks| && tasks[i].id == id && forall j :: 0 <= j < i ==> tasks[j].id != id
  }

  /** `tasks.find(t => t.id === id)`: the first task with that id. */
  function Find(tasks: seq<Task>, id: string): (r: Option<Task>)
    ensures r.Some? ==> r.value in tasks && r.value.id == id
    ensures r.None? <==> forall i :: 0 <= i < |tasks| ==> tasks[i].id != id
  {
    if tasks == [] then None
    else if tasks[0].id == id then Some(tasks[0])
    else Find(tasks[1..], id)
  }

  /** `find` returns the first task with the id, even when several share it. */
  lemma {:induction false} FindFirst(tasks: seq<Task>, id: string, i: int)
    requires FirstWithId(tasks, id, i)
    ensures Find(tasks, id) == Some(tasks[i])
  {
    if i > 0 {
      assert FirstWithId(tasks[1..], id, i - 1);
      FindFirst(tasks[1..], id, i - 1);
    }
  }

  /** The edge pushed for dependency `depId` of the task with id `target`,
      drawn from the source task `src`. */
  function EdgeFrom(src: Task, depId: string, target: string): (e: FlowEdge)
    ensures e.id == "e-" + depId + "-" + target && e.source == depId && e.target == target
    ensures e.animated <==> src.status == Running || src.status == Done
    ensures e.className == LiquidFlow <==> src.status == Running
    ensures e.marker == if src.status == Done then Emerald else Azure
    ensures e.stroke == Emerald <==> src.status == Done
    ensures e.stroke == Azure <==> src.status == Running
  {
    FlowEdge("e-" + depId + "-" + target, depId, target,
             src.status == Running || src.status == Done,
             if src.status == Running then LiquidFlow else NoClass,
             if src.status == Done then Emerald else Azure,
             if src.status == Done then Emerald else if src.status == Running then Azure else Faded)
  }

  /** The edges of one dependency: none when its id is not in the registry. */
  function EdgeOfDependency(tasks: seq<Task>, depId: string, target: string): seq<FlowEdge> {
    match Find(tasks, depId)
    case Some(src) => [EdgeFrom(src, depId, target)]
    case None => []
  }

  /** The edges pushed for the first `m` dependencies of `task` (the inner forEach). */
  function DependencyEdges(tasks: seq<Task>, task: Task, m: nat): seq<FlowEdge>
    requires m <= |task.dependencies|
  {
    if m == 0 then []
    else DependencyEdges(tasks, task, m - 1) + EdgeOfDependency(tasks, task.dependencies[m - 1], task.id)
  }

  /** The edges pushed for the first `n` tasks (the outer forEach). */
  function EdgesUpTo(tasks: seq<Task>, n: nat): seq<FlowEdge>
    requires n <= |tasks|
  {
    if n == 0 then []
    else EdgesUpTo(tasks, n - 1) + DependencyEdges(tasks, tasks[n - 1], |tasks[n - 1].dependencies|)
  }

  /** All edges of the graph, in task order and then dependency order:
      each comes from a dependency whose source task exists, and every such
      dependency has its edge. */
  function Edges(tasks: seq<Task>): (r: seq<FlowEdge>)
    ensures forall e :: e in r ==> EdgeJustified(tasks, e)
    ensures forall i, j :: Resolved(tasks, i, j) ==> PairEdge(tasks, i, j) in r
  {
    EdgesSound(tasks, |tasks|);
    AllEdgesPresent(tasks);
    EdgesUpTo(tasks, |tasks|)
  }

  /** Dependency `j` of task `i` names a task of the registry. */
  predicate Resolved(tasks: seq<Task>, i: int, j: int) {
    0 <= i < |tasks| && 0 <= j < |tasks[i].dependencies| && Find(tasks, tasks[i].dependencies[j]).Some?
  }

  /** The edge that dependency `j` of task `i` should produce. */
  function PairEdge(tasks: seq<Task>, i: int, j: int): FlowEdge
    requires Resolved(tasks, i, j)
  {
    EdgeFrom(Find(tasks, tasks[i].dependencies[j]).value, tasks[i].dependencies[j], tasks[i].id)
  }

  /** EdgesComplete for every (task, dependency) pair at once. */
  lemma AllEdgesPresent(tasks: seq<Task>)
    ensures forall i, j :: Resolved(tasks, i, j) ==> PairEdge(tasks, i, j) in EdgesUpTo(tasks, |tasks|)
  {
    forall i, j | Resolved(tasks, i, j)
      ensures PairEdge(tasks, i, j) in EdgesUpTo(tasks, |tasks|)
    {
      EdgesComplete(tasks, |tasks|, i, j);
    }
  }

  /** The nested forEach loops of lines 112-130 that push into `initialEdges`. */
  method BuildEdges(tasks: seq<Task>) returns (edges: seq<FlowEdge>)
    ensures edges == Edges(tasks)
  {
    edges := [];
    var i := 0;
    while i < |tasks|
      invariant 0 <= i <= |tasks|
      invariant edges == EdgesUpTo(tasks, i)
    {
      edges := PushDependencyEdges(tasks, tasks[i], edges);
      assert EdgesUpTo(tasks, i + 1) == EdgesUpTo(tasks, i) + DependencyEdges(tasks, tasks[i], |tasks[i].dependencies|);
      i := i + 1;
    }
  }

  /** The inner forEach: push the edge of each dependency of `task` whose
      source is found. */
  method PushDependencyEdges(tasks: seq<Task>, task: Task, before: seq<FlowEdge>) returns (edges: seq<FlowEdge>)
    ensures edges == before + DependencyEdges(tasks, task, |task.dependencies|)
  {
    edges := before;
    var j := 0;
    while j < |task.dependencies|
      invariant 0 <= j <= |task.dependencies|
      invariant edges == before + DependencyEdges(tasks, task, j)
    {
      var depId := task.dependencies[j];
      var sourceTask := Find(tasks, depId);
      ghost var pushed := edges + if sourceTask.Some? then [EdgeFrom(sourceTask.value, depId, task.id)] else [];
      DependencyStep(tasks, task, j, before, edges);
      if sourceTask.Some? {
        edges := edges + [EdgeFrom(sourceTask.value, depId, task.id)];
      }
      assert edges == pushed;
      j := j + 1;
    }
  }

  /** One more dependency adds its edge when its source is found, and nothing otherwise. */
  lemma DependencyStep(tasks: seq<Task>, task: Task, j: nat, before: seq<FlowEdge>, edges: seq<FlowEdge>)
    requires j < |task.dependencies|
    requires edges == before + DependencyEdges(tasks, task, j)
    ensures var dep := task.dependencies[j];
      edges + (if Find(tasks, dep).Some? then [EdgeFrom(Find(tasks, dep).value, dep, task.id)] else [])
        == before + DependencyEdges(tasks, task, j + 1)
  {
    var dep := task.dependencies[j];
    assert DependencyEdges(tasks, task, j + 1) == DependencyEdges(tasks, task, j) + EdgeOfDependency(tasks, dep, task.id);
  }

  /** An edge belongs to some dependency of some task, and its source is in the registry. */
  predicate EdgeJustified(tasks: seq<Task>, e: FlowEdge) {
    exists i, j :: 0 <= i < |tasks| && 0 <= j < |tasks[i].dependencies|
      && e.source == tasks[i].dependencies[j] && e.target == tasks[i].id
      && Find(tasks, e.source).Some? && e == EdgeFrom(Find(tasks, e.source).value, e.source, e.target)
  }

  lemma {:induction false} DependencyEdgesJustified(tasks: seq<Task>, i: nat, m: nat)
    requires i < |tasks| && m <= |tasks[i].dependencies|
    ensures forall e :: e in DependencyEdges(tasks, tasks[i], m) ==> EdgeJustified(tasks, e)
  {
    if m > 0 {
      DependencyEdgesJustified(tasks, i, m - 1);
      var dep := tasks[i].dependencies[m - 1];
      if Find(tasks, dep).Some? {
        var e := EdgeFrom(Find(tasks, dep).value, dep, tasks[i].id);
        assert e.source == tasks[i].dependencies[m - 1];
        assert EdgeJustified(tasks, e);
      }
    }
  }

  /** Every edge comes from a (task, dependency) pair whose dependency id
      exists in the registry, points from the dependency to the dependent,
      and takes its attributes from the source task. So a dangling
      dependency yields no edge. */
  lemma {:induction false} EdgesSound(tasks: seq<Task>, n: nat)
    requires n <= |tasks|
    ensures forall e :: e in EdgesUpTo(tasks, n) ==> EdgeJustified(tasks, e)
  {
    if n > 0 {
      EdgesSound(tasks, n - 1);
      DependencyEdgesJustified(tasks, n - 1, |tasks[n - 1].dependencies|);
    }
  }

  lemma {:induction false} DependencyEdgesComplete(tasks: seq<Task>, task: Task, m: nat, j: nat)
    requires j < m <= |task.dependencies|
    requires Find(tasks, task.dependencies[j]).Some?
    ensures EdgeFrom(Find(tasks, task.dependencies[j]).value, task.dependencies[j], task.id)
            in DependencyEdges(tasks, task, m)
  {
    if j < m - 1 {
      DependencyEdgesComplete(tasks, task, m - 1, j);
    }
  }

  /** Every dependency whose id exists in the registry has its edge. */
  lemma {:induction false} EdgesComplete(tasks: seq<Task>, n: nat, i: nat, j: nat)
    requires i < n <= |tasks| && j < |tasks[i].dependencies|
    requires Find(tasks, tasks[i].dependencies[j]).Some?
    ensures EdgeFrom(Find(tasks, tasks[i].dependencies[j]).value, tasks[i].dependencies[j], tasks[i].id)
            in EdgesUpTo(tasks, n)
  {
    if i < n - 1 {
      EdgesComplete(tasks, n - 1, i, j);
    } else {
      DependencyEdgesComplete(tasks, tasks[i], |tasks[i].dependencies|, j);
    }
  }

  /** How many of the first `m` dependencies of `task` name a registry task. */
  function ResolvedDeps(tasks: seq<Task>, task: Task, m: nat): nat
    requires m <= |task.dependencies|
  {
    if m == 0 then 0
    else ResolvedDeps(tasks, task, m - 1) + (if Find(tasks, task.dependencies[m - 1]).Some? then 1 else 0)
  }

  /** How many (task, dependency) pairs of the first `n` tasks are resolved. */
  function ResolvedUpTo(tasks: seq<Task>, n: nat): nat
    requires n <= |tasks|
  {
    if n == 0 then 0
    else ResolvedUpTo(tasks, n - 1) + ResolvedDeps(tasks, tasks[n - 1], |tasks[n - 1].dependencies|)
  }

  lemma {:induction false} DependencyEdgesCount(tasks: seq<Task>, task: Task, m: nat)
    requires m <= |task.dependencies|
    ensures |DependencyEdges(tasks, task, m)| == ResolvedDeps(tasks, task, m)
  {
    if m > 0 {
      DependencyEdgesCount(tasks, task, m - 1);
    }
  }

  lemma {:induction false} EdgesUpToCount(tasks: seq<Task>, n: nat)
    requires n <= |tasks|
    ensures |EdgesUpTo(tasks, n)| == ResolvedUpTo(tasks, n)
  {
    if n > 0 {
      EdgesUpToCount(tasks, n - 1);
      DependencyEdgesCount(tasks, tasks[n - 1], |tasks[n - 1].dependencies|);
    }
  }

  /** One edge per resolved (task, dependency) pair, and no more. */
  lemma EdgesCount(tasks: seq<Task>)
    ensures |Edges(tasks)| == ResolvedUpTo(tasks, |tasks|)
  {
    EdgesUpToCount(tasks, |tasks|);
  }

  /** Dependency order: the edges of a task's first `m` dependencies come
      before those of its later ones. */
  lemma {:induction false} DependencyEdgesPrefix(tasks: seq<Task>, task: Task, m: nat, m': nat)
    requires m <= m' <= |task.dependencies|
    ensures DependencyEdges(tasks, task, m) <= DependencyEdges(tasks, task, m')
  {
    if m < m' {
      DependencyEdgesPrefix(tasks, task, m, m' - 1);
      var shorter := DependencyEdges(tasks, task, m' - 1);
      assert DependencyEdges(tasks, task, m') == shorter + EdgeOfDependency(tasks, task.dependencies[m' - 1], task.id);
    }
  }

  /** Task order: the edges of the first `i` tasks are a prefix of those of
      the first `n`. */
  lemma {:induction false} EdgesUpToPrefix(tasks: seq<Task>, i: nat, n: nat)
    requires i <= n <= |tasks|
    ensures EdgesUpTo(tasks, i) <= EdgesUpTo(tasks, n)
  {
    if i < n {
      EdgesUpToPrefix(tasks, i, n - 1);
    }
  }

  /** Every edge pushed for a task points into that task. */
  lemma {:induction false} DependencyEdgesTarget(tasks: seq<Task>, task: Task, m: nat)
    requires m <= |task.dependencies|
    ensures forall e :: e in DependencyEdges(tasks, task, m) ==> e.target == task.id
  {
    if m > 0 {
      DependencyEdgesTarget(tasks, task, m - 1);
    }
  }

  /** Task order, the other half: after the edges of the first `i` tasks
      come only edges into tasks `i` to `n - 1`. */
  lemma {:induction false} EdgesUpToLater(tasks: seq<Task>, i: nat, n: nat)
    requires i <= n <= |tasks|
    ensures forall k :: |EdgesUpTo(tasks, i)| <= k < |EdgesUpTo(tasks, n)| ==>
      exists t :: i <= t < n && EdgesUpTo(tasks, n)[k].target == tasks[t].id
  {
    if i < n {
      EdgesUpToLater(tasks, i, n - 1);
      EdgesUpToPrefix(tasks, i, n - 1);
      var before := EdgesUpTo(tasks, n - 1);
      var added := DependencyEdges(tasks, tasks[n - 1], |tasks[n - 1].dependencies|);
      DependencyEdgesTarget(tasks, tasks[n - 1], |tasks[n - 1].dependencies|);
      assert EdgesUpTo(tasks, n) == before + added;
      forall k | |EdgesUpTo(tasks, i)| <= k < |EdgesUpTo(tasks, n)|
        ensures exists t :: i <= t < n && EdgesUpTo(tasks, n)[k].target == tasks[t].id
      {
        if k < |before| {
          assert EdgesUpTo(tasks, n)[k] == before[k];
          var t :| i <= t < n - 1 && before[k].target == tasks[t].id;
          assert i <= t < n;
        } else {
          assert EdgesUpTo(tasks, n)[k] == added[k - |before|];
          assert added[k - |before|] in added;
          assert EdgesUpTo(tasks, n)[k].target == tasks[n - 1].id;
        }
      }
    }
  }

  /** An empty registry has no nodes and no edges (line 102). */
  lemma EmptyGraph(selectedIds: seq<string>)
    ensures Nodes([], selectedIds) == [] && Edges([]) == []
  {
  }

  /** `subtaskProgress` of TaskNode (lines 31-36). */
  function Progress(t: Task): (p: int)
    ensures 0 <= p <= 100
    ensures t.status == Done ==> p == 100
    ensures t.status != Done && OrEmpty(t.subtasks) == [] ==> p == 0
    ensures t.status != Done && OrEmpty(t.subtasks) != [] ==>
      200 * CompletedCount(OrEmpty(t.subtasks)) - |OrEmpty(t.subtasks)|
        < 2 * p * |OrEmpty(t.subtasks)| <= 200 * CompletedCount(OrEmpty(t.subtasks)) + |OrEmpty(t.subtasks)|
  {
    if t.status == Done then 100
    else if t.subtasks.None? || |t.subtasks.value| == 0 then 0
    else RoundPercent(CompletedCount(t.subtasks.value), |t.subtasks.value|)
  }

  /** The four indicator dots: dot i is lit iff progress > 25·i (lines 79-81). */
  function Dots(progress: int): (r: seq<bool>)
    ensures |r| == 4
    ensures forall i :: 0 <= i < 4 ==> (r[i] <==> progress > 25 * i)
  {
    [progress > 0, progress > 25, progress > 50, progress > 75]
  }

  /** The lit dots are a prefix: a lit dot has every dot before it lit.
      All four are lit iff progress exceeds 75, none iff it is 0 or less. */
  lemma DotsPrefix(progress: int)
    ensures forall i, j :: 0 <= i < j < 4 && Dots(progress)[j] ==> Dots(progress)[i]
    ensures (forall i :: 0 <= i < 4 ==> Dots(progress)[i]) <==> progress > 75
    ensures (forall i :: 0 <= i < 4 ==> !Dots(progress)[i]) <==> progress <= 0
  {
    var d := Dots(progress);
    assert d[3] <==> progress > 75;
    assert d[0] <==> progress > 0;
  }
}
