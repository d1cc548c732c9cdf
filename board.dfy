/** The kanban board of components/NeuralBoard.tsx: four fixed columns,
    each holding the tasks of its status, and the owner label and subtask
    dots of each card. */
module Board {
  import opened Types
  import opened JsString
  import opened Registry

  /** A column header: the status it collects and its label. */
  datatype Column = Column(status: TaskStatus, labelText: string)

  /** The fixed `columns` array (lines 12-17). */
  const Columns: seq<Column> := [
    Column(Pending, "BACKLOG"),
    Column(Running, "PROCESSING"),
    Column(Done, "COMMITTED"),
    Column(Failed, "HALTED")
  ]

  /** The position of the column that collects `s`: every status has
      exactly one column. */
  function ColumnOf(s: TaskStatus): (i: nat)
    ensures i < |Columns| && Columns[i].status == s
    ensures forall j :: 0 <= j < |Columns| && Columns[j].status == s ==> j == i
  {
    match s
    case Pending => 0
    case Running => 1
    case Done => 2
    case Failed => 3
  }

  /** What one column renders: its label, its cards in order, the count
      in its header and whether the Zone_Empty placeholder shows. */
  datatype ColumnView = ColumnView(labelText: string, cards: seq<Task>, count: nat, showEmpty: bool)

  /** One column (lines 22-75): the tasks of its status in registry order,
      a header count equal to the number of cards, and the placeholder
      exactly when there are none. */
  function View(tasks: seq<Task>, col: Column): (v: ColumnView)
    ensures v.labelText == col.labelText
    ensures IsSubsequence(v.cards, tasks)
    ensures forall t :: t in v.cards <==> t in tasks && t.status == col.status
    ensures v.count == |v.cards|
    ensures v.showEmpty <==> v.count == 0
  {
    var cards := TasksWithStatus(tasks, col.status);
    ColumnView(col.labelText, cards, |cards|, |cards| == 0)
  }

  /** `columns.map(...)`: the four column views in the fixed order. */
  function Render(tasks: seq<Task>): (r: seq<ColumnView>)
    ensures |r| == |Columns|
    ensures forall i :: 0 <= i < |Columns| ==> r[i] == View(tasks, Columns[i])
  {
    [View(tasks, Columns[0]), View(tasks, Columns[1]), View(tasks, Columns[2]), View(tasks, Columns[3])]
  }

  /** Every task of the registry is a card of exactly one column: the one of its status. */
  lemma ExactlyOneColumn(tasks: seq<Task>, t: Task, i: nat)
    requires t in tasks && i < |Columns|
    ensures t in Render(tasks)[i].cards <==> i == ColumnOf(t.status)
  {
  }

  /** The columns partition the registry: the header counts add up to the
      number of tasks, and together the columns hold each task as often
      as the registry does. */
  lemma ColumnsPartition(tasks: seq<Task>)
    ensures var r := Render(tasks);
      r[0].count + r[1].count + r[2].count + r[3].count == |tasks|
    ensures var r := Render(tasks);
      multiset(r[0].cards) + multiset(r[1].cards) + multiset(r[2].cards) + multiset(r[3].cards) == multiset(tasks)
  {
    StatusesPartition(tasks);
    var r := Render(tasks);
    assert |multiset(r[0].cards) + multiset(r[1].cards) + multiset(r[2].cards) + multiset(r[3].cards)|
      == r[0].count + r[1].count + r[2].count + r[3].count;
  }

  /** The four status filters split the registry. */
  lemma {:induction false} StatusesPartition(tasks: seq<Task>)
    ensures multiset(TasksWithStatus(tasks, Pending)) + multiset(TasksWithStatus(tasks, Running))
          + multiset(TasksWithStatus(tasks, Done)) + multiset(TasksWithStatus(tasks, Failed)) == multiset(tasks)
  {
    if tasks != [] {
      var t, rest := tasks[0], tasks[1..];
      StatusesPartition(rest);
      assert tasks == [t] + rest;
      FilterCons(t, rest, Pending);
      FilterCons(t, rest, Running);
      FilterCons(t, rest, Done);
      FilterCons(t, rest, Failed);
    }
  }

  /** Filtering a registry that starts with `t`. */
  lemma FilterCons(t: Task, rest: seq<Task>, s: TaskStatus)
    ensures multiset(TasksWithStatus([t] + rest, s))
      == (if t.status == s then multiset{t} else multiset{}) + multiset(TasksWithStatus(rest, s))
  {
    assert ([t] + rest)[0] == t && ([t] + rest)[1..] == rest;
  }

  /** `task.owner?.split('_')[0] || 'UNASSIGNED'` (line 59) */
  function OwnerLabel(owner: Option<string>): (r: string)
    ensures owner.None? ==> r == "UNASSIGNED"
    ensures owner.Some? && (owner.value == [] || owner.value[0] == '_') ==> r == "UNASSIGNED"
    ensures owner.Some? && owner.value != [] && owner.value[0] != '_' ==>
      r != [] && r <= owner.value && '_' !in r && (|r| == |owner.value| || owner.value[|r|] == '_')
  {
    match owner
    case None => "UNASSIGNED"
    case Some(o) =>
      SplitHead(o, '_');
      var head := Split(o, '_')[0];
      if head == [] then "UNASSIGNED" else head
  }

  /** The subtask dots of a card (lines 63-65): one per subtask up to three,
      dot `i` lit when `i` is below the number of completed subtasks in the
      whole list (not only among the first three). A task without a
      subtask list shows no dots. */
  function SubtaskDots(t: Task): (r: seq<bool>)
    ensures |r| == if |OrEmpty(t.subtasks)| <= 3 then |OrEmpty(t.subtasks)| else 3
    ensures forall i :: 0 <= i < |r| ==> (r[i] <==> i < CompletedCount(OrEmpty(t.subtasks)))
  {
    match t.subtasks
    case None => []
    case Some(subs) => LitDots(if |subs| <= 3 then |subs| else 3, CompletedCount(subs))
  }

  /** `k` dots, dot `i` lit iff `i < lit`. */
  function LitDots(k: nat, lit: nat): (r: seq<bool>)
    ensures |r| == k
    ensures forall i :: 0 <= i < k ==> (r[i] <==> i < lit)
  {
    if k == 0 then [] else LitDots(k - 1, lit) + [k - 1 < lit]
  }

  /** The lit dots come first; all shown dots are lit exactly when the
      completed subtasks are at least as many as the dots. */
  lemma SubtaskDotsPrefix(t: Task)
    ensures forall i, j :: 0 <= i < j < |SubtaskDots(t)| && SubtaskDots(t)[j] ==> SubtaskDots(t)[i]
    ensures (forall i :: 0 <= i < |SubtaskDots(t)| ==> SubtaskDots(t)[i])
      <==> |SubtaskDots(t)| <= CompletedCount(OrEmpty(t.subtasks))
  {
    var r := SubtaskDots(t);
    if |r| > CompletedCount(OrEmpty(t.subtasks)) {
      assert !r[|r| - 1];
    }
  }

  /** Clicking a card (line 37) selects that task alone. */
  function CardClick(prev: seq<string>, task: Task): (r: seq<string>)
    ensures r == [task.id]
  {
    Select(prev, task.id, false)
  }
}
