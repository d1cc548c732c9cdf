/** The registry transforms inside App.tsx's handlers: each is a `map`,
    `filter` or append over the task list, stated here as a function from
    the old list to the new one. Clock values, random numbers and AI
    results arrive as parameters. */
module Registry {
  import opened Types
  import opened JsString

  // ---------------------------------------------------------------------
  // Queries over the registry

  /** `tasks.filter(t => t.status === status)` */
  function TasksWithStatus(tasks: seq<Task>, status: TaskStatus): (r: seq<Task>)
    ensures IsSubsequence(r, tasks)
    ensures forall t :: t in r <==> t in tasks && t.status == status
    ensures |r| <= |tasks|
  {
    if tasks == [] then []
    else if tasks[0].status == status then [tasks[0]] + TasksWithStatus(tasks[1..], status)
    else TasksWithStatus(tasks[1..], status)
  }

  /** The filter keeps every task of that status as often as the registry
      holds it, and no other task. */
  lemma {:induction false} TasksWithStatusCount(tasks: seq<Task>, status: TaskStatus)
    ensures forall t :: multiset(TasksWithStatus(tasks, status))[t]
                     == if t.status == status then multiset(tasks)[t] else 0
  {
    if tasks != [] {
      TasksWithStatusCount(tasks[1..], status);
      assert tasks == [tasks[0]] + tasks[1..];
    }
  }

  /** Filtering by status distributes over concatenation; so the kept
      tasks appear in registry order. */
  lemma {:induction false} TasksWithStatusAppend(a: seq<Task>, b: seq<Task>, status: TaskStatus)
    ensures TasksWithStatus(a + b, status) == TasksWithStatus(a, status) + TasksWithStatus(b, status)
  {
    if a != [] {
      var ab := a + b;
      assert ab[0] == a[0] && ab[1..] == a[1..] + b;
      TasksWithStatusAppend(a[1..], b, status);
      var head := if a[0].status == status then [a[0]] else [];
      assert TasksWithStatus(ab, status) == head + TasksWithStatus(ab[1..], status);
      assert TasksWithStatus(a, status) == head + TasksWithStatus(a[1..], status);
    } else {
      assert a + b == b;
    }
  }

  /** A filter that every task passes keeps the whole registry. */
  lemma {:induction false} TasksWithStatusAll(tasks: seq<Task>, status: TaskStatus)
    requires forall i :: 0 <= i < |tasks| ==> tasks[i].status == status
    ensures TasksWithStatus(tasks, status) == tasks
  {
    if tasks != [] {
      TasksWithStatusAll(tasks[1..], status);
    }
  }

  /** A filter that no task passes keeps nothing. */
  lemma TasksWithStatusNone(tasks: seq<Task>, status: TaskStatus)
    requires forall i :: 0 <= i < |tasks| ==> tasks[i].status != status
    ensures TasksWithStatus(tasks, status) == []
  {
  }

  /** `tasks.filter(t => selectedTaskIds.includes(t.id))` (App.tsx:106) */
  function SelectedTasks(tasks: seq<Task>, ids: seq<string>): (r: seq<Task>)
    ensures IsSubsequence(r, tasks)
    ensures forall t :: t in r <==> t in tasks && t.id in ids
  {
    if tasks == [] then []
    else if tasks[0].id in ids then [tasks[0]] + SelectedTasks(tasks[1..], ids)
    else SelectedTasks(tasks[1..], ids)
  }

  /** The selection keeps each selected task as often as the registry holds it. */
  lemma {:induction false} SelectedTasksCount(tasks: seq<Task>, ids: seq<string>)
    ensures forall t :: multiset(SelectedTasks(tasks, ids))[t] == if t.id in ids then multiset(tasks)[t] else 0
  {
    if tasks != [] {
      SelectedTasksCount(tasks[1..], ids);
      assert tasks == [tasks[0]] + tasks[1..];
    }
  }

  /** `primarySelectedTask`: the selected task when exactly one registry
      entry is selected, otherwise none (App.tsx:107). */
  function PrimarySelected(tasks: seq<Task>, ids: seq<string>): (r: Option<Task>)
    ensures r.Some? ==> r.value in tasks && r.value.id in ids
    ensures r.Some? ==> forall i :: 0 <= i < |tasks| && tasks[i].id in ids ==> tasks[i] == r.value
    ensures r.Some? <==> |SelectedTasks(tasks, ids)| == 1
    ensures r.Some? ==> r.value == SelectedTasks(tasks, ids)[0]
  {
    var sel := SelectedTasks(tasks, ids);
    if |sel| == 1 then
      assert sel[0] in sel;
      Some(sel[0])
    else None
  }

  // ---------------------------------------------------------------------
  // Selection (App.tsx:182-190)

  /** `prev.filter(id => id !== x)` */
  function RemoveId(prev: seq<string>, x: string): (r: seq<string>)
    ensures IsSubsequence(r, prev)
    ensures forall y :: y in r <==> y in prev && y != x
    ensures forall y :: multiset(r)[y] == if y == x then 0 else multiset(prev)[y]
  {
    if prev == [] then []
    else
      assert prev == [prev[0]] + prev[1..];
      if prev[0] == x then
      var r := RemoveId(prev[1..], x);
      assert r != [] ==> r[0] in r;
      r
      else [prev[0]] + RemoveId(prev[1..], x)
  }

  /** The new `selectedTaskIds` after clicking task `id`. A plain click
      selects only that task; a multi-select click toggles its membership
      and leaves every other id as it was. */
  function Select(prev: seq<string>, id: string, multi: bool): (r: seq<string>)
    ensures !multi ==> r == [id]
    ensures multi ==> (id in r <==> id !in prev)
    ensures multi ==> forall x :: x != id ==> (x in r <==> x in prev)
    ensures multi && id !in prev ==> r == prev + [id]
    ensures multi && id in prev ==> IsSubsequence(r, prev)
    ensures multi && id in prev ==> forall x :: multiset(r)[x] == if x == id then 0 else multiset(prev)[x]
  {
    if multi then
      if id in prev then RemoveId(prev, id) else prev + [id]
    else [id]
  }

  // ---------------------------------------------------------------------
  // Status and priority (App.tsx:192-208, 219-223)

  /** `{ ...t, status, lastUpdated }` */
  function WithStatus(t: Task, status: TaskStatus, stamp: string): Task {
    t.(status := status, lastUpdated := Some(stamp))
  }

  /** `t` and `u` differ at most in status and lastUpdated. */
  predicate SameButStatus(t: Task, u: Task) {
    t.(status := u.status, lastUpdated := u.lastUpdated) == u
  }

  /** `t` and `u` differ at most in priority. */
  predicate SameButPriority(t: Task, u: Task) {
    t.(priority := u.priority) == u
  }

  /** handleBulkUpdateStatus's map: exactly the tasks whose id is selected
      get the new status and timestamp; order, length, ids and every other
      task are kept. */
  function BulkSetStatus(tasks: seq<Task>, ids: seq<string>, status: TaskStatus, stamp: string): (r: seq<Task>)
    ensures |r| == |tasks|
    ensures forall i :: 0 <= i < |tasks| ==> r[i].id == tasks[i].id
    ensures forall i :: 0 <= i < |tasks| && tasks[i].id !in ids ==> r[i] == tasks[i]
    ensures forall i :: 0 <= i < |tasks| && tasks[i].id in ids ==>
      r[i].status == status && r[i].lastUpdated == Some(stamp) && SameButStatus(r[i], tasks[i])
  {
    if tasks == [] then []
    else
      var t := tasks[0];
      [if t.id in ids then WithStatus(t, status, stamp) else t] + BulkSetStatus(tasks[1..], ids, status, stamp)
  }

  /** handleUpdateStatus's map: the same change for the tasks with one id. */
  function SetStatus(tasks: seq<Task>, id: string, status: TaskStatus, stamp: string): (r: seq<Task>)
    ensures |r| == |tasks|
    ensures forall i :: 0 <= i < |tasks| && tasks[i].id != id ==> r[i] == tasks[i]
    ensures forall i :: 0 <= i < |tasks| && tasks[i].id == id ==>
      r[i].status == status && r[i].lastUpdated == Some(stamp) && SameButStatus(r[i], tasks[i])
  {
    BulkSetStatus(tasks, [id], status, stamp)
  }

  /** A second bulk status change of the same selection overrides the
      first: only the last status and timestamp remain. Repeating the same
      change is therefore a no-op. */
  lemma BulkSetStatusLastWins(tasks: seq<Task>, ids: seq<string>, s1: TaskStatus, stamp1: string,
                              s2: TaskStatus, stamp2: string)
    ensures BulkSetStatus(BulkSetStatus(tasks, ids, s1, stamp1), ids, s2, stamp2)
         == BulkSetStatus(tasks, ids, s2, stamp2)
  {
    var once := BulkSetStatus(tasks, ids, s1, stamp1);
    var twice := BulkSetStatus(once, ids, s2, stamp2);
    var direct := BulkSetStatus(tasks, ids, s2, stamp2);
    forall i | 0 <= i < |tasks| ensures twice[i] == direct[i] {
      if tasks[i].id in ids {
        assert once[i] == WithStatus(tasks[i], s1, stamp1);
        assert twice[i] == WithStatus(once[i], s2, stamp2);
      }
    }
  }

  /** handleBulkUpdatePriority's map: only priority changes, and only on
      the selected tasks; lastUpdated is not touched. */
  function BulkSetPriority(tasks: seq<Task>, ids: seq<string>, p: PriorityLevel): (r: seq<Task>)
    ensures |r| == |tasks|
    ensures forall i :: 0 <= i < |tasks| ==> r[i].id == tasks[i].id
    ensures forall i :: 0 <= i < |tasks| && tasks[i].id !in ids ==> r[i] == tasks[i]
    ensures forall i :: 0 <= i < |tasks| && tasks[i].id in ids ==>
      r[i].priority == Some(p) && SameButPriority(r[i], tasks[i])
  {
    if tasks == [] then []
    else
      var t := tasks[0];
      [if t.id in ids then t.(priority := Some(p)) else t] + BulkSetPriority(tasks[1..], ids, p)
  }

  /** handleUpdatePriority's map */
  function SetPriority(tasks: seq<Task>, id: string, p: PriorityLevel): (r: seq<Task>)
    ensures |r| == |tasks|
    ensures forall i :: 0 <= i < |tasks| && tasks[i].id != id ==> r[i] == tasks[i]
    ensures forall i :: 0 <= i < |tasks| && tasks[i].id == id ==>
      r[i].priority == Some(p) && SameButPriority(r[i], tasks[i])
  {
    BulkSetPriority(tasks, [id], p)
  }

  /** Likewise for priority: the last bulk priority change of a selection wins. */
  lemma BulkSetPriorityLastWins(tasks: seq<Task>, ids: seq<string>, p1: PriorityLevel, p2: PriorityLevel)
    ensures BulkSetPriority(BulkSetPriority(tasks, ids, p1), ids, p2) == BulkSetPriority(tasks, ids, p2)
  {
    var once := BulkSetPriority(tasks, ids, p1);
    var twice := BulkSetPriority(once, ids, p2);
    var direct := BulkSetPriority(tasks, ids, p2);
    forall i | 0 <= i < |tasks| ensures twice[i] == direct[i] {
      if tasks[i].id in ids {
        assert once[i] == tasks[i].(priority := Some(p1));
      }
    }
  }

  // ---------------------------------------------------------------------
  // Deletion (App.tsx:210-217)

  /** handleBulkDelete's filter: the unselected tasks, in order, each
      unchanged; dependency lists of the survivors are not edited. */
  function DeleteSelected(tasks: seq<Task>, ids: seq<string>): (r: seq<Task>)
    ensures IsSubsequence(r, tasks)
    ensures forall t :: t in r <==> t in tasks && t.id !in ids
  {
    if tasks == [] then []
    else if tasks[0].id in ids then DeleteSelected(tasks[1..], ids)
    else [tasks[0]] + DeleteSelected(tasks[1..], ids)
  }

  /** Deletion keeps exactly the tasks the selection does not cover: the
      survivors and the selected tasks together account for every task. */
  lemma {:induction false} DeleteCount(tasks: seq<Task>, ids: seq<string>)
    ensures |DeleteSelected(tasks, ids)| + |SelectedTasks(tasks, ids)| == |tasks|
    ensures multiset(DeleteSelected(tasks, ids)) + multiset(SelectedTasks(tasks, ids)) == multiset(tasks)
    ensures forall t :: multiset(DeleteSelected(tasks, ids))[t] == if t.id in ids then 0 else multiset(tasks)[t]
  {
    if tasks != [] {
      DeleteCount(tasks[1..], ids);
      assert tasks == [tasks[0]] + tasks[1..];
    }
  }

  /** Deletion distributes over concatenation (registry order is kept). */
  lemma {:induction false} DeleteAppend(a: seq<Task>, b: seq<Task>, ids: seq<string>)
    ensures DeleteSelected(a + b, ids) == DeleteSelected(a, ids) + DeleteSelected(b, ids)
  {
    if a != [] {
      var ab := a + b;
      assert ab[0] == a[0] && ab[1..] == a[1..] + b;
      DeleteAppend(a[1..], b, ids);
      var head := if a[0].id in ids then [] else [a[0]];
      assert DeleteSelected(ab, ids) == head + DeleteSelected(ab[1..], ids);
      assert DeleteSelected(a, ids) == head + DeleteSelected(a[1..], ids);
    } else {
      assert a + b == b;
    }
  }

  // ---------------------------------------------------------------------
  // Subtasks (App.tsx:225-237, 306)

  /** `subtasks.map(s => s.id === sid ? { ...s, completed: !s.completed } : s)` */
  function ToggleIn(subs: seq<SubTask>, sid: string): (r: seq<SubTask>)
    ensures |r| == |subs|
    ensures forall i :: 0 <= i < |subs| ==>
      r[i].id == subs[i].id && r[i].title == subs[i].title
      && (r[i].completed != subs[i].completed <==> subs[i].id == sid)
  {
    if subs == [] then []
    else
      var s := subs[0];
      [if s.id == sid then s.(completed := !s.completed) else s] + ToggleIn(subs[1..], sid)
  }

  /** handleToggleSubtask's map: inside the tasks with id `tid` that have a
      subtask list, flip the subtasks with id `sid`; nothing else changes. */
  function ToggleSubtask(tasks: seq<Task>, tid: string, sid: string): (r: seq<Task>)
    ensures |r| == |tasks|
    ensures forall i :: 0 <= i < |tasks| && (tasks[i].id != tid || tasks[i].subtasks.None?) ==> r[i] == tasks[i]
    ensures forall i :: 0 <= i < |tasks| && tasks[i].id == tid && tasks[i].subtasks.Some? ==>
      r[i] == tasks[i].(subtasks := Some(ToggleIn(tasks[i].subtasks.value, sid)))
  {
    if tasks == [] then []
    else
      var t := tasks[0];
      [if t.id == tid && t.subtasks.Some? then t.(subtasks := Some(ToggleIn(t.subtasks.value, sid))) else t]
      + ToggleSubtask(tasks[1..], tid, sid)
  }

  /** Toggling the same subtask twice restores the registry. */
  lemma ToggleSubtaskTwice(tasks: seq<Task>, tid: string, sid: string)
    ensures ToggleSubtask(ToggleSubtask(tasks, tid, sid), tid, sid) == tasks
  {
    var once := ToggleSubtask(tasks, tid, sid);
    var twice := ToggleSubtask(once, tid, sid);
    forall i | 0 <= i < |tasks| ensures twice[i] == tasks[i] {
      if tasks[i].id == tid && tasks[i].subtasks.Some? {
        var subs := tasks[i].subtasks.value;
        var back := ToggleIn(ToggleIn(subs, sid), sid);
        assert back == subs by {
          forall k | 0 <= k < |subs| ensures back[k] == subs[k] { }
        }
      }
    }
  }

  /** handleAISuggestSubtasks's map: the generated list replaces the
      subtasks of the tasks with that id. */
  function ReplaceSubtasks(tasks: seq<Task>, tid: string, subs: seq<SubTask>): (r: seq<Task>)
    ensures |r| == |tasks|
    ensures forall i :: 0 <= i < |tasks| && tasks[i].id != tid ==> r[i] == tasks[i]
    ensures forall i :: 0 <= i < |tasks| && tasks[i].id == tid ==>
      r[i].subtasks == Some(subs) && r[i].(subtasks := tasks[i].subtasks) == tasks[i]
  {
    if tasks == [] then []
    else
      var t := tasks[0];
      [if t.id == tid then t.(subtasks := Some(subs)) else t] + ReplaceSubtasks(tasks[1..], tid, subs)
  }

  /** `subs.filter(s => s.completed)`: every completed subtask as often as
      the list holds it, in order, and no open one. */
  function CompletedSubtasks(subs: seq<SubTask>): (r: seq<SubTask>)
    ensures IsSubsequence(r, subs)
    ensures forall s :: multiset(r)[s] == if s.completed then multiset(subs)[s] else 0
  {
    if subs == [] then []
    else
      assert subs == [subs[0]] + subs[1..];
      if subs[0].completed then [subs[0]] + CompletedSubtasks(subs[1..])
      else CompletedSubtasks(subs[1..])
  }

  /** Number of completed subtasks (the `filter(st => st.completed).length`
      of DAGVisualizer.tsx and NeuralBoard.tsx). */
  function CompletedCount(subs: seq<SubTask>): (n: nat)
    ensures n <= |subs|
    ensures n == |subs| <==> forall i :: 0 <= i < |subs| ==> subs[i].completed
  {
    if subs == [] then 0 else (if subs[0].completed then 1 else 0) + CompletedCount(subs[1..])
  }

  /** The count is the length of the completed-subtask filter. */
  lemma {:induction false} CompletedCountIsFilterLength(subs: seq<SubTask>)
    ensures CompletedCount(subs) == |CompletedSubtasks(subs)|
  {
    if subs != [] {
      CompletedCountIsFilterLength(subs[1..]);
    }
  }

  /** `Math.round((num / den) * 100)` with exact arithmetic: rounds 100·num/den
      to the nearest integer, halves upwards. */
  function RoundPercent(num: nat, den: nat): (r: int)
    requires den > 0
    ensures 200 * num - den < 2 * r * den <= 200 * num + den
    ensures num <= den ==> 0 <= r <= 100
    ensures num == den ==> r == 100
  {
    RoundingBounds(num, den);
    (200 * num + den) / (2 * den)
  }

  /** The quotient bounds behind RoundPercent. */
  lemma RoundingBounds(num: nat, den: nat)
    requires den > 0
    ensures var q := (200 * num + den) / (2 * den);
      200 * num - den < 2 * q * den <= 200 * num + den
      && (num <= den ==> 0 <= q <= 100)
      && (num == den ==> q == 100)
  {
    var a, b := 200 * num + den, 2 * den;
    var q := a / b;
    var p := b * q;
    assert p <= a < p + b by { DivisionBounds(a, b); }
    assert 2 * q * den == p;
    assert q >= 0 by { SignOfProduct(b, q); }
    if num <= den {
      assert a < b * 101;
      assert q <= 100 by {
        SignOfProduct(b, q - 101);
        assert b * (q - 101) == p - b * 101;
      }
    }
    if num == den {
      assert a == b * 100 + den;
      assert q == 100 by {
        SignOfProduct(b, q - 100);
        SignOfProduct(b, 99 - q);
        assert b * (q - 100) == p - b * 100;
        assert b * (99 - q) == b * 99 - p;
      }
    }
  }

  /** Euclidean division: the quotient times the divisor is within one divisor below. */
  lemma DivisionBounds(a: nat, b: nat)
    requires b > 0
    ensures b * (a / b) <= a < b * (a / b) + b
  {
    assert a == b * (a / b) + a % b;
  }

  /** A positive factor keeps the sign of the other factor. */
  lemma SignOfProduct(b: int, x: int)
    requires b > 0
    ensures x >= 0 <==> b * x >= 0
    ensures x > 0 <==> b * x > 0
  {
  }

  // ---------------------------------------------------------------------
  // Comments (App.tsx:239-262)

  /** The comment handleAddComment builds: id `C-<milliseconds>`, author
      Operator, the text as typed. */
  function NewComment(nowMillis: nat, text: string): (c: TaskComment)
    ensures c.author == "Operator" && c.text == text && c.timestamp == "Just now"
    ensures |c.id| >= 3 && c.id[..2] == "C-" && AllDigits(c.id[2..])
    ensures DecimalValue(c.id[2..]) == nowMillis
    ensures c.id[2] == '0' ==> nowMillis == 0
  {
    var id := "C-" + NatToDecimal(nowMillis);
    DecimalRoundTrip(nowMillis);
    assert id[2..] == NatToDecimal(nowMillis);
    TaskComment(id, "Operator", text, "Just now")
  }

  /** handleAddComment's map: the comment goes at the end of the comments
      of the tasks with id `tid` (an absent list reads as empty); nothing
      else changes. */
  function AppendComment(tasks: seq<Task>, tid: string, c: TaskComment): (r: seq<Task>)
    ensures |r| == |tasks|
    ensures forall i :: 0 <= i < |tasks| && tasks[i].id != tid ==> r[i] == tasks[i]
    ensures forall i :: 0 <= i < |tasks| && tasks[i].id == tid ==>
      r[i].comments == Some(OrEmpty(tasks[i].comments) + [c]) && r[i].(comments := tasks[i].comments) == tasks[i]
  {
    if tasks == [] then []
    else
      var t := tasks[0];
      [if t.id == tid then t.(comments := Some(OrEmpty(t.comments) + [c])) else t] + AppendComment(tasks[1..], tid, c)
  }

  // ---------------------------------------------------------------------
  // Manual injection (App.tsx:314-331)

  /** `.filter(Boolean)`: drop the empty strings */
  function DropEmpty(parts: seq<string>): (r: seq<string>)
    ensures IsSubsequence(r, parts)
    ensures forall x :: x in r <==> x in parts && x != ""
  {
    if parts == [] then []
    else if parts[0] == "" then
      var r := DropEmpty(parts[1..]);
      assert r != [] ==> r[0] in r;
      r
    else [parts[0]] + DropEmpty(parts[1..])
  }

  /** Each non-empty piece is kept as often as it occurs, so a repeated
      dependency stays repeated. */
  lemma {:induction false} DropEmptyCount(parts: seq<string>)
    ensures forall x :: multiset(DropEmpty(parts))[x] == if x == "" then 0 else multiset(parts)[x]
  {
    if parts != [] {
      DropEmptyCount(parts[1..]);
      assert parts == [parts[0]] + parts[1..];
    }
  }

  /** `.map(d => d.trim())` */
  function TrimEach(parts: seq<string>): (r: seq<string>)
    ensures |r| == |parts|
    ensures forall i :: 0 <= i < |parts| ==> r[i] == Trim(parts[i])
  {
    if parts == [] then [] else [Trim(parts[0])] + TrimEach(parts[1..])
  }

  /** The dependency field: `deps.split(',').filter(Boolean).map(d => d.trim())`.
      Empty pieces are dropped BEFORE trimming, so a piece of spaces only
      becomes the empty id. */
  function ParseDependencies(deps: string): (r: seq<string>)
    ensures forall k :: 0 <= k < |r| ==> ',' !in r[k]
    ensures forall k :: 0 <= k < |r| ==> r[k] == [] || (!IsWhitespace(r[k][0]) && !IsWhitespace(r[k][|r[k]| - 1]))
  {
    var pieces := DropEmpty(Split(deps, ','));
    var r := TrimEach(pieces);
    forall k | 0 <= k < |r| ensures ',' !in r[k] {
      assert pieces[k] in pieces;
      TrimChars(pieces[k]);
    }
    r
  }

  /** Comma-joined comma-free pieces parse back to the non-empty pieces,
      trimmed, in order. */
  lemma ParseDependenciesOfJoin(ids: seq<string>)
    requires |ids| >= 1
    requires forall i :: 0 <= i < |ids| ==> ',' !in ids[i]
    ensures ParseDependencies(Join(ids, ',')) == TrimEach(DropEmpty(ids))
  {
    SplitJoin(ids, ',');
  }

  lemma {:induction false} NoEmptyKept(parts: seq<string>)
    requires forall i :: 0 <= i < |parts| ==> parts[i] != ""
    ensures DropEmpty(parts) == parts
  {
    if parts != [] {
      NoEmptyKept(parts[1..]);
    }
  }

  predicate CleanId(a: string) {
    a != [] && ',' !in a && !IsWhitespace(a[0]) && !IsWhitespace(a[|a| - 1])
  }

  /** Form input such as "T-001, T-002" gives the two ids. */
  lemma ParseTwoDependencies(a: string, b: string)
    requires CleanId(a) && CleanId(b)
    ensures ParseDependencies(a + ", " + b) == [a, b]
  {
    SpacedPiece(b);
    assert a + ", " + b == a + [','] + (" " + b);
    ParsePair(a, " " + b);
    TrimClean(a);
  }

  /** Two non-empty comma-free pieces around one comma parse to both pieces, trimmed. */
  lemma ParsePair(x: string, y: string)
    requires x != "" && y != "" && ',' !in x && ',' !in y
    ensures ParseDependencies(x + [','] + y) == [Trim(x), Trim(y)]
  {
    JoinPair(x, y, ',');
    assert forall i :: 0 <= i < |[x, y]| ==> ',' !in [x, y][i];
    ParseDependenciesOfJoin([x, y]);
    DropEmptyPair(x, y);
    TrimPair(x, y);
  }

  lemma JoinPair(x: string, y: string, sep: char)
    ensures Join([x, y], sep) == x + [sep] + y
  {
    assert [x, y][1..] == [y];
  }

  lemma DropEmptyPair(x: string, y: string)
    requires x != "" && y != ""
    ensures DropEmpty([x, y]) == [x, y]
  {
    NoEmptyKept([x, y]);
  }

  /** A clean id after one space: a non-empty comma-free piece whose trim is the id. */
  lemma SpacedPiece(b: string)
    requires CleanId(b)
    ensures " " + b != "" && ',' !in " " + b && Trim(" " + b) == b
  {
    assert ',' !in [' '] + b;
    TrimAfterSpace(b);
  }

  /** One leading space is trimmed away. */
  lemma TrimAfterSpace(b: string)
    requires b != [] && !IsWhitespace(b[0]) && !IsWhitespace(b[|b| - 1])
    ensures Trim(" " + b) == b
  {
    assert (" " + b)[1..] == b;
    assert TrimStart(" " + b) == b;
    TrimClean(b);
  }

  /** Input such as "T-001, " leaves an empty id: the blank piece is
      trimmed after the empty pieces were dropped. */
  lemma ParseTrailingBlank(a: string)
    requires CleanId(a)
    ensures ParseDependencies(a + ", ") == [a, ""]
  {
    assert a + ", " == a + [','] + " ";
    ParsePair(a, " ");
    TrimClean(a);
    TrimEmptyIffBlank(" ");
  }

  /** Trimming a two-element list trims each. */
  lemma TrimPair(x: string, y: string)
    ensures TrimEach([x, y]) == [Trim(x), Trim(y)]
  {
    assert [x, y][1..] == [y];
  }

  /** The id `T-` followed by four digits that read back as the roll. */
  function ManualTaskId(roll: nat): (id: string)
    requires roll < 9999
    ensures |id| == 6 && id[..2] == "T-"
    ensures AllDigits(id[2..]) && DecimalValue(id[2..]) == roll
  {
    var digits := NatToDecimal(roll);
    var padded := PadStart(digits, 4, '0');
    DecimalLength(roll);
    DecimalRoundTrip(roll);
    assert padded == padded[..|padded| - |digits|] + digits;
    LeadingZeros(padded[..|padded| - |digits|], digits);
    var id := "T-" + padded;
    assert id[2..] == padded;
    id
  }

  /** handleManualInject's record: a PENDING task with the form fields,
      MEDIUM priority when the field is empty, an empty subtask list and
      the id drawn from `roll` (`Math.floor(Math.random() * 9999)`). */
  function NewManualTask(title: string, description: string, priority: Option<PriorityLevel>,
                         deps: string, roll: nat): (t: Task)
    requires roll < 9999
    ensures t.id == ManualTaskId(roll) && t.title == title && t.description == description
    ensures t.status == Pending && t.dependencies == ParseDependencies(deps)
    ensures priority.None? ==> t.priority == Some(Medium)
    ensures priority.Some? ==> t.priority == priority
    ensures t.subtasks == Some([]) && t.comments.None? && t.artifacts.None?
    ensures t.owner == Some("Manual_Operator") && t.lastUpdated.None? && t.duration.None?
  {
    Task(ManualTaskId(roll), title, description, Pending, ParseDependencies(deps),
         Some("Manual_Operator"), None, None, Some([]), None, None, Some(priority.GetOr(Medium)))
  }
}
