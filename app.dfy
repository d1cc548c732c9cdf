/** The application state of App.tsx: the registry, its undo history and
    the selection, updated in place by the event handlers. Handlers run
    one at a time; the clock, `Math.random`, `window.confirm` and the AI
    replies are parameters. */
module App {
  import opened Types
  import opened JsString
  import opened Registry
  import opened History

  /** INITIAL_TASKS (App.tsx:47-80) */
  function InitialTasks(): (r: seq<Task>)
    ensures |r| == 2 && r[0].id == "T-001" && r[1].id == "T-002"
    ensures r[0].status == Done && r[1].status == Running
    ensures r[0].dependencies == [] && r[1].dependencies == [r[0].id]
  {
    [ Task("T-001", "Data Nexus Ingestion", "High-throughput stream from distributed edge sensors.",
           Done, [], Some("Root-Admin"), Some("240ms"), None,
           Some([SubTask("S1", "Socket handshake", true), SubTask("S2", "Buffer allocation", true)]),
           Some([TaskComment("C-INIT", "System", "Pipeline initialized successfully.", "1h ago")]),
           None, Some(High)),
      Task("T-002", "Semantic Normalizer", "Schema enforcement and field mapping.",
           Running, ["T-001"], Some("AI-Kernel"), Some("1.2s"), None,
           Some([SubTask("S3", "JSON Validation", true), SubTask("S4", "Type casting", false)]),
           Some([TaskComment("C1", "System", "Normalizing large batches...", "2m ago")]),
           None, Some(Medium)) ]
  }

  /** Toggling a subtask changes `tasks` without a snapshot, so the next
      push stores the toggled list while the entry under the cursor is
      still the untoggled one. Undo right after that push loads the
      untoggled list, which is not the registry as it was just before the
      pushing edit. */
  lemma UndoSkipsToggle(entries: seq<seq<Task>>, cursor: nat, tid: string, sid: string,
                        i: nat, k: nat, edited: seq<Task>)
    requires cursor < |entries|
    requires i < |entries[cursor]| && entries[cursor][i].id == tid
    requires entries[cursor][i].subtasks.Some?
    requires k < |entries[cursor][i].subtasks.value| && entries[cursor][i].subtasks.value[k].id == sid
    ensures var r := Pushed(entries, cursor, edited);
      |r| >= 2 && r[|r| - 2] == entries[cursor] && r[|r| - 2] != ToggleSubtask(entries[cursor], tid, sid)
  {
    UndoAfterPush(entries, cursor, edited);
    var before := entries[cursor];
    var toggled := ToggleSubtask(before, tid, sid);
    var subs := before[i].subtasks.value;
    assert toggled[i].subtasks.value[k].completed != subs[k].completed;
  }

  class Workbench {
    var tasks: seq<Task>
    var history: seq<seq<Task>>
    var historyIndex: int
    var selectedTaskIds: seq<string>
    var prompt: string
    var newCommentText: string

    /** The history is never empty, holds at most 20 snapshots, and the
        cursor points into it. */
    predicate Valid()
      reads this
    {
      ValidTimeline(history, historyIndex)
    }

    /** The component's initial state: INITIAL_TASKS, a one-entry history, no selection. */
    constructor ()
      ensures Valid()
      ensures tasks == InitialTasks() && history == [InitialTasks()] && historyIndex == 0
      ensures selectedTaskIds == [] && prompt == "" && newCommentText == ""
    {
      tasks := InitialTasks();
      history := [InitialTasks()];
      historyIndex := 0;
      selectedTaskIds := [];
      prompt := "";
      newCommentText := "";
    }

    /** pushToHistory: truncate after the cursor, append, keep the last 20,
        and point the cursor at the new snapshot. `tasks` is not touched. */
    method PushToHistory(newTasks: seq<Task>)
      requires Valid()
      modifies this`history, this`historyIndex
      ensures Valid()
      ensures history == Pushed(old(history), old(historyIndex), newTasks)
      ensures historyIndex == |history| - 1 && history[historyIndex] == newTasks
    {
      var next := history[..historyIndex + 1];
      var updated := KeepLast(next + [newTasks], MaxEntries);
      historyIndex := |updated| - 1;
      history := updated;
    }

    /** undo: a no-op on the first snapshot, otherwise step back one and load it. */
    method Undo()
      requires Valid()
      modifies this`historyIndex, this`tasks
      ensures Valid()
      ensures old(historyIndex) > 0 ==> historyIndex == old(historyIndex) - 1 && tasks == history[historyIndex]
      ensures old(historyIndex) == 0 ==> historyIndex == 0 && tasks == old(tasks)
    {
      if historyIndex > 0 {
        var newIndex := historyIndex - 1;
        historyIndex := newIndex;
        tasks := history[newIndex];
      }
    }

    /** redo: a no-op on the last snapshot, otherwise step forward one and load it. */
    method Redo()
      requires Valid()
      modifies this`historyIndex, this`tasks
      ensures Valid()
      ensures old(historyIndex) < |history| - 1 ==> historyIndex == old(historyIndex) + 1 && tasks == history[historyIndex]
      ensures old(historyIndex) == |history| - 1 ==> historyIndex == old(historyIndex) && tasks == old(tasks)
    {
      if historyIndex < |history| - 1 {
        var newIndex := historyIndex + 1;
        historyIndex := newIndex;
        tasks := history[newIndex];
      }
    }

    /** A click on timeline button `i` (one button per snapshot). */
    method JumpTo(i: nat)
      requires Valid() && i < |history|
      modifies this`historyIndex, this`tasks
      ensures Valid()
      ensures historyIndex == i && tasks == history[i]
    {
      historyIndex := i;
      tasks := history[i];
    }

    /** handleSelectTask */
    method SelectTask(task: Task, isMultiSelect: bool)
      requires Valid()
      modifies this`selectedTaskIds
      ensures Valid()
      ensures selectedTaskIds == Select(old(selectedTaskIds), task.id, isMultiSelect)
    {
      selectedTaskIds := Select(selectedTaskIds, task.id, isMultiSelect);
    }

    /** handleUpdateStatus; `stamp` is `new Date().toISOString()`. */
    method UpdateStatus(id: string, newStatus: TaskStatus, stamp: string)
      requires Valid()
      modifies this`tasks, this`history, this`historyIndex
      ensures Valid()
      ensures tasks == SetStatus(old(tasks), id, newStatus, stamp)
      ensures history == Pushed(old(history), old(historyIndex), tasks) && historyIndex == |history| - 1
    {
      var next := SetStatus(tasks, id, newStatus, stamp);
      tasks := next;
      PushToHistory(next);
    }

    /** handleBulkUpdateStatus */
    method BulkUpdateStatus(newStatus: TaskStatus, stamp: string)
      requires Valid()
      modifies this`tasks, this`history, this`historyIndex
      ensures Valid()
      ensures tasks == BulkSetStatus(old(tasks), selectedTaskIds, newStatus, stamp)
      ensures history == Pushed(old(history), old(historyIndex), tasks) && historyIndex == |history| - 1
    {
      var next := BulkSetStatus(tasks, selectedTaskIds, newStatus, stamp);
      tasks := next;
      PushToHistory(next);
    }

    /** handleBulkUpdatePriority */
    method BulkUpdatePriority(newPriority: PriorityLevel)
      requires Valid()
      modifies this`tasks, this`history, this`historyIndex
      ensures Valid()
      ensures tasks == BulkSetPriority(old(tasks), selectedTaskIds, newPriority)
      ensures history == Pushed(old(history), old(historyIndex), tasks) && historyIndex == |history| - 1
    {
      var next := BulkSetPriority(tasks, selectedTaskIds, newPriority);
      tasks := next;
      PushToHistory(next);
    }

    /** handleUpdatePriority */
    method UpdatePriority(id: string, newPriority: PriorityLevel)
      requires Valid()
      modifies this`tasks, this`history, this`historyIndex
      ensures Valid()
      ensures tasks == SetPriority(old(tasks), id, newPriority)
      ensures history == Pushed(old(history), old(historyIndex), tasks) && historyIndex == |history| - 1
    {
      var next := SetPriority(tasks, id, newPriority);
      tasks := next;
      PushToHistory(next);
    }

    /** handleBulkDelete; `confirmed` is the answer to `window.confirm`. */
    method BulkDelete(confirmed: bool)
      requires Valid()
      modifies this`tasks, this`history, this`historyIndex, this`selectedTaskIds
      ensures Valid()
      ensures !confirmed ==>
        (tasks == old(tasks) && history == old(history)
         && historyIndex == old(historyIndex) && selectedTaskIds == old(selectedTaskIds))
      ensures confirmed ==>
        (tasks == DeleteSelected(old(tasks), old(selectedTaskIds)) && selectedTaskIds == []
         && history == Pushed(old(history), old(historyIndex), tasks) && historyIndex == |history| - 1)
    {
      if confirmed {
        var next := DeleteSelected(tasks, selectedTaskIds);
        tasks := next;
        selectedTaskIds := [];
        PushToHistory(next);
      }
    }

    /** handleToggleSubtask: changes `tasks` only; no snapshot is pushed. */
    method ToggleSubtaskOf(taskId: string, subtaskId: string)
      requires Valid()
      modifies this`tasks
      ensures Valid()
      ensures tasks == ToggleSubtask(old(tasks), taskId, subtaskId)
    {
      tasks := ToggleSubtask(tasks, taskId, subtaskId);
    }

    /** The comment box's onChange */
    method SetCommentText(text: string)
      requires Valid()
      modifies this`newCommentText
      ensures Valid()
      ensures newCommentText == text
    {
      newCommentText := text;
    }

    /** handleAddComment; `nowMillis` is `Date.now()`. Nothing happens when
        the text is blank or not exactly one task is selected. */
    method AddComment(nowMillis: nat)
      requires Valid()
      modifies this`tasks, this`history, this`historyIndex, this`newCommentText
      ensures Valid()
      ensures var primary := PrimarySelected(old(tasks), selectedTaskIds);
        if IsBlank(old(newCommentText)) || primary.None? then
          tasks == old(tasks) && history == old(history) && historyIndex == old(historyIndex)
          && newCommentText == old(newCommentText)
        else
          tasks == AppendComment(old(tasks), primary.value.id, NewComment(nowMillis, old(newCommentText)))
          && newCommentText == ""
          && history == Pushed(old(history), old(historyIndex), tasks) && historyIndex == |history| - 1
    {
      var primary := PrimarySelected(tasks, selectedTaskIds);
      if TrimsToEmpty(newCommentText) || primary.None? {
        return;
      }
      var comment := NewComment(nowMillis, newCommentText);
      var next := AppendComment(tasks, primary.value.id, comment);
      tasks := next;
      newCommentText := "";
      PushToHistory(next);
    }

    /** The prompt box's onChange */
    method SetPrompt(text: string)
      requires Valid()
      modifies this`prompt
      ensures Valid()
      ensures prompt == text
    {
      prompt := text;
    }

    /** The synchronous part of handleGenerateAI. `generated` is what
        generateWorkflow produced, or None when it threw. A non-empty list
        replaces the whole registry and clears the selection; the prompt is
        cleared whenever generation was attempted. */
    method GenerateAI(generated: Option<seq<Task>>)
      requires Valid()
      modifies this`tasks, this`history, this`historyIndex, this`selectedTaskIds, this`prompt
      ensures Valid()
      ensures IsBlank(old(prompt)) ==>
        (tasks == old(tasks) && history == old(history) && historyIndex == old(historyIndex)
         && selectedTaskIds == old(selectedTaskIds) && prompt == old(prompt))
      ensures !IsBlank(old(prompt)) ==> prompt == ""
      ensures !IsBlank(old(prompt)) && generated.Some? && generated.value != [] ==>
        (tasks == generated.value && selectedTaskIds == []
         && history == Pushed(old(history), old(historyIndex), tasks) && historyIndex == |history| - 1)
      ensures !IsBlank(old(prompt)) && (generated.None? || generated.value == []) ==>
        (tasks == old(tasks) && history == old(history) && historyIndex == old(historyIndex)
         && selectedTaskIds == old(selectedTaskIds))
    {
      if TrimsToEmpty(prompt) {
        return;
      }
      if generated.Some? && |generated.value| > 0 {
        var newTasks := generated.value;
        tasks := newTasks;
        PushToHistory(newTasks);
        selectedTaskIds := [];
      }
      prompt := "";
    }

    /** The synchronous part of handleAISuggestSubtasks: the generated list
        (None when generateSubtasks threw) replaces the subtasks of the one
        selected task. */
    method AISuggestSubtasks(generated: Option<seq<SubTask>>)
      requires Valid()
      modifies this`tasks, this`history, this`historyIndex
      ensures Valid()
      ensures var primary := PrimarySelected(old(tasks), selectedTaskIds);
        if primary.None? || generated.None? then
          tasks == old(tasks) && history == old(history) && historyIndex == old(historyIndex)
        else
          tasks == ReplaceSubtasks(old(tasks), primary.value.id, generated.value)
          && history == Pushed(old(history), old(historyIndex), tasks) && historyIndex == |history| - 1
    {
      var primary := PrimarySelected(tasks, selectedTaskIds);
      if primary.None? || generated.None? {
        return;
      }
      var next := ReplaceSubtasks(tasks, primary.value.id, generated.value);
      tasks := next;
      PushToHistory(next);
    }

    /** handleManualInject: the new task goes at the end of the registry.
        `roll` is `Math.floor(Math.random() * 9999)`. */
    method ManualInject(title: string, description: string, priority: Option<PriorityLevel>,
                        deps: string, roll: nat)
      requires Valid() && roll < 9999
      modifies this`tasks, this`history, this`historyIndex
      ensures Valid()
      ensures tasks == old(tasks) + [NewManualTask(title, description, priority, deps, roll)]
      ensures history == Pushed(old(history), old(historyIndex), tasks) && historyIndex == |history| - 1
    {
      var newTask := NewManualTask(title, description, priority, deps, roll);
      var nextTasks := tasks + [newTask];
      tasks := nextTasks;
      PushToHistory(nextTasks);
    }
  }
}
