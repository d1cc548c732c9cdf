# Nexus DAG Forge — task registry, history and views in Dafny

Nexus DAG Forge is a browser application for authoring a workflow: an
ordered registry of tasks, each of which names the tasks it depends on.
It shows that registry four ways: a dependency graph, a kanban board, a
mission recap and an artifact repository. This project models the
application's deterministic core and proves properties of it:

- **Task records** (`types.dfy`, module `Types`). The enums and interfaces
  of `types.ts` become datatypes. Optional fields become `Option`, and an
  absent list reads as the empty list (`OrEmpty`).
- **JavaScript string behaviour** (`strings.dfy`, module `JsString`). This
  covers what the handlers and views rely on:
  - `split` and `trim`, with the ECMAScript whitespace set;
  - ASCII `toLowerCase` and `includes`;
  - decimal `toString` and `padStart`.
- **Registry transforms** (`registry.dfy`, module `Registry`). Each
  `map`/`filter`/spread expression inside an `App.tsx` event handler is a
  function from the old task list to the new one. Its contract states
  exactly which tasks change and how.
- **The bounded linear undo history** (`history.dfy`, module `History`).
  A history is a list of full snapshots and a cursor: push, keep the
  last 20, undo and redo.
- **The application state** (`app.dfy`, module `App`). Class `Workbench`
  holds these fields:
  - `tasks`, `history` and `historyIndex`;
  - `selectedTaskIds`;
  - `prompt` and `newCommentText`.

  One method per handler updates the fields in place. Every method keeps
  the invariant `Valid()`: the history is non-empty, holds at most 20
  snapshots, and the cursor is inside it.
- **The graph view** (`dag.dfy`, module `DagView`):
  - one node per task;
  - one edge per dependency whose source task exists, built by the same
    nested loops as `components/DAGVisualizer.tsx`;
  - each node's subtask progress and indicator dots.
- **The mission recap** (`recap.dfy`, module `Recap`). It covers the
  statistics, the blocker list and the outcome list.
- **The kanban board** (`board.dfy`, module `Board`). It covers the four
  columns, the owner label, the subtask dots and a card click.
- **The artifact repository** (`artifacts.dfy`, module `Artifacts`). It
  covers the flattened artifact list and its search and type filter.

The clock, `Math.random`, `window.confirm` and the AI service's replies
are parameters of the operations that use them:

- `nowMillis` is `Date.now()`.
- `stamp` is `new Date().toISOString()`. One reading serves every task that a status change updates (see "## Left out").
- `roll < 9999` is `Math.floor(Math.random() * 9999)`.
- `confirmed` is the user's answer to `window.confirm`.
- An `Option` carries the AI reply: `None` means the service call threw.

Handlers run one at a time.

The model follows the code on two points that are easy to misread:

- **Dependency parsing.** Dependency ids are split on commas, empty
  pieces are dropped and only then trimmed (App.tsx:323). So a piece made
  only of spaces survives as the empty id: `"T-001, "` parses to
  `["T-001", ""]` (`Registry.ParseTrailingBlank`).
- **Undo after a toggle.** Toggling a subtask changes `tasks` without
  pushing a snapshot (App.tsx:225-237). The next push records the toggled
  list, while the entry under the cursor is still the untoggled one. Undo
  after that edit therefore loads the untoggled list, not the registry as
  it was just before the pushing edit (`App.UndoSkipsToggle`). What holds
  is `History.UndoAfterPush`: undo lands on the snapshot that was under
  the cursor before the push, and redo returns to the pushed snapshot.

## Model

| member | source | states |
|---|---|---|
| `JsString.Trim` | App.tsx:323 | The result is a contiguous slice of the input. Only whitespace lies outside it, and it neither starts nor ends with whitespace. |
| `JsString.TrimEmptyIffBlank` | App.tsx:240 | Trimming gives the empty string exactly when the input has only whitespace characters. |
| `JsString.TrimsToEmpty` | App.tsx:265 | `!s.trim()` holds exactly when `s` has only whitespace characters. |
| `JsString.Split` | App.tsx:323 | `split(sep)` gives at least one piece, and no piece contains the separator. |
| `JsString.JoinSplit` | App.tsx:323 | Joining the pieces of a split with the same separator gives the string back. |
| `JsString.SplitJoin` | App.tsx:323 | Splitting a join of separator-free pieces gives the pieces back. |
| `JsString.SplitHead` | components/NeuralBoard.tsx:59 | The first piece of a split is a prefix of the string. It ends at the end of the string or just before a separator. |
| `JsString.ToLower` | components/ArtifactRepository.tsx:30-31 | Lower-casing keeps the length and maps each character on its own. |
| `JsString.Includes` | components/ArtifactRepository.tsx:30-31 | The empty needle is always included, and an included needle is no longer than the string; `IncludesIff` gives the full meaning. |
| `JsString.IncludesIff` | components/ArtifactRepository.tsx:30-31 | `includes` holds exactly when the needle occurs at some position of the string. |
| `JsString.NatToDecimal` | App.tsx:245 | The decimal text of a number is non-empty and all digits, with no leading zero unless the number is 0. `DecimalRoundTrip` reads it back as the number. |
| `JsString.DecimalUnique` | App.tsx:245 | It is the only such text: any digit string without a leading zero that reads back as `n` is the decimal text of `n`. |
| `JsString.DecimalRoundTrip` | App.tsx:318 | Reading back the decimal digits of `n` gives `n`. |
| `JsString.DecimalLength` | App.tsx:318 | A number below 9999 has at most four decimal digits. |
| `JsString.PadStart` | App.tsx:318 | `padStart` keeps the string as a suffix and fills only on the left with the pad character, up to the target length. |
| `Registry.TasksWithStatus` | components/NeuralBoard.tsx:22 | The status filter is an order-preserving subsequence. It holds a task exactly when that task is in the registry with that status. |
| `Registry.TasksWithStatusCount` | components/NeuralBoard.tsx:22 | Each task with the status occurs in the filter as often as in the registry; other tasks do not occur. |
| `Registry.TasksWithStatusAppend` | components/NeuralBoard.tsx:22 | Filtering a concatenation is the concatenation of the filters, so registry order is kept. |
| `Registry.TasksWithStatusAll` | components/MissionRecap.tsx:17 | When every task has the status, the filter returns the whole registry. |
| `Registry.SelectedTasks` | App.tsx:106 | The selected tasks are an order-preserving subsequence of the registry. They are exactly the tasks whose id is selected. |
| `Registry.SelectedTasksCount` | App.tsx:106 | Each selected task occurs in the selection as often as in the registry; unselected tasks do not occur. |
| `Registry.PrimarySelected` | App.tsx:107 | The primary task is present exactly when the selected-task filter has exactly one entry, and then it is that entry. |
| `Registry.RemoveId` | App.tsx:185 | Removing an id keeps the other ids in order, each as often as before, and drops every copy of that id. |
| `Registry.Select` | App.tsx:182-190 | A plain click selects only the clicked task. A multi-select click toggles the clicked id, appending it when it was absent, and leaves every other id's membership alone. Removing it keeps the other ids in order, each as often as before, and drops every copy of the clicked id. |
| `Registry.BulkSetStatus` | App.tsx:198-202 | Length, order and ids are kept. Exactly the selected tasks get the new status and timestamp, and nothing else about them changes. Unselected tasks are identical. |
| `Registry.SetStatus` | App.tsx:192-196 | The same holds for the tasks with one id. |
| `Registry.BulkSetStatusLastWins` | App.tsx:198-202 | Two bulk status changes of the same selection equal the last one alone. |
| `Registry.BulkSetPriority` | App.tsx:204-208 | Length, order and ids are kept. Exactly the selected tasks get the new priority, and only the priority changes, so `lastUpdated` is untouched. |
| `Registry.SetPriority` | App.tsx:219-223 | The same holds for the tasks with one id. |
| `Registry.BulkSetPriorityLastWins` | App.tsx:204-208 | Two bulk priority changes of the same selection equal the last one alone. |
| `Registry.DeleteSelected` | App.tsx:210-217 | Deletion keeps an order-preserving subsequence: exactly the unselected tasks, each unchanged, so no dependency list is edited. |
| `Registry.DeleteCount` | App.tsx:212 | The survivors and the selected tasks together are the registry, as a multiset and by count. Each unselected task survives as often as it occurs in the registry. |
| `Registry.DeleteAppend` | App.tsx:212 | Deleting from a concatenation is the concatenation of the deletions. |
| `Registry.ToggleIn` | App.tsx:228 | Ids and titles are kept. A subtask's `completed` flips exactly when its id is the toggled one. |
| `Registry.ToggleSubtask` | App.tsx:225-237 | Only tasks with the given id that have a subtask list change, and only in their subtasks. A task without subtasks is unchanged. |
| `Registry.ToggleSubtaskTwice` | App.tsx:225-237 | Toggling the same subtask twice restores the registry. |
| `Registry.ReplaceSubtasks` | App.tsx:306 | The tasks with the given id get the generated subtask list, and nothing else about them changes. Other tasks are identical. |
| `Registry.CompletedSubtasks` | components/DAGVisualizer.tsx:34 | `filter(s => s.completed)` is an order-preserving subsequence holding each completed subtask as often as the list does, and no other. |
| `Registry.CompletedCount` | components/DAGVisualizer.tsx:34 | The completed count is at most the number of subtasks, and equal to it exactly when all are completed. |
| `Registry.CompletedCountIsFilterLength` | components/DAGVisualizer.tsx:34 | The completed count is the length of the completed-subtask filter. |
| `Registry.RoundPercent` | components/DAGVisualizer.tsx:35 | The result is 100·num/den rounded to the nearest integer, halves up. It lies in [0,100] when num ≤ den, and is 100 when num = den. |
| `Registry.NewComment` | App.tsx:242-247 | The new comment has author `Operator`, the text as typed, timestamp `Just now`, and an id of `C-` followed by digits that read back as `nowMillis`, with no leading zero unless `nowMillis` is 0. |
| `Registry.AppendComment` | App.tsx:249-257 | Exactly one comment is appended at the end of the target task's comments, an absent list counting as empty. Nothing else changes. |
| `Registry.DropEmpty` | App.tsx:323 | `.filter(Boolean)` keeps, in order, exactly the non-empty pieces. |
| `Registry.DropEmptyCount` | App.tsx:323 | Each non-empty piece is kept as often as it occurs, so a repeated dependency stays repeated; the empty piece does not occur. |
| `Registry.TrimEach` | App.tsx:323 | The result holds each piece trimmed, position by position. |
| `Registry.ParseDependencies` | App.tsx:323 | No parsed id contains a comma. Every parsed id is empty or starts and ends with a non-whitespace character. |
| `Registry.ParseDependenciesOfJoin` | App.tsx:323 | Comma-free pieces joined by commas parse back to the non-empty pieces, trimmed, in order. |
| `Registry.ParsePair` | App.tsx:323 | Two non-empty comma-free pieces around one comma parse to both pieces, trimmed. |
| `Registry.ParseTwoDependencies` | App.tsx:323 | `"a, b"` parses to `[a, b]` for clean ids. |
| `Registry.ParseTrailingBlank` | App.tsx:323 | `"a, "` parses to `[a, ""]`, because the blank piece is trimmed only after the empties were dropped. |
| `Registry.ManualTaskId` | App.tsx:318 | The id is `T-` followed by exactly four digits that read back as the roll. |
| `Registry.NewManualTask` | App.tsx:317-326 | The injected task is PENDING and carries the form's title, description and parsed dependencies. Priority defaults to MEDIUM. Subtasks are empty, the owner is `Manual_Operator`, and there are no comments or artifacts. |
| `History.KeepLast` | App.tsx:133 | `slice(-n)` gives the last `min(n, len)` elements. |
| `History.KeepLastAppend` | App.tsx:133 | Keeping the last `n` before appending, and again after, equals keeping the last `n` once. |
| `History.Pushed` | App.tsx:130-137 | A push gives a valid history whose last entry is the new snapshot. The entries before it are the old ones up to the cursor; the redo branch is dropped. Its length is `min(cursor + 2, 20)`. |
| `History.UndoAfterPush` | App.tsx:130-153 | Right after a push, undo lands on the snapshot that was under the cursor, and redo from there returns the pushed snapshot. |
| `History.PushAllKeepsRecent` | App.tsx:130-137 | After any number of pushes, the history is the last 20 of: the old entries up to the cursor, then every pushed snapshot in order. |
| `App.InitialTasks` | App.tsx:47-80 | INITIAL_TASKS holds T-001 (DONE, no dependencies) and then T-002 (RUNNING, depending on T-001). |
| `App.UndoSkipsToggle` | App.tsx:225-237 | After a subtask toggle and then a push, undo loads a list that differs from the toggled registry, i.e. from the state just before the pushing edit. |
| `App.Workbench.constructor` | App.tsx:83-88 | The initial state is INITIAL_TASKS, a one-snapshot history with cursor 0, no selection and empty text fields. The invariant holds. |
| `App.Workbench.PushToHistory` | App.tsx:130-137 | The history becomes `Pushed` of the old history and cursor, and the cursor points at the new snapshot. The invariant is kept; `tasks` is not touched. |
| `App.Workbench.Undo` | App.tsx:139-145 | At cursor 0 nothing changes. Otherwise the cursor moves back one and `tasks` is that snapshot. The invariant is kept. |
| `App.Workbench.Redo` | App.tsx:147-153 | At the last snapshot nothing changes. Otherwise the cursor moves forward one and `tasks` is that snapshot. The invariant is kept. |
| `App.Workbench.JumpTo` | App.tsx:515 | A timeline click sets the cursor to the button's index and loads that snapshot. The invariant is kept. |
| `App.Workbench.SelectTask` | App.tsx:182-190 | The selection becomes `Select` of the old selection. |
| `App.Workbench.UpdateStatus` | App.tsx:192-196 | `tasks` becomes `SetStatus` of the old registry, and that list is pushed. |
| `App.Workbench.BulkUpdateStatus` | App.tsx:198-202 | `tasks` becomes `BulkSetStatus` over the selection, and that list is pushed. |
| `App.Workbench.BulkUpdatePriority` | App.tsx:204-208 | `tasks` becomes `BulkSetPriority` over the selection, and that list is pushed. |
| `App.Workbench.UpdatePriority` | App.tsx:219-223 | `tasks` becomes `SetPriority` of the old registry, and that list is pushed. |
| `App.Workbench.BulkDelete` | App.tsx:210-217 | Unconfirmed, nothing changes. Confirmed, the unselected tasks remain, the selection is cleared, and the result is pushed. |
| `App.Workbench.ToggleSubtaskOf` | App.tsx:225-237 | Only `tasks` changes, to `ToggleSubtask` of it; no snapshot is pushed. |
| `App.Workbench.SetCommentText` | App.tsx:653 | The comment box holds the typed text. |
| `App.Workbench.AddComment` | App.tsx:239-262 | With blank text or no single selected task, nothing changes. Otherwise the comment is appended to the primary task, the text box is cleared, and the result is pushed. |
| `App.Workbench.SetPrompt` | App.tsx:452 | The prompt box holds the typed text. |
| `App.Workbench.GenerateAI` | App.tsx:264-281 | With a blank prompt, nothing changes. Otherwise the prompt is cleared. A non-empty generated list replaces the registry, is pushed and clears the selection. An empty list or a failed call leaves the registry, history and selection alone. |
| `App.Workbench.AISuggestSubtasks` | App.tsx:301-312 | With no single selected task or a failed call, nothing changes. Otherwise the generated subtasks replace the primary task's subtasks and the result is pushed. |
| `App.Workbench.ManualInject` | App.tsx:314-331 | The new manual task is appended at the end of the registry, and the result is pushed. |
| `DagView.Nodes` | components/DAGVisualizer.tsx:107-110 | There is one node per task, in order, with node id = task id. `selected` is true exactly when the id is selected. |
| `DagView.Find` | components/DAGVisualizer.tsx:115 | `find` returns a registry task with that id, and returns nothing exactly when no task has it. |
| `DagView.FindFirst` | components/DAGVisualizer.tsx:115 | When several tasks share the id, `find` returns the first of them. |
| `DagView.EdgeFrom` | components/DAGVisualizer.tsx:118-127 | The edge has id `e-dep-target`, source = dependency and target = dependent. It is animated iff the source is RUNNING or DONE, and has class `animated-liquid` iff RUNNING. The marker is emerald for DONE and blue otherwise. The stroke is emerald for DONE, blue for RUNNING and faint grey otherwise. |
| `DagView.Edges` | components/DAGVisualizer.tsx:112-130 | Every edge comes from a (task, dependency) pair whose source exists, and every such pair has its edge. |
| `DagView.EdgesCount` | components/DAGVisualizer.tsx:112-130 | There is exactly one edge per (task, dependency) pair whose source exists. |
| `DagView.DependencyEdgesPrefix` | components/DAGVisualizer.tsx:114-129 | Within a task, the edges of earlier dependencies come before those of later ones. |
| `DagView.DependencyEdgesTarget` | components/DAGVisualizer.tsx:121 | Every edge pushed for a task has that task as its target. |
| `DagView.EdgesUpToPrefix` | components/DAGVisualizer.tsx:113-130 | The edges of the first i tasks are a prefix of the edges of the first n tasks. |
| `DagView.EdgesUpToLater` | components/DAGVisualizer.tsx:113-130 | After the edges of the first i tasks come only edges into tasks i to n-1. So the edges follow task order. |
| `DagView.BuildEdges` | components/DAGVisualizer.tsx:112-130 | The nested loops produce exactly `Edges(tasks)`, in task order and then dependency order. |
| `DagView.PushDependencyEdges` | components/DAGVisualizer.tsx:114-129 | The inner loop appends exactly the edges of the task's dependencies whose source exists. |
| `DagView.EdgesSound` | components/DAGVisualizer.tsx:113-117 | Every edge comes from a (task, dependency) pair whose dependency id is in the registry, with attributes taken from that source task. A dangling dependency gives no edge. |
| `DagView.EdgesComplete` | components/DAGVisualizer.tsx:113-117 | Every dependency whose id is in the registry has its edge. |
| `DagView.EmptyGraph` | components/DAGVisualizer.tsx:102 | An empty registry has no nodes and no edges. |
| `DagView.Progress` | components/DAGVisualizer.tsx:31-36 | Progress is in [0,100]. It is 100 for DONE, 0 without subtasks, and otherwise 100·completed/total rounded to nearest. |
| `DagView.Dots` | components/DAGVisualizer.tsx:79-81 | There are four dots, and dot i is lit iff progress > 25·i. |
| `DagView.DotsPrefix` | components/DAGVisualizer.tsx:79-81 | The lit dots form a prefix. All four are lit iff progress > 75, and none iff progress ≤ 0. |
| `Recap.DoneAndFailedBounded` | components/MissionRecap.tsx:16-18 | DONE and FAILED tasks together are at most the registry size. |
| `Recap.Stats` | components/MissionRecap.tsx:15-21 | `total` is the registry length. `completed` and `failed` are the DONE and FAILED counts, and `completed + failed <= total`. `effectiveness` is 0 for an empty registry, and otherwise 100·completed/total rounded to nearest, within [0,100]. |
| `Recap.AllDoneFullyEffective` | components/MissionRecap.tsx:19 | A non-empty all-DONE registry has effectiveness 100 and nothing critical. |
| `Recap.TwoOfFive` | components/MissionRecap.tsx:19 | Two DONE and one FAILED of five give the statistics (5, 2, 1, 40). |
| `Recap.Blockers` | components/MissionRecap.tsx:85-90 | The blockers are exactly the FAILED tasks, in registry order, as many as the Critical statistic. |
| `Recap.ShowsNoImpediments` | components/MissionRecap.tsx:91 | The placeholder shows exactly when the Critical statistic is 0. |
| `Recap.NoImpedimentsIff` | components/MissionRecap.tsx:91-93 | NO_IMPEDIMENTS is shown exactly when no task has FAILED. |
| `Recap.Outcomes` | components/MissionRecap.tsx:70-75 | There is one outcome per task, in order, with its title. The dot is green iff DONE, red iff FAILED, and grey otherwise. |
| `Recap.OutcomesAgreeWithStats` | components/MissionRecap.tsx:70-74 | There are as many green dots as the Completed statistic and as many red dots as the Critical one. |
| `Board.ColumnOf` | components/NeuralBoard.tsx:12-17 | Each status has exactly one of the four fixed columns. |
| `Board.View` | components/NeuralBoard.tsx:22-75 | A column's cards are exactly its status's tasks, in registry order. The header count is the number of cards, and Zone_Empty shows iff it is 0. |
| `Board.Render` | components/NeuralBoard.tsx:21-22 | Four column views, in the fixed order BACKLOG, PROCESSING, COMMITTED, HALTED. |
| `Board.ExactlyOneColumn` | components/NeuralBoard.tsx:22 | A registry task is a card of column i exactly when i is the column of its status. |
| `Board.ColumnsPartition` | components/NeuralBoard.tsx:12-22 | The header counts add up to the registry size, and the columns' cards together are the registry as a multiset. |
| `Board.OwnerLabel` | components/NeuralBoard.tsx:59 | The label is `UNASSIGNED` for an absent owner or one starting with `_`. Otherwise it is the owner's non-empty prefix before the first `_`. |
| `Board.SubtaskDots` | components/NeuralBoard.tsx:63-65 | A card shows min(3, subtask count) dots. Dot i is lit iff i is below the number of completed subtasks in the whole list. |
| `Board.SubtaskDotsPrefix` | components/NeuralBoard.tsx:63-64 | The lit dots form a prefix. All shown dots are lit iff the completed count is at least the number of dots. |
| `Board.CardClick` | components/NeuralBoard.tsx:37 | A card click selects that task alone. |
| `Artifacts.Tagged` | components/ArtifactRepository.tsx:25 | A task's entries are its artifacts in order, an absent list counting as empty. Each entry is tagged with the task's title and id. |
| `Artifacts.TagAll` | components/ArtifactRepository.tsx:25 | Tagging maps each artifact, position by position. |
| `Artifacts.AllArtifacts` | components/ArtifactRepository.tsx:24-26 | The flattened list's length is the sum of the per-task artifact counts. |
| `Artifacts.AllArtifactsSingle` | components/ArtifactRepository.tsx:24-26 | A single task's contribution is its tagged artifacts in their own order. With the append lemma, this fixes the whole flattened order. |
| `Artifacts.AllArtifactsAppend` | components/ArtifactRepository.tsx:24-26 | Flattening distributes over concatenation, so earlier tasks' artifacts come first. |
| `Artifacts.AllArtifactsMembers` | components/ArtifactRepository.tsx:24-26 | An entry is in the flattened list exactly when it is an artifact of some registry task, tagged with that task. |
| `Artifacts.FilteredArtifacts` | components/ArtifactRepository.tsx:28-35 | The filtered list is an order-preserving subsequence. It holds an entry exactly when that entry matches both the search and the type filter, and then as often as the flattened list does. |
| `Artifacts.MatchesSearch` | components/ArtifactRepository.tsx:30-31 | The search matches exactly when the lower-cased term occurs in the lower-cased label or parent title. |
| `Artifacts.MatchesFilter` | components/ArtifactRepository.tsx:32 | Filter `all` matches every entry; a type filter matches exactly the entries of that type. |
| `Artifacts.EmptyTermMatches` | components/ArtifactRepository.tsx:30-31 | The empty term matches every entry. |
| `Artifacts.EmptySearchKeepsAll` | components/ArtifactRepository.tsx:28-35 | With an empty search and filter `all`, every artifact is listed. |
| `Artifacts.OnlyKeepsKind` | components/ArtifactRepository.tsx:32 | A type filter other than `all` keeps only artifacts of exactly that type. |
| `Artifacts.FilteredAppend` | components/ArtifactRepository.tsx:28-35 | Filtering distributes over concatenation. |

## Left out

- Graph layout: the dagre graph, its layout and the ReactFlow rendering (components/DAGVisualizer.tsx:103-105, 132-158) produce floating-point positions from an external library. Nodes and edges are modelled without positions.
- AI service: services/geminiService.ts is calls into a hosted model's SDK. Its results are parameters of the synchronous step that uses them.
- App.Workbench.AISuggestSubtasks: App.tsx:45 imports `generateSubtasks` (and `enhanceTask`), but services/geminiService.ts exports neither. So, as shipped, the call at App.tsx:305 cannot succeed, and only the `None` branch is reachable. The `Some` branch models the service the handler is written against.
- Asynchrony: awaiting those calls and the in-flight flags (`isGenerating`, `isGeneratingSubtasks`, `isEnhancingForm`) are UI timing and are not modelled.
- handleAISuggest (App.tsx:283-299) only writes AI text into the DOM form fields. It is not modelled, because it changes no application state.
- Persistence: handleSaveWorkflow and handleLoadWorkflow (App.tsx:155-180) are browser storage and JSON parsing. They are not modelled.
- Export: the export menu's actions are empty functions (App.tsx:708), so there is nothing to model.
- The notification timer (App.tsx:122-128) and the artifact repository's random checksum are not modelled, because they are timing and randomness of display only.
- React batching and stale closures are not modelled. Handlers run one at a time against the current state.
- Registry.BulkSetStatus: App.tsx:199 calls `new Date().toISOString()` inside the `map` callback, so each updated task reads the clock separately. The model passes one `stamp` that all of them share. Readings taken in the same synchronous loop can still differ at a millisecond boundary, and the model does not capture that.
- Registry.SetStatus: the same single `stamp` stands in for the per-task clock readings at App.tsx:193.
- Registry.RoundPercent: `Math.round((c / t) * 100)` on binary floating point is modelled as exact rational rounding, halves up. The two can differ when the float product falls just below a half, for example 29/200.
- JsString.ToLower: only ASCII `A`–`Z` are lower-cased. Unicode case mapping is not modelled.
- The App header statistics (App.tsx:99-104), the sidebar's subtask progress (App.tsx:109-120) and the sidebar's priority select default (App.tsx:540) are not modelled. They are display-only counts built the same way as the recap and graph ones.
- MissionRecap's AI report panel and prompt fallback text, TaskNode's owner text and NEURAL_ID line, and the board's priority badge are not modelled, because they are display text.
- Styling, icons and animations are not modelled.
- UI visibility flags (`isSidebarOpen`, `isCreatingTask`, `isExportOpen`, `lassoEnabled`) are not modelled, because they only show or hide panels.
- components/AgentChatOverlay.tsx and components/NeuralTerminal.tsx are display over the AI service and the log. They are not part of this model.
