/** The task registry's record types: one datatype per interface and enum
    of types.ts. Optional fields of the TypeScript interfaces are `Option`s. */
module Types {

  datatype Option<+T> = None | Some(value: T) {
    /** JavaScript's `x || fallback` on an optional value */
    function GetOr(default: T): T {
      match this
      case Some(v) => v
      case None => default
    }
  }

  /** The four values of the `TaskStatus` enum */
  datatype TaskStatus = Pending | Running | Done | Failed

  /** `PriorityLevel`: 'LOW' | 'MEDIUM' | 'HIGH' */
  datatype PriorityLevel = Low | Medium | High

  datatype SubTask = SubTask(id: string, title: string, completed: bool)

  datatype TaskComment = TaskComment(id: string, author: string, text: string, timestamp: string)

  /** `Artifact.type`: 'code' | 'log' | 'json' | 'link' */
  datatype ArtifactType = Code | Log | Json | Link

  /** `label` is a Dafny keyword, so the field is `labelText`. */
  datatype Artifact = Artifact(id: string, kind: ArtifactType, labelText: string, content: string)

  /** A registry entry. `id`, `title`, `description`, `status` and
      `dependencies` are required; every other field may be absent. */
  datatype Task = Task(
    id: string,
    title: string,
    description: string,
    status: TaskStatus,
    dependencies: seq<string>,
    owner: Option<string>,
    duration: Option<string>,
    lastUpdated: Option<string>,
    subtasks: Option<seq<SubTask>>,
    comments: Option<seq<TaskComment>>,
    artifacts: Option<seq<Artifact>>,
    priority: Option<PriorityLevel>)

  /** An absent list is read as the empty list (`t.comments || []`). */
  function OrEmpty<T>(o: Option<seq<T>>): seq<T> {
    o.GetOr([])
  }

  /** `sub` is obtained from `s` by deleting elements, keeping the order. */
  predicate IsSubsequence<T(==)>(sub: seq<T>, s: seq<T>)
    decreases |s|
  {
    if sub == [] then true
    else if s == [] then false
    else if sub[0] == s[0] then IsSubsequence(sub[1..], s[1..])
    else IsSubsequence(sub, s[1..])
  }
}
