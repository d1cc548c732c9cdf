/** The mission recap of components/MissionRecap.tsx: the four statistics,
    the blocker list and the outcome list, as functions of the registry. */
module Recap {
  import opened Types
  import opened Registry

  /** The `stats` memo (lines 15-21). */
  datatype MissionStats = MissionStats(total: nat, completed: nat, failed: nat, effectiveness: int)

  /** `tasks.filter(t => t.status === status).length`, counted directly. */
  function StatusCount(tasks: seq<Task>, status: TaskStatus): nat {
    if tasks == [] then 0
    else (if tasks[0].status == status then 1 else 0) + StatusCount(tasks[1..], status)
  }

  /** The direct count is the length of the filtered list. */
  lemma {:induction false} StatusCountIsFilterLength(tasks: seq<Task>, status: TaskStatus)
    ensures StatusCount(tasks, status) == |TasksWithStatus(tasks, status)|
  {
    if tasks != [] {
      StatusCountIsFilterLength(tasks[1..], status);
    }
  }

  /** DONE and FAILED are disjoint, so together they count at most every task. */
  lemma {:induction false} DoneAndFailedBounded(tasks: seq<Task>)
    ensures StatusCount(tasks, Done) + StatusCount(tasks, Failed) <= |tasks|
  {
    if tasks != [] {
      DoneAndFailedBounded(tasks[1..]);
    }
  }

  /** The statistics: `total` is the registry length, `completed` and
      `failed` are the lengths of the DONE and FAILED filters, and
      `effectiveness` is 0 on an empty registry and otherwise
      100·completed/total rounded to the nearest integer. */
  function Stats(tasks: seq<Task>): (s: MissionStats)
    ensures s.total == |tasks|
    ensures s.completed == |TasksWithStatus(tasks, Done)| && s.failed == |TasksWithStatus(tasks, Failed)|
    ensures s.completed + s.failed <= s.total
    ensures 0 <= s.effectiveness <= 100
    ensures s.total == 0 ==> s.effectiveness == 0
    ensures s.total > 0 ==>
      200 * s.completed - s.total < 2 * s.effectiveness * s.total <= 200 * s.completed + s.total
  {
    DoneAndFailedBounded(tasks);
    StatusCountIsFilterLength(tasks, Done);
    StatusCountIsFilterLength(tasks, Failed);
    var total := |tasks|;
    var completed := StatusCount(tasks, Done);
    var failed := StatusCount(tasks, Failed);
    MissionStats(total, completed, failed, if total > 0 then RoundPercent(completed, total) else 0)
  }

  /** A registry whose every task is DONE is 100% effective with nothing critical. */
  lemma AllDoneFullyEffective(tasks: seq<Task>)
    requires tasks != []
    requires forall i :: 0 <= i < |tasks| ==> tasks[i].status == Done
    ensures Stats(tasks).completed == Stats(tasks).total
    ensures Stats(tasks).failed == 0
    ensures Stats(tasks).effectiveness == 100
  {
    TasksWithStatusAll(tasks, Done);
    TasksWithStatusNone(tasks, Failed);
  }

  /** Two DONE and one FAILED task out of five give 40% effectiveness. */
  lemma TwoOfFive(a: Task, b: Task, c: Task, d: Task, e: Task)
    requires a.status == Done && b.status == Done && c.status == Failed
    requires d.status == Running && e.status == Pending
    ensures Stats([a, b, c, d, e]) == MissionStats(5, 2, 1, 40)
  {
    assert [a, b, c, d, e][1..] == [b, c, d, e];
    assert [b, c, d, e][1..] == [c, d, e];
    assert [c, d, e][1..] == [d, e];
    assert [d, e][1..] == [e];
    assert [e][1..] == [];
    assert StatusCount([e], Done) == 0;
    assert StatusCount([e], Failed) == 0;
    assert StatusCount([d, e], Done) == 0 && StatusCount([d, e], Failed) == 0;
    assert StatusCount([c, d, e], Done) == 0 && StatusCount([c, d, e], Failed) == 1;
    assert StatusCount([b, c, d, e], Done) == 1 && StatusCount([b, c, d, e], Failed) == 1;
    assert StatusCount([a, b, c, d, e], Done) == 2 && StatusCount([a, b, c, d, e], Failed) == 1;
  }

  /** The blocker cards (lines 85-90): the FAILED tasks in registry order.
      There are as many as the Critical statistic says. */
  function Blockers(tasks: seq<Task>): (r: seq<Task>)
    ensures IsSubsequence(r, tasks)
    ensures forall t :: t in r <==> t in tasks && t.status == Failed
    ensures |r| == Stats(tasks).failed
  {
    TasksWithStatus(tasks, Failed)
  }

  /** Whether the NO_IMPEDIMENTS placeholder is shown (line 91). */
  predicate ShowsNoImpediments(tasks: seq<Task>)
    ensures ShowsNoImpediments(tasks) <==> Stats(tasks).failed == 0
  {
    |Blockers(tasks)| == 0
  }

  /** The placeholder is shown exactly when no task has FAILED. */
  lemma NoImpedimentsIff(tasks: seq<Task>)
    ensures ShowsNoImpediments(tasks) <==> forall i :: 0 <= i < |tasks| ==> tasks[i].status != Failed
  {
    if !ShowsNoImpediments(tasks) {
      var b := Blockers(tasks);
      assert b[0] in b;
      var i :| 0 <= i < |tasks| && tasks[i] == b[0];
      assert tasks[i].status == Failed;
    } else {
      forall i | 0 <= i < |tasks|
        ensures tasks[i].status != Failed
      {
        assert tasks[i] in tasks;
        assert tasks[i] !in Blockers(tasks);
      }
    }
  }

  /** The colour of an outcome's status dot (line 72). */
  datatype OutcomeDot = Green | Red | Grey

  /** One entry of the Synthesized_Outcomes list. */
  datatype Outcome = Outcome(title: string, dot: OutcomeDot)

  /** `tasks.map(...)` of lines 70-75: one entry per task in order, green
      for DONE, red for FAILED, grey for the rest. */
  function Outcomes(tasks: seq<Task>): (r: seq<Outcome>)
    ensures |r| == |tasks|
    ensures forall i :: 0 <= i < |tasks| ==>
      r[i].title == tasks[i].title
      && (r[i].dot == Green <==> tasks[i].status == Done)
      && (r[i].dot == Red <==> tasks[i].status == Failed)
  {
    if tasks == [] then []
    else
      var t := tasks[0];
      var dot := if t.status == Done then Green else if t.status == Failed then Red else Grey;
      [Outcome(t.title, dot)] + Outcomes(tasks[1..])
  }

  /** How many entries carry dot `d`. */
  function DotCount(entries: seq<Outcome>, d: OutcomeDot): nat {
    if entries == [] then 0 else (if entries[0].dot == d then 1 else 0) + DotCount(entries[1..], d)
  }

  /** The outcome list agrees with the statistics: as many green dots as
      completed tasks and as many red dots as critical ones. */
  lemma {:induction false} OutcomesAgreeWithStats(tasks: seq<Task>)
    ensures DotCount(Outcomes(tasks), Green) == Stats(tasks).completed
    ensures DotCount(Outcomes(tasks), Red) == Stats(tasks).failed
  {
    if tasks != [] {
      OutcomesAgreeWithStats(tasks[1..]);
      assert Outcomes(tasks)[1..] == Outcomes(tasks[1..]);
    }
  }
}
