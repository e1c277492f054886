/** The scoring rules of backend/app/services.py: the delay predicate, the
    dashboard counters, the low-activity count and idea progress. The wall clock
    is the parameter `now` (seconds); a query over a table is a filter over the
    store's sequence for that table. */
module Services {
  import opened Common
  import opened Text
  import opened Enums
  import opened Records

  // ---------------------------------------------------------------------------
  // Delay

  /** A task is late when its due month sorts strictly before `month` and it is
      not completed. Months are compared as strings. */
  predicate IsDelayed(t: Task, month: string) {
    LexLess(t.dueMonth, month) && t.status != "completed"
  }

  function DelayedAt(month: string): Task -> bool { (t: Task) => IsDelayed(t, month) }

  /** Once late, a task stays late in every later month, and a completed task is
      never late. */
  lemma DelayPersists(t: Task, m1: string, m2: string)
    requires IsDelayed(t, m1)
    requires m1 == m2 || LexLess(m1, m2)
    ensures IsDelayed(t, m2)
    ensures t.status != "completed"
  {
    if m1 != m2 {
      LexLessTransitive(t.dueMonth, m1, m2);
    }
  }

  /** A task due in the current month or later is not late. */
  lemma NotDelayedWhenDueNowOrLater(t: Task, month: string)
    requires t.dueMonth == month || LexLess(month, t.dueMonth)
    ensures !IsDelayed(t, month)
  {
    if t.dueMonth == month {
      LexLessIrreflexive(month);
    } else {
      LexLessAsymmetric(month, t.dueMonth);
    }
  }

  // ---------------------------------------------------------------------------
  // Scoping

  // Each query condition is produced by one named function, so that a filter and
  // a lemma about it use the same predicate value.

  function IdeaInWorkspace(ws: string): Idea -> bool { (i: Idea) => i.workspaceId == ws }
  function TaskInWorkspace(ws: string): Task -> bool { (t: Task) => t.workspaceId == ws }
  function TaskOfIdea(ws: string, ideaId: string): Task -> bool {
    (t: Task) => t.workspaceId == ws && t.ideaId == ideaId
  }
  function DeliverableOfIdea(ws: string, ideaId: string): Deliverable -> bool {
    (d: Deliverable) => d.workspaceId == ws && d.ideaId == ideaId
  }
  function LogOfIdea(ws: string, ideaId: string): UpdateLog -> bool {
    (l: UpdateLog) => l.workspaceId == ws && l.ideaId == ideaId
  }

  function WorkspaceIdeas(ideas: seq<Idea>, ws: string): seq<Idea> { Filter(ideas, IdeaInWorkspace(ws)) }
  function WorkspaceTasks(tasks: seq<Task>, ws: string): seq<Task> { Filter(tasks, TaskInWorkspace(ws)) }
  function IdeaTasks(tasks: seq<Task>, ws: string, ideaId: string): seq<Task> {
    Filter(tasks, TaskOfIdea(ws, ideaId))
  }
  function IdeaDeliverables(ds: seq<Deliverable>, ws: string, ideaId: string): seq<Deliverable> {
    Filter(ds, DeliverableOfIdea(ws, ideaId))
  }
  function IdeaLogs(logs: seq<UpdateLog>, ws: string, ideaId: string): seq<UpdateLog> {
    Filter(logs, LogOfIdea(ws, ideaId))
  }

  // ---------------------------------------------------------------------------
  // Low activity

  /** In-progress tasks of the workspace. */
  function IsActiveIn(ws: string): Task -> bool {
    (t: Task) => t.workspaceId == ws && t.status == "in_progress"
  }

  function ActiveTasks(tasks: seq<Task>, ws: string): seq<Task> {
    Filter(tasks, IsActiveIn(ws))
  }

  function IdeaNotIn(recent: set<string>): Task -> bool { (t: Task) => t.ideaId !in recent }

  /** Ideas of the workspace with at least one log created at or after `cutoff`. */
  function RecentIdeaIds(logs: seq<UpdateLog>, ws: string, cutoff: int): set<string> {
    set l | l in logs && l.workspaceId == ws && l.createdAt >= cutoff :: l.ideaId
  }

  /** No log of the workspace for idea `ideaId` was created at or after `cutoff`. */
  predicate Quiet(logs: seq<UpdateLog>, ws: string, ideaId: string, cutoff: int) {
    forall l :: l in logs && l.workspaceId == ws && l.ideaId == ideaId ==> l.createdAt < cutoff
  }

  /** The reference condition, task by task: in progress in the workspace, and
      its idea quiet for the fourteen days before `now`. */
  function StaleActiveIn(logs: seq<UpdateLog>, ws: string, now: int): Task -> bool {
    (t: Task) => t.workspaceId == ws && t.status == "in_progress" && Quiet(logs, ws, t.ideaId, now - FourteenDays)
  }

  /** An idea is among the recent ones exactly when it is not quiet. */
  lemma RecentIffNotQuiet(logs: seq<UpdateLog>, ws: string, ideaId: string, cutoff: int)
    ensures ideaId in RecentIdeaIds(logs, ws, cutoff) <==> !Quiet(logs, ws, ideaId, cutoff)
  {
    if !Quiet(logs, ws, ideaId, cutoff) {
      var l :| l in logs && l.workspaceId == ws && l.ideaId == ideaId && l.createdAt >= cutoff;
      assert l.ideaId in RecentIdeaIds(logs, ws, cutoff);
    }
  }

  /** Number of in-progress tasks of the workspace whose idea has no log in the
      fourteen days before `now`. */
  function LowActivityTaskCount(tasks: seq<Task>, logs: seq<UpdateLog>, ws: string, now: int): (n: nat)
    ensures n <= |ActiveTasks(tasks, ws)|
    ensures n == Count(tasks, StaleActiveIn(logs, ws, now))
  {
    var active := ActiveTasks(tasks, ws);
    var recent := RecentIdeaIds(logs, ws, now - FourteenDays);
    LowActivityIsStaleCount(tasks, logs, ws, now);
    if |active| == 0 then 0
    else Count(active, IdeaNotIn(recent))
  }

  /** Counting the quiet ideas among the active tasks is counting stale tasks. */
  lemma LowActivityIsStaleCount(tasks: seq<Task>, logs: seq<UpdateLog>, ws: string, now: int)
    ensures Count(ActiveTasks(tasks, ws), IdeaNotIn(RecentIdeaIds(logs, ws, now - FourteenDays)))
      == Count(tasks, StaleActiveIn(logs, ws, now))
  {
    var recent := RecentIdeaIds(logs, ws, now - FourteenDays);
    forall i | 0 <= i < |tasks|
      ensures StaleActiveIn(logs, ws, now)(tasks[i]) == (IsActiveIn(ws)(tasks[i]) && IdeaNotIn(recent)(tasks[i]))
    {
      RecentIffNotQuiet(logs, ws, tasks[i].ideaId, now - FourteenDays);
    }
    FilterFilter(tasks, IsActiveIn(ws), IdeaNotIn(recent), StaleActiveIn(logs, ws, now));
  }

  /** A new log never raises the low-activity count. */
  lemma LowActivityAddLog(tasks: seq<Task>, logs: seq<UpdateLog>, l: UpdateLog, ws: string, now: int)
    ensures LowActivityTaskCount(tasks, logs + [l], ws, now) <= LowActivityTaskCount(tasks, logs, ws, now)
  {
    forall i | 0 <= i < |tasks|
      ensures StaleActiveIn(logs + [l], ws, now)(tasks[i]) ==> StaleActiveIn(logs, ws, now)(tasks[i])
    {
      if StaleActiveIn(logs + [l], ws, now)(tasks[i]) {
        forall x | x in logs && x.workspaceId == ws && x.ideaId == tasks[i].ideaId
          ensures x.createdAt < now - FourteenDays
        {
          assert x in logs + [l];
        }
      }
    }
    CountMono(tasks, StaleActiveIn(logs + [l], ws, now), StaleActiveIn(logs, ws, now));
  }

  /** A log of another workspace, or one older than fourteen days, changes nothing. */
  lemma LowActivityIgnoresOldLog(tasks: seq<Task>, logs: seq<UpdateLog>, l: UpdateLog, ws: string, now: int)
    requires l.workspaceId != ws || l.createdAt < now - FourteenDays
    ensures LowActivityTaskCount(tasks, logs + [l], ws, now) == LowActivityTaskCount(tasks, logs, ws, now)
  {
    forall i | 0 <= i < |tasks|
      ensures StaleActiveIn(logs + [l], ws, now)(tasks[i]) == StaleActiveIn(logs, ws, now)(tasks[i])
    {
      if StaleActiveIn(logs, ws, now)(tasks[i]) {
        forall x | x in logs + [l] && x.workspaceId == ws && x.ideaId == tasks[i].ideaId
          ensures x.createdAt < now - FourteenDays
        {
          if x != l {
            assert x in logs;
          }
        }
      }
      if StaleActiveIn(logs + [l], ws, now)(tasks[i]) {
        forall x | x in logs && x.workspaceId == ws && x.ideaId == tasks[i].ideaId
          ensures x.createdAt < now - FourteenDays
        {
          assert x in logs + [l];
        }
      }
    }
    FilterSame(tasks, StaleActiveIn(logs + [l], ws, now), StaleActiveIn(logs, ws, now));
  }

  /** Stale tasks of one idea. */
  function StaleOfIdea(logs: seq<UpdateLog>, ws: string, now: int, ideaId: string): Task -> bool {
    (t: Task) => StaleActiveIn(logs, ws, now)(t) && t.ideaId == ideaId
  }

  /** A recent log of the workspace takes exactly its idea's stale tasks off the
      count. */
  lemma LowActivityRecentLog(tasks: seq<Task>, logs: seq<UpdateLog>, l: UpdateLog, ws: string, now: int)
    requires l.workspaceId == ws && l.createdAt >= now - FourteenDays
    ensures LowActivityTaskCount(tasks, logs + [l], ws, now) + Count(tasks, StaleOfIdea(logs, ws, now, l.ideaId))
      == LowActivityTaskCount(tasks, logs, ws, now)
  {
    forall i | 0 <= i < |tasks|
      ensures StaleActiveIn(logs, ws, now)(tasks[i])
        == (StaleActiveIn(logs + [l], ws, now)(tasks[i]) || StaleOfIdea(logs, ws, now, l.ideaId)(tasks[i]))
      ensures !(StaleActiveIn(logs + [l], ws, now)(tasks[i]) && StaleOfIdea(logs, ws, now, l.ideaId)(tasks[i]))
    {
      assert l in logs + [l];
      if StaleActiveIn(logs, ws, now)(tasks[i]) && tasks[i].ideaId != l.ideaId {
        forall x | x in logs + [l] && x.workspaceId == ws && x.ideaId == tasks[i].ideaId
          ensures x.createdAt < now - FourteenDays
        {
          if x != l {
            assert x in logs;
          }
        }
      }
      if StaleActiveIn(logs + [l], ws, now)(tasks[i]) {
        forall x | x in logs && x.workspaceId == ws && x.ideaId == tasks[i].ideaId
          ensures x.createdAt < now - FourteenDays
        {
          assert x in logs + [l];
        }
      }
    }
    CountDisjoint(tasks, StaleActiveIn(logs + [l], ws, now), StaleOfIdea(logs, ws, now, l.ideaId),
                  StaleActiveIn(logs, ws, now));
  }

  /** When every in-progress task's idea has a recent log, nothing is low-activity. */
  lemma LowActivityZeroWhenAllRecent(tasks: seq<Task>, logs: seq<UpdateLog>, ws: string, now: int)
    requires forall t :: t in ActiveTasks(tasks, ws) ==>
      exists l :: l in logs && l.workspaceId == ws && l.ideaId == t.ideaId && l.createdAt >= now - FourteenDays
    ensures LowActivityTaskCount(tasks, logs, ws, now) == 0
  {
    var active := ActiveTasks(tasks, ws);
    if |active| > 0 {
      var recent := RecentIdeaIds(logs, ws, now - FourteenDays);
      forall i | 0 <= i < |active|
        ensures active[i].ideaId in recent
      {
        assert active[i] in active;
        var l :| l in logs && l.workspaceId == ws && l.ideaId == active[i].ideaId && l.createdAt >= now - FourteenDays;
        assert l.ideaId in recent;
      }
      FilterNone(active, IdeaNotIn(recent));
    }
  }

  /** With no recent log in the workspace, every in-progress task counts. */
  lemma LowActivityAllWhenNoRecentLog(tasks: seq<Task>, logs: seq<UpdateLog>, ws: string, now: int)
    requires forall l :: l in logs && l.workspaceId == ws ==> l.createdAt < now - FourteenDays
    ensures LowActivityTaskCount(tasks, logs, ws, now) == |ActiveTasks(tasks, ws)|
  {
    var active := ActiveTasks(tasks, ws);
    if |active| > 0 {
      var recent := RecentIdeaIds(logs, ws, now - FourteenDays);
      assert recent == {};
      FilterAll(active, IdeaNotIn(recent));
    }
  }

  // ---------------------------------------------------------------------------
  // Dashboard

  datatype Dashboard = Dashboard(statusCounts: map<string, nat>, totalIdeas: nat, delayed: nat, lowActivity: nat)

  function HasStatus(v: string): Idea -> bool { (i: Idea) => i.status == v }
  function StatusIn(vs: seq<string>): Idea -> bool { (i: Idea) => i.status in vs }

  function StatusCount(ideas: seq<Idea>, v: string): nat {
    Count(ideas, HasStatus(v))
  }

  /** The sum of the per-status counts over the listed statuses. */
  function SumStatusCounts(ideas: seq<Idea>, vs: seq<string>): nat {
    if |vs| == 0 then 0 else StatusCount(ideas, vs[0]) + SumStatusCounts(ideas, vs[1..])
  }

  predicate Distinct<T(==)>(s: seq<T>) {
    forall i, j :: 0 <= i < j < |s| ==> s[i] != s[j]
  }

  /** Summing the counts of distinct statuses counts the ideas whose status is
      one of them. */
  lemma {:induction false} SumStatusCountsIsKnownCount(ideas: seq<Idea>, vs: seq<string>)
    requires Distinct(vs)
    ensures SumStatusCounts(ideas, vs) == Count(ideas, StatusIn(vs))
  {
    if |vs| > 0 {
      var rest := vs[1..];
      SumStatusCountsIsKnownCount(ideas, rest);
      forall k | 0 <= k < |ideas|
        ensures (ideas[k].status in vs) == (ideas[k].status == vs[0] || ideas[k].status in rest)
        ensures !(ideas[k].status == vs[0] && ideas[k].status in rest)
      {
        assert vs == [vs[0]] + rest;
        if ideas[k].status in rest {
          var j :| 0 <= j < |rest| && rest[j] == ideas[k].status;
          assert vs[j + 1] == rest[j];
        }
      }
      CountDisjoint(ideas, HasStatus(vs[0]), StatusIn(rest), StatusIn(vs));
    } else {
      FilterNone(ideas, StatusIn(vs));
    }
  }

  /** dashboard_counts: per-status idea counts (every status value present, zero
      when unused), their total, the late tasks and the low-activity count. */
  function DashboardCounts(s: Store, ws: string, month: string, now: int): (r: Dashboard)
    ensures forall v :: v in r.statusCounts <==> v in ItemStatusValues
    ensures forall v :: v in r.statusCounts ==> r.statusCounts[v] == StatusCount(WorkspaceIdeas(s.ideas, ws), v)
    ensures r.totalIdeas == SumStatusCounts(WorkspaceIdeas(s.ideas, ws), ItemStatusValues)
    ensures r.totalIdeas == Count(WorkspaceIdeas(s.ideas, ws), StatusIn(ItemStatusValues))
    ensures r.totalIdeas <= |WorkspaceIdeas(s.ideas, ws)|
    ensures r.delayed == Count(WorkspaceTasks(s.tasks, ws), DelayedAt(month))
    ensures r.delayed <= |WorkspaceTasks(s.tasks, ws)|
    ensures r.lowActivity == LowActivityTaskCount(s.tasks, s.logs, ws, now)
    ensures r.lowActivity == Count(s.tasks, StaleActiveIn(s.logs, ws, now))
    ensures r.lowActivity <= |ActiveTasks(s.tasks, ws)|
  {
    var ideas := WorkspaceIdeas(s.ideas, ws);
    SumStatusCountsIsKnownCount(ideas, ItemStatusValues);
    Dashboard(
      map v | v in ItemStatusValues :: StatusCount(ideas, v),
      SumStatusCounts(ideas, ItemStatusValues),
      Count(WorkspaceTasks(s.tasks, ws), DelayedAt(month)),
      LowActivityTaskCount(s.tasks, s.logs, ws, now))
  }

  /** Adding an idea to the workspace raises its status's count by one, and the
      total by one when that status is a known one; nothing else moves. */
  lemma DashboardAddIdea(s: Store, ws: string, month: string, now: int, i: Idea)
    requires i.workspaceId == ws
    ensures var before := DashboardCounts(s, ws, month, now);
      var after := DashboardCounts(s.(ideas := s.ideas + [i]), ws, month, now);
      && after.statusCounts.Keys == before.statusCounts.Keys
      && (forall v :: v in after.statusCounts ==>
            after.statusCounts[v] == before.statusCounts[v] + (if i.status == v then 1 else 0))
      && after.totalIdeas == before.totalIdeas + (if i.status in ItemStatusValues then 1 else 0)
      && after.delayed == before.delayed && after.lowActivity == before.lowActivity
  {
    var ideas := WorkspaceIdeas(s.ideas, ws);
    FilterConcat(s.ideas, [i], IdeaInWorkspace(ws));
    assert Filter([i], IdeaInWorkspace(ws)) == [i] by {
      assert [i][1..] == [];
    }
    assert WorkspaceIdeas(s.ideas + [i], ws) == ideas + [i];
    forall v | v in ItemStatusValues
      ensures StatusCount(ideas + [i], v) == StatusCount(ideas, v) + (if i.status == v then 1 else 0)
    {
      CountSingle(i, HasStatus(v));
      CountConcat(ideas, [i], HasStatus(v));
    }
    CountSingle(i, StatusIn(ItemStatusValues));
    CountConcat(ideas, [i], StatusIn(ItemStatusValues));
  }

  /** An idea of another workspace leaves the dashboard as it was. */
  lemma DashboardIgnoresOtherWorkspace(s: Store, ws: string, month: string, now: int, i: Idea)
    requires i.workspaceId != ws
    ensures DashboardCounts(s.(ideas := s.ideas + [i]), ws, month, now) == DashboardCounts(s, ws, month, now)
  {
    FilterSkipLast(s.ideas, i, IdeaInWorkspace(ws));
  }

  /** When every idea of the workspace carries a valid status, the total is the
      number of ideas in the workspace. */
  lemma DashboardTotalCountsAllValidIdeas(s: Store, ws: string, month: string, now: int)
    requires forall i :: i in s.ideas && i.workspaceId == ws ==> i.status in ItemStatusValues
    ensures DashboardCounts(s, ws, month, now).totalIdeas == |WorkspaceIdeas(s.ideas, ws)|
  {
    var ideas := WorkspaceIdeas(s.ideas, ws);
    forall k | 0 <= k < |ideas|
      ensures ideas[k].status in ItemStatusValues
    {
      assert ideas[k] in s.ideas;
    }
    FilterAll(ideas, StatusIn(ItemStatusValues));
  }

  // ---------------------------------------------------------------------------
  // Progress

  /** Completion ratios, before the source's rounding to four places. */
  datatype Progress = Progress(task: real, deliverable: real, overall: real)

  /** `n / d`, or 0 for an empty pool. */
  function Ratio(n: nat, d: nat): (r: real)
    requires n <= d
    ensures 0.0 <= r <= 1.0
    ensures d == 0 ==> r == 0.0
    ensures 0 < d && n == d ==> r == 1.0
    ensures 0 < d ==> r * d as real == n as real
  {
    if d == 0 then 0.0 else n as real / d as real
  }

  /** Tasks that count towards progress: all but discarded ones. */
  function NotDiscarded(): Task -> bool { (t: Task) => t.status != "discarded" }
  function TaskCompleted(): Task -> bool { (t: Task) => t.status == "completed" }
  function DeliverableCompleted(): Deliverable -> bool { (d: Deliverable) => d.status == "completed" }

  function TaskPool(ts: seq<Task>): seq<Task> {
    Filter(ts, NotDiscarded())
  }

  function CompletedTaskCount(ts: seq<Task>): (n: nat)
    ensures n <= |TaskPool(ts)|
  {
    Count(TaskPool(ts), TaskCompleted())
  }

  function CompletedDeliverableCount(ds: seq<Deliverable>): (n: nat)
    ensures n <= |ds|
  {
    Count(ds, DeliverableCompleted())
  }

  /** compute_idea_progress: share of non-discarded tasks completed, share of
      deliverables completed, and their 70/30 weighted sum. */
  function IdeaProgress(tasks: seq<Task>, ds: seq<Deliverable>, ws: string, ideaId: string): (p: Progress)
    ensures var ts := IdeaTasks(tasks, ws, ideaId);
      p.task == Ratio(CompletedTaskCount(ts), |TaskPool(ts)|)
    ensures var dl := IdeaDeliverables(ds, ws, ideaId);
      p.deliverable == Ratio(CompletedDeliverableCount(dl), |dl|)
    ensures p.overall == 0.7 * p.task + 0.3 * p.deliverable
    ensures |TaskPool(IdeaTasks(tasks, ws, ideaId))| == 0 ==> p.task == 0.0
    ensures |IdeaDeliverables(ds, ws, ideaId)| == 0 ==> p.deliverable == 0.0
    ensures 0.0 <= p.task <= 1.0 && 0.0 <= p.deliverable <= 1.0
    ensures 0.0 <= p.overall <= 1.0
  {
    ProgressOf(IdeaTasks(tasks, ws, ideaId), IdeaDeliverables(ds, ws, ideaId))
  }

  /** Progress of an already scoped set of tasks and deliverables. */
  function ProgressOf(ts: seq<Task>, dl: seq<Deliverable>): (p: Progress)
    ensures p.task == Ratio(CompletedTaskCount(ts), |TaskPool(ts)|)
    ensures p.deliverable == Ratio(CompletedDeliverableCount(dl), |dl|)
    ensures p.overall == 0.7 * p.task + 0.3 * p.deliverable
    ensures |TaskPool(ts)| == 0 ==> p.task == 0.0
    ensures |dl| == 0 ==> p.deliverable == 0.0
    ensures 0.0 <= p.task <= 1.0 && 0.0 <= p.deliverable <= 1.0
    ensures 0.0 <= p.overall <= 1.0
  {
    var t := Ratio(CompletedTaskCount(ts), |TaskPool(ts)|);
    var d := Ratio(CompletedDeliverableCount(dl), |dl|);
    Progress(t, d, 0.7 * t + 0.3 * d)
  }

  /** Appending an element that fails the filter does not change the filter. */
  lemma FilterSkipLast<T>(s: seq<T>, x: T, p: T -> bool)
    requires !p(x)
    ensures Filter(s + [x], p) == Filter(s, p)
  {
    FilterConcat(s, [x], p);
    assert Filter([x], p) == Filter([x][1..], p);
    assert [x][1..] == [];
    assert Filter(s, p) + [] == Filter(s, p);
  }

  /** Adding a discarded task to an idea leaves its progress unchanged. */
  lemma ProgressIgnoresDiscarded(tasks: seq<Task>, ds: seq<Deliverable>, ws: string, ideaId: string, t: Task)
    requires t.status == "discarded"
    ensures IdeaProgress(tasks + [t], ds, ws, ideaId) == IdeaProgress(tasks, ds, ws, ideaId)
  {
    var ts := IdeaTasks(tasks, ws, ideaId);
    var dl := IdeaDeliverables(ds, ws, ideaId);
    if TaskOfIdea(ws, ideaId)(t) {
      FilterConcat(tasks, [t], TaskOfIdea(ws, ideaId));
      assert Filter([t], TaskOfIdea(ws, ideaId)) == [t];
      FilterSkipLast(ts, t, NotDiscarded());
      assert IdeaTasks(tasks + [t], ws, ideaId) == ts + [t];
      assert ProgressOf(ts + [t], dl) == ProgressOf(ts, dl);
    } else {
      FilterSkipLast(tasks, t, TaskOfIdea(ws, ideaId));
    }
  }

  /** Tasks and deliverables of other ideas do not affect an idea's progress. */
  lemma ProgressIsScoped(tasks: seq<Task>, ds: seq<Deliverable>, ws: string, ideaId: string, t: Task, d: Deliverable)
    requires t.ideaId != ideaId && d.ideaId != ideaId
    ensures IdeaProgress(tasks + [t], ds + [d], ws, ideaId) == IdeaProgress(tasks, ds, ws, ideaId)
  {
    FilterSkipLast(tasks, t, TaskOfIdea(ws, ideaId));
    FilterSkipLast(ds, d, DeliverableOfIdea(ws, ideaId));
  }

  /** An idea whose counted tasks and deliverables are all completed, with at
      least one of each, is at full progress. */
  lemma ProgressFullWhenAllCompleted(tasks: seq<Task>, ds: seq<Deliverable>, ws: string, ideaId: string)
    requires forall t :: t in IdeaTasks(tasks, ws, ideaId) ==> t.status in {"completed", "discarded"}
    requires forall d :: d in IdeaDeliverables(ds, ws, ideaId) ==> d.status == "completed"
    requires exists t :: t in IdeaTasks(tasks, ws, ideaId) && t.status == "completed"
    requires |IdeaDeliverables(ds, ws, ideaId)| > 0
    ensures IdeaProgress(tasks, ds, ws, ideaId).overall == 1.0
  {
    var ts := IdeaTasks(tasks, ws, ideaId);
    var pool := TaskPool(ts);
    var dl := IdeaDeliverables(ds, ws, ideaId);
    forall k | 0 <= k < |pool|
      ensures pool[k].status == "completed"
    {
      assert pool[k] in ts;
    }
    FilterAll(pool, TaskCompleted());
    var t :| t in ts && t.status == "completed";
    assert t in pool;
    forall k | 0 <= k < |dl|
      ensures dl[k].status == "completed"
    {
      assert dl[k] in dl;
    }
    FilterAll(dl, DeliverableCompleted());
  }

  /** An idea with no tasks and no deliverables has zero progress. */
  lemma ProgressZeroWhenEmpty(tasks: seq<Task>, ds: seq<Deliverable>, ws: string, ideaId: string)
    requires forall t :: t in tasks ==> t.workspaceId != ws || t.ideaId != ideaId
    requires forall d :: d in ds ==> d.workspaceId != ws || d.ideaId != ideaId
    ensures IdeaProgress(tasks, ds, ws, ideaId) == Progress(0.0, 0.0, 0.0)
  {
    FilterNone(tasks, TaskOfIdea(ws, ideaId));
    FilterNone(ds, DeliverableOfIdea(ws, ideaId));
  }

  /** An idea whose tasks are all discarded has zero task progress, whatever
      its deliverables. */
  lemma TaskProgressZeroWhenAllDiscarded(tasks: seq<Task>, ds: seq<Deliverable>, ws: string, ideaId: string)
    requires forall t :: t in tasks && t.workspaceId == ws && t.ideaId == ideaId ==> t.status == "discarded"
    ensures IdeaProgress(tasks, ds, ws, ideaId).task == 0.0
    ensures IdeaProgress(tasks, ds, ws, ideaId).overall == 0.3 * IdeaProgress(tasks, ds, ws, ideaId).deliverable
  {
    var ts := IdeaTasks(tasks, ws, ideaId);
    forall k | 0 <= k < |ts|
      ensures !NotDiscarded()(ts[k])
    {
      assert ts[k] in tasks;
    }
    FilterNone(ts, NotDiscarded());
  }

  /** An idea without deliverables has zero deliverable progress, and its
      overall progress is 70% of its task progress. */
  lemma DeliverableProgressZeroWhenNone(tasks: seq<Task>, ds: seq<Deliverable>, ws: string, ideaId: string)
    requires forall d :: d in ds ==> d.workspaceId != ws || d.ideaId != ideaId
    ensures IdeaProgress(tasks, ds, ws, ideaId).deliverable == 0.0
    ensures IdeaProgress(tasks, ds, ws, ideaId).overall == 0.7 * IdeaProgress(tasks, ds, ws, ideaId).task
  {
    FilterNone(ds, DeliverableOfIdea(ws, ideaId));
  }
}
