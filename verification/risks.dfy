/** Risk detection for one idea (detect_risks in backend/app/services.py):
    late tasks, stale or missing update logs, and in-progress tasks with an
    unfinished dependency, de-duplicated by code and related id. */
module Risks {
  import opened Common
  import opened Text
  import opened Records
  import opened Services

  datatype RiskCode = Delayed | LowActivity | NoLog | DependencyViolation

  function RiskCodeValue(c: RiskCode): string {
    match c
    case Delayed => "DELAYED"
    case LowActivity => "LOW_ACTIVITY"
    case NoLog => "NO_LOG"
    case DependencyViolation => "DEPENDENCY_VIOLATION"
  }

  datatype Risk = Risk(code: RiskCode, severity: string, message: string, relatedEntity: string, relatedId: string)

  /** The de-duplication key: the source builds the string "<code>:<related id>". */
  datatype RiskKey = RiskKey(code: RiskCode, relatedId: string)

  function KeyOf(r: Risk): RiskKey { RiskKey(r.code, r.relatedId) }

  function KeyText(k: RiskKey): string { RiskCodeValue(k.code) + ":" + k.relatedId }

  /** `a + ":" + b` determines `a` and `b` when `a` holds no colon. */
  lemma ColonJoinInjective(a: string, b: string, c: string, d: string)
    requires forall i :: 0 <= i < |a| ==> a[i] != ':'
    requires forall i :: 0 <= i < |c| ==> c[i] != ':'
    requires a + ":" + b == c + ":" + d
    ensures a == c && b == d
  {
    var s := a + ":" + b;
    var m := Min(|a|, |c|);
    assert s[m] == ':';
    assert |a| == |c|;
    assert a == s[..|a|] == c;
    assert b == s[|a| + 1..] == d;
  }

  /** Keying by the pair is the same as keying by the source's string. */
  lemma KeyTextInjective(k1: RiskKey, k2: RiskKey)
    ensures KeyText(k1) == KeyText(k2) <==> k1 == k2
  {
    if KeyText(k1) == KeyText(k2) {
      ColonJoinInjective(RiskCodeValue(k1.code), k1.relatedId, RiskCodeValue(k2.code), k2.relatedId);
    }
  }

  // ---------------------------------------------------------------------------
  // De-duplication: a dict from key to the last risk with that key, whose
  // iteration order is the order in which keys were first inserted.

  predicate HasKey(s: seq<Risk>, k: RiskKey) {
    exists i :: 0 <= i < |s| && KeyOf(s[i]) == k
  }

  predicate NoDupKeys(s: seq<Risk>) {
    forall i, j :: 0 <= i < j < |s| ==> KeyOf(s[i]) != KeyOf(s[j])
  }

  /** `x` occurs in `items` with no later item sharing its key. */
  predicate LastWithKey(items: seq<Risk>, x: Risk) {
    exists j :: 0 <= j < |items| && items[j] == x && NoLaterKey(items, j)
  }

  predicate NoLaterKey(items: seq<Risk>, j: int)
    requires 0 <= j < |items|
  {
    forall j' :: j < j' < |items| ==> KeyOf(items[j']) != KeyOf(items[j])
  }

  function SameKey(k: RiskKey): Risk -> bool { (x: Risk) => KeyOf(x) == k }

  /** Position of the first item with key `k`. */
  ghost function FirstKeyIndex(items: seq<Risk>, k: RiskKey): (i: nat)
    requires HasKey(items, k)
    ensures i < |items| && KeyOf(items[i]) == k
    ensures forall j :: 0 <= j < i ==> KeyOf(items[j]) != k
  {
    var w :| 0 <= w < |items| && KeyOf(items[w]) == k;
    assert SameKey(k)(items[w]);
    FirstIndex(items, SameKey(k)).value
  }

  lemma HasKeyConcat(a: seq<Risk>, b: seq<Risk>, k: RiskKey)
    ensures HasKey(a + b, k) <==> HasKey(a, k) || HasKey(b, k)
  {
    if HasKey(a + b, k) {
      var i :| 0 <= i < |a + b| && KeyOf((a + b)[i]) == k;
      if i >= |a| {
        assert KeyOf(b[i - |a|]) == k;
      }
    }
    if HasKey(b, k) {
      var i :| 0 <= i < |b| && KeyOf(b[i]) == k;
      assert (a + b)[|a| + i] == b[i];
    }
    if HasKey(a, k) {
      var i :| 0 <= i < |a| && KeyOf(a[i]) == k;
      assert (a + b)[i] == a[i];
    }
  }

  /** `unique[key] = item` on a key-unique sequence. */
  function Insert(acc: seq<Risk>, x: Risk): (r: seq<Risk>)
    requires NoDupKeys(acc)
    ensures NoDupKeys(r)
    ensures forall k :: HasKey(r, k) <==> HasKey(acc, k) || k == KeyOf(x)
    ensures |r| == if HasKey(acc, KeyOf(x)) then |acc| else |acc| + 1
    ensures forall i :: 0 <= i < |acc| ==> KeyOf(r[i]) == KeyOf(acc[i])
    ensures forall i :: 0 <= i < |r| && KeyOf(r[i]) == KeyOf(x) ==> r[i] == x
    ensures forall i :: 0 <= i < |acc| && KeyOf(r[i]) != KeyOf(x) ==> r[i] == acc[i]
  {
    match FirstIndex(acc, SameKey(KeyOf(x)))
    case Some(j) =>
      var r := acc[j := x];
      assert forall k :: HasKey(r, k) ==> HasKey(acc, k) || k == KeyOf(x);
      assert forall k :: HasKey(acc, k) ==> HasKey(r, k) by {
        forall k | HasKey(acc, k) ensures HasKey(r, k) {
          var i :| 0 <= i < |acc| && KeyOf(acc[i]) == k;
          assert KeyOf(r[i]) == k;
        }
      }
      r
    case None =>
      var r := acc + [x];
      assert KeyOf(r[|acc|]) == KeyOf(x);
      assert forall k :: HasKey(r, k) <==> HasKey(acc, k) || k == KeyOf(x) by {
        forall k ensures HasKey(r, k) <==> HasKey(acc, k) || k == KeyOf(x) {
          HasKeyConcat(acc, [x], k);
          assert HasKey([x], k) <==> k == KeyOf(x) by {
            if k == KeyOf(x) { assert KeyOf([x][0]) == k; }
          }
        }
      }
      r
  }

  ghost predicate KeysAgree(items: seq<Risk>, r: seq<Risk>) {
    forall k :: HasKey(r, k) <==> HasKey(items, k)
  }

  ghost predicate EachLast(items: seq<Risk>, r: seq<Risk>) {
    forall i :: 0 <= i < |r| ==> LastWithKey(items, r[i])
  }

  /** The keys of `r` appear in the order in which `items` first shows them. */
  ghost predicate FirstSeenOrder(items: seq<Risk>, r: seq<Risk>) {
    forall i, j :: 0 <= i < j < |r| ==>
      HasKey(items, KeyOf(r[i])) && HasKey(items, KeyOf(r[j])) &&
      FirstKeyIndex(items, KeyOf(r[i])) < FirstKeyIndex(items, KeyOf(r[j]))
  }

  lemma HasKeySingleton(x: Risk, k: RiskKey)
    ensures HasKey([x], k) <==> k == KeyOf(x)
  {
    if k == KeyOf(x) {
      assert KeyOf([x][0]) == k;
    }
  }

  lemma DedupStepKeys(prefix: seq<Risk>, x: Risk, acc: seq<Risk>)
    requires NoDupKeys(acc) && KeysAgree(prefix, acc)
    ensures KeysAgree(prefix + [x], Insert(acc, x))
  {
    forall k ensures HasKey(Insert(acc, x), k) <==> HasKey(prefix + [x], k) {
      HasKeyConcat(prefix, [x], k);
      HasKeySingleton(x, k);
    }
  }

  lemma DedupStepLast(prefix: seq<Risk>, x: Risk, acc: seq<Risk>)
    requires NoDupKeys(acc) && EachLast(prefix, acc)
    ensures EachLast(prefix + [x], Insert(acc, x))
  {
    var items := prefix + [x];
    var n := |prefix|;
    var r := Insert(acc, x);
    forall i | 0 <= i < |r| ensures LastWithKey(items, r[i]) {
      if KeyOf(r[i]) == KeyOf(x) {
        assert items[n] == r[i] && NoLaterKey(items, n);
      } else {
        assert LastWithKey(prefix, acc[i]);
        var j :| 0 <= j < |prefix| && prefix[j] == acc[i] && NoLaterKey(prefix, j);
        assert items[j] == r[i] && NoLaterKey(items, j);
      }
    }
  }

  lemma FirstKeyIndexSnoc(prefix: seq<Risk>, x: Risk, k: RiskKey)
    requires HasKey(prefix, k)
    ensures HasKey(prefix + [x], k)
    ensures FirstKeyIndex(prefix + [x], k) == FirstKeyIndex(prefix, k)
  {
    HasKeyConcat(prefix, [x], k);
    FirstIndexSnoc(prefix, x, SameKey(k));
  }

  lemma FirstKeyIndexNew(prefix: seq<Risk>, x: Risk)
    requires !HasKey(prefix, KeyOf(x))
    ensures HasKey(prefix + [x], KeyOf(x))
    ensures FirstKeyIndex(prefix + [x], KeyOf(x)) == |prefix|
  {
    HasKeyConcat(prefix, [x], KeyOf(x));
    HasKeySingleton(x, KeyOf(x));
    FirstIndexSnoc(prefix, x, SameKey(KeyOf(x)));
  }

  lemma DedupStepOrder(prefix: seq<Risk>, x: Risk, acc: seq<Risk>)
    requires NoDupKeys(acc) && KeysAgree(prefix, acc) && FirstSeenOrder(prefix, acc)
    ensures FirstSeenOrder(prefix + [x], Insert(acc, x))
  {
    var items := prefix + [x];
    var r := Insert(acc, x);
    forall i, j | 0 <= i < j < |r|
      ensures HasKey(items, KeyOf(r[i])) && HasKey(items, KeyOf(r[j]))
      ensures FirstKeyIndex(items, KeyOf(r[i])) < FirstKeyIndex(items, KeyOf(r[j]))
    {
      assert HasKey(acc, KeyOf(acc[i]));
      FirstKeyIndexSnoc(prefix, x, KeyOf(acc[i]));
      if j < |acc| {
        assert HasKey(acc, KeyOf(acc[j]));
        FirstKeyIndexSnoc(prefix, x, KeyOf(acc[j]));
      } else {
        FirstKeyIndexNew(prefix, x);
      }
    }
  }

  /** The values of the de-duplicating dict: one risk per key, each the last one
      seen with that key, keys in order of first appearance. */
  function Dedup(items: seq<Risk>): (r: seq<Risk>)
    ensures NoDupKeys(r)
    ensures KeysAgree(items, r)
    ensures EachLast(items, r)
    ensures FirstSeenOrder(items, r)
    decreases |items|
  {
    if |items| == 0 then []
    else
      var acc := Dedup(items[..|items| - 1]);
      DedupStep(items, acc);
      Insert(acc, items[|items| - 1])
  }

  /** One step of `Dedup` keeps its four guarantees. */
  lemma DedupStep(items: seq<Risk>, acc: seq<Risk>)
    requires |items| > 0
    requires NoDupKeys(acc) && KeysAgree(items[..|items| - 1], acc)
    requires EachLast(items[..|items| - 1], acc) && FirstSeenOrder(items[..|items| - 1], acc)
    ensures var r := Insert(acc, items[|items| - 1]);
      NoDupKeys(r) && KeysAgree(items, r) && EachLast(items, r) && FirstSeenOrder(items, r)
  {
    var prefix := items[..|items| - 1];
    var x := items[|items| - 1];
    assert items == prefix + [x];
    DedupStepKeys(prefix, x, acc);
    DedupStepLast(prefix, x, acc);
    DedupStepOrder(prefix, x, acc);
  }

  // ---------------------------------------------------------------------------
  // The rules

  /** One risk per task, about that task. */
  function TaskRisks(ts: seq<Task>, code: RiskCode, severity: string, prefix: string): (r: seq<Risk>)
    ensures |r| == |ts|
    ensures forall i :: 0 <= i < |ts| ==> r[i] == Risk(code, severity, prefix + ts[i].title, "task", ts[i].id)
  {
    seq(|ts|, i requires 0 <= i < |ts| => Risk(code, severity, prefix + ts[i].title, "task", ts[i].id))
  }

  lemma TaskRisksKeys(ts: seq<Task>, code: RiskCode, severity: string, prefix: string, k: RiskKey)
    ensures HasKey(TaskRisks(ts, code, severity, prefix), k) <==>
      (k.code == code && exists t :: t in ts && t.id == k.relatedId)
  {
    var r := TaskRisks(ts, code, severity, prefix);
    if k.code == code && exists t :: t in ts && t.id == k.relatedId {
      var t :| t in ts && t.id == k.relatedId;
      var i :| 0 <= i < |ts| && ts[i] == t;
      assert KeyOf(r[i]) == k;
    }
    if HasKey(r, k) {
      var i :| 0 <= i < |r| && KeyOf(r[i]) == k;
      assert ts[i] in ts;
    }
  }

  /** The risks `TaskRisks` lists are exactly one per listed task. */
  lemma TaskRisksMembers(ts: seq<Task>, code: RiskCode, severity: string, prefix: string)
    ensures forall x :: x in TaskRisks(ts, code, severity, prefix) <==>
      exists t :: t in ts && x == Risk(code, severity, prefix + t.title, "task", t.id)
  {
    var r := TaskRisks(ts, code, severity, prefix);
    forall x | (exists t :: t in ts && x == Risk(code, severity, prefix + t.title, "task", t.id))
      ensures x in r
    {
      var t :| t in ts && x == Risk(code, severity, prefix + t.title, "task", t.id);
      var i :| 0 <= i < |ts| && ts[i] == t;
      assert r[i] == x;
    }
    forall x | x in r
      ensures exists t :: t in ts && x == Risk(code, severity, prefix + t.title, "task", t.id)
    {
      var i :| 0 <= i < |r| && r[i] == x;
      assert ts[i] in ts;
    }
  }

  /** A late-task risk for each late task of the list, and nothing else. */
  function DelayedRisks(ts: seq<Task>, month: string): (r: seq<Risk>)
    ensures |r| == Count(ts, DelayedAt(month))
    ensures forall x :: x in r <==>
      exists t :: t in ts && IsDelayed(t, month) && x == Risk(Delayed, "high", "Task is delayed: " + t.title, "task", t.id)
  {
    var d := Filter(ts, DelayedAt(month));
    FilterMembers(ts, DelayedAt(month));
    TaskRisksMembers(d, Delayed, "high", "Task is delayed: ");
    TaskRisks(d, Delayed, "high", "Task is delayed: ")
  }

  /** The status the last task with this id carries, as the id-to-status dict
      built from the idea's tasks holds it. */
  function StatusOf(ts: seq<Task>, id: string): (r: Option<string>)
    ensures r.Some? <==> exists t :: t in ts && t.id == id
    ensures r.Some? ==> exists i :: (0 <= i < |ts| && ts[i].id == id && ts[i].status == r.value &&
      forall j :: i < j < |ts| ==> ts[j].id != id)
  {
    if |ts| == 0 then None
    else if ts[|ts| - 1].id == id then Some(ts[|ts| - 1].status)
    else
      var r := StatusOf(ts[..|ts| - 1], id);
      assert forall t :: t in ts ==> t in ts[..|ts| - 1] || t == ts[|ts| - 1] by {
        assert ts == ts[..|ts| - 1] + [ts[|ts| - 1]];
      }
      r
  }

  /** A dependency blocks when it names a task of the idea whose status is
      non-empty and not completed; dependencies naming no such task are ignored. */
  predicate Blocking(o: Option<string>) {
    o.Some? && o.value != "" && o.value != "completed"
  }

  predicate HasIncompleteDependency(t: Task, ts: seq<Task>) {
    exists k :: 0 <= k < |t.dependencies| && Blocking(StatusOf(ts, t.dependencies[k]))
  }

  function BlockedIn(ts: seq<Task>): Task -> bool {
    (t: Task) => t.status == "in_progress" && HasIncompleteDependency(t, ts)
  }

  /** One dependency risk per in-progress task with a blocking dependency: the
      source stops scanning a task's dependencies at the first blocking one. */
  function DependencyRisks(ts: seq<Task>): (r: seq<Risk>)
    ensures |r| == Count(ts, BlockedIn(ts))
    ensures forall x :: x in r <==>
      exists t :: t in ts && t.status == "in_progress" && HasIncompleteDependency(t, ts)
        && x == Risk(DependencyViolation, "medium", "Dependency incomplete while task in progress: " + t.title, "task", t.id)
  {
    var b := Filter(ts, BlockedIn(ts));
    FilterMembers(ts, BlockedIn(ts));
    TaskRisksMembers(b, DependencyViolation, "medium", "Dependency incomplete while task in progress: ");
    TaskRisks(b, DependencyViolation, "medium", "Dependency incomplete while task in progress: ")
  }

  /** Newest creation time among a non-empty list of logs. */
  function LatestLogAt(logs: seq<UpdateLog>): (m: int)
    requires |logs| > 0
    ensures forall i :: 0 <= i < |logs| ==> logs[i].createdAt <= m
    ensures exists i :: 0 <= i < |logs| && logs[i].createdAt == m
  {
    if |logs| == 1 then logs[0].createdAt
    else
      var m := LatestLogAt(logs[1..]);
      assert forall i :: 1 <= i < |logs| ==> logs[i] == logs[1..][i - 1];
      Max(logs[0].createdAt, m)
  }

  /** The newest log is older than `bound` exactly when every log is. */
  lemma LatestBelow(logs: seq<UpdateLog>, bound: int)
    requires |logs| > 0
    ensures LatestLogAt(logs) < bound <==> forall l :: l in logs ==> l.createdAt < bound
  {
    var i :| 0 <= i < |logs| && logs[i].createdAt == LatestLogAt(logs);
    assert logs[i] in logs;
  }

  /** No log at all is one risk; logs that are all older than 14 days are
      another; a log from the last 14 days means no activity risk. */
  function ActivityRisks(logs: seq<UpdateLog>, ideaId: string, now: int): (r: seq<Risk>)
    ensures r == if |logs| == 0 then [Risk(NoLog, "medium", "No update logs found for this idea", "idea", ideaId)]
      else if forall l :: l in logs ==> l.createdAt < now - FourteenDays then
        [Risk(LowActivity, "medium", "No update log in last 14 days", "idea", ideaId)]
      else []
  {
    if |logs| == 0 then [Risk(NoLog, "medium", "No update logs found for this idea", "idea", ideaId)]
    else
      LatestBelow(logs, now - FourteenDays);
      if LatestLogAt(logs) < now - FourteenDays then
        [Risk(LowActivity, "medium", "No update log in last 14 days", "idea", ideaId)]
      else []
  }

  /** Severity and entity kind that go with each code. */
  predicate WellFormedRisk(x: Risk) {
    match x.code
    case Delayed => x.severity == "high" && x.relatedEntity == "task"
    case DependencyViolation => x.severity == "medium" && x.relatedEntity == "task"
    case LowActivity => x.severity == "medium" && x.relatedEntity == "idea"
    case NoLog => x.severity == "medium" && x.relatedEntity == "idea"
  }

  function RawRisks(ts: seq<Task>, ls: seq<UpdateLog>, ideaId: string, month: string, now: int): seq<Risk> {
    DelayedRisks(ts, month) + ActivityRisks(ls, ideaId, now) + DependencyRisks(ts)
  }

  /** Which keys the undeduplicated list holds, family by family. */
  lemma RawRiskKeys(ts: seq<Task>, ls: seq<UpdateLog>, ideaId: string, month: string, now: int, k: RiskKey)
    ensures HasKey(RawRisks(ts, ls, ideaId, month, now), k) <==>
      match k.code
      case Delayed => exists t :: t in ts && t.id == k.relatedId && IsDelayed(t, month)
      case DependencyViolation =>
        exists t :: t in ts && t.id == k.relatedId && t.status == "in_progress" && HasIncompleteDependency(t, ts)
      case NoLog => k.relatedId == ideaId && |ls| == 0
      case LowActivity =>
        k.relatedId == ideaId && |ls| > 0 && forall l :: l in ls ==> l.createdAt < now - FourteenDays
  {
    var d := Filter(ts, DelayedAt(month));
    var b := Filter(ts, BlockedIn(ts));
    var a := ActivityRisks(ls, ideaId, now);
    HasKeyConcat(DelayedRisks(ts, month) + a, DependencyRisks(ts), k);
    HasKeyConcat(DelayedRisks(ts, month), a, k);
    TaskRisksKeys(d, Delayed, "high", "Task is delayed: ", k);
    TaskRisksKeys(b, DependencyViolation, "medium", "Dependency incomplete while task in progress: ", k);
    FilterMembers(ts, DelayedAt(month));
    FilterMembers(ts, BlockedIn(ts));
    if |a| > 0 {
      HasKeySingleton(a[0], k);
      assert a == [a[0]];
    } else {
      assert !HasKey(a, k);
    }
  }

  lemma RawRisksWellFormed(ts: seq<Task>, ls: seq<UpdateLog>, ideaId: string, month: string, now: int)
    ensures forall i :: 0 <= i < |RawRisks(ts, ls, ideaId, month, now)| ==>
      WellFormedRisk(RawRisks(ts, ls, ideaId, month, now)[i])
  {}

  /** What the de-duplicated list holds, over already scoped tasks and logs. */
  lemma DedupRawRisks(ts: seq<Task>, ls: seq<UpdateLog>, ideaId: string, month: string, now: int)
    ensures var r := Dedup(RawRisks(ts, ls, ideaId, month, now));
      && (forall i :: 0 <= i < |r| ==> WellFormedRisk(r[i]))
      && (HasKey(r, RiskKey(NoLog, ideaId)) <==> |ls| == 0)
      && (HasKey(r, RiskKey(LowActivity, ideaId)) <==>
          (|ls| > 0 && forall l :: l in ls ==> l.createdAt < now - FourteenDays))
      && (forall id :: HasKey(r, RiskKey(Delayed, id)) <==>
          exists t :: t in ts && t.id == id && IsDelayed(t, month))
      && (forall id :: HasKey(r, RiskKey(DependencyViolation, id)) <==>
          exists t :: t in ts && t.id == id && t.status == "in_progress" && HasIncompleteDependency(t, ts))
      && (forall i :: 0 <= i < |r| && r[i].code in {LowActivity, NoLog} ==> r[i].relatedId == ideaId)
  {
    DedupKey(ts, ls, ideaId, month, now, RiskKey(NoLog, ideaId));
    DedupKey(ts, ls, ideaId, month, now, RiskKey(LowActivity, ideaId));
    DedupTaskKeys(ts, ls, ideaId, month, now);
    DedupedRisks(ts, ls, ideaId, month, now);
  }

  /** The task-level keys of the de-duplicated list, for every task id. */
  lemma DedupTaskKeys(ts: seq<Task>, ls: seq<UpdateLog>, ideaId: string, month: string, now: int)
    ensures var r := Dedup(RawRisks(ts, ls, ideaId, month, now));
      && (forall id :: HasKey(r, RiskKey(Delayed, id)) <==>
          exists t :: t in ts && t.id == id && IsDelayed(t, month))
      && (forall id :: HasKey(r, RiskKey(DependencyViolation, id)) <==>
          exists t :: t in ts && t.id == id && t.status == "in_progress" && HasIncompleteDependency(t, ts))
  {
    var r := Dedup(RawRisks(ts, ls, ideaId, month, now));
    forall id ensures HasKey(r, RiskKey(Delayed, id)) <==>
      exists t :: t in ts && t.id == id && IsDelayed(t, month)
    {
      DedupKey(ts, ls, ideaId, month, now, RiskKey(Delayed, id));
    }
    forall id ensures HasKey(r, RiskKey(DependencyViolation, id)) <==>
      exists t :: t in ts && t.id == id && t.status == "in_progress" && HasIncompleteDependency(t, ts)
    {
      DedupKey(ts, ls, ideaId, month, now, RiskKey(DependencyViolation, id));
    }
  }

  lemma DedupedRisks(ts: seq<Task>, ls: seq<UpdateLog>, ideaId: string, month: string, now: int)
    ensures var r := Dedup(RawRisks(ts, ls, ideaId, month, now));
      forall i :: 0 <= i < |r| ==> WellFormedRisk(r[i]) && (r[i].code in {LowActivity, NoLog} ==> r[i].relatedId == ideaId)
  {
    var r := Dedup(RawRisks(ts, ls, ideaId, month, now));
    forall i | 0 <= i < |r|
      ensures WellFormedRisk(r[i])
      ensures r[i].code in {LowActivity, NoLog} ==> r[i].relatedId == ideaId
    {
      DedupedRisk(ts, ls, ideaId, month, now, i);
    }
  }

  /** Which keys the de-duplicated list holds: those of the raw list. */
  lemma DedupKey(ts: seq<Task>, ls: seq<UpdateLog>, ideaId: string, month: string, now: int, k: RiskKey)
    ensures HasKey(Dedup(RawRisks(ts, ls, ideaId, month, now)), k) <==>
      match k.code
      case Delayed => exists t :: t in ts && t.id == k.relatedId && IsDelayed(t, month)
      case DependencyViolation =>
        exists t :: t in ts && t.id == k.relatedId && t.status == "in_progress" && HasIncompleteDependency(t, ts)
      case NoLog => k.relatedId == ideaId && |ls| == 0
      case LowActivity =>
        k.relatedId == ideaId && |ls| > 0 && forall l :: l in ls ==> l.createdAt < now - FourteenDays
  {
    RawRiskKeys(ts, ls, ideaId, month, now, k);
  }

  /** Each kept risk is one of the raw risks, so it is well formed and an
      activity risk is about the idea. */
  lemma DedupedRisk(ts: seq<Task>, ls: seq<UpdateLog>, ideaId: string, month: string, now: int, i: nat)
    requires i < |Dedup(RawRisks(ts, ls, ideaId, month, now))|
    ensures var x := Dedup(RawRisks(ts, ls, ideaId, month, now))[i];
      WellFormedRisk(x) && (x.code in {LowActivity, NoLog} ==> x.relatedId == ideaId)
  {
    var raw := RawRisks(ts, ls, ideaId, month, now);
    var r := Dedup(raw);
    RawRisksWellFormed(ts, ls, ideaId, month, now);
    assert LastWithKey(raw, r[i]);
    assert HasKey(r, KeyOf(r[i]));
    RawRiskKeys(ts, ls, ideaId, month, now, KeyOf(r[i]));
  }

  /** detect_risks: the de-duplicated risks of one idea of one workspace. */
  function DetectRisks(tasks: seq<Task>, logs: seq<UpdateLog>, ws: string, ideaId: string, month: string, now: int)
    : (r: seq<Risk>)
    ensures NoDupKeys(r)
    ensures forall i :: 0 <= i < |r| ==> WellFormedRisk(r[i])
    ensures HasKey(r, RiskKey(NoLog, ideaId)) <==> |IdeaLogs(logs, ws, ideaId)| == 0
    ensures HasKey(r, RiskKey(LowActivity, ideaId)) <==>
      (|IdeaLogs(logs, ws, ideaId)| > 0 &&
       forall l :: l in IdeaLogs(logs, ws, ideaId) ==> l.createdAt < now - FourteenDays)
    ensures forall id :: HasKey(r, RiskKey(Delayed, id)) <==>
      exists t :: t in IdeaTasks(tasks, ws, ideaId) && t.id == id && IsDelayed(t, month)
    ensures forall id :: HasKey(r, RiskKey(DependencyViolation, id)) <==>
      exists t :: t in IdeaTasks(tasks, ws, ideaId) && t.id == id && t.status == "in_progress" &&
        HasIncompleteDependency(t, IdeaTasks(tasks, ws, ideaId))
    ensures forall i :: 0 <= i < |r| && r[i].code in {LowActivity, NoLog} ==> r[i].relatedId == ideaId
  {
    var ts := IdeaTasks(tasks, ws, ideaId);
    var ls := IdeaLogs(logs, ws, ideaId);
    DedupRawRisks(ts, ls, ideaId, month, now);
    Dedup(RawRisks(ts, ls, ideaId, month, now))
  }
}
