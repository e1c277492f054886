/** `import_seed` of backend/app/services.py: loading a decoded seed file (ideas,
    tasks and deliverables keyed by slug) into a workspace without duplicating
    what is already there. Ideas are matched by title, tasks and deliverables by
    (idea, title); a record added earlier in the same run is visible to later
    lookups, as the session flushes before each query. The first invalid record
    reached aborts the whole import, and nothing is committed. New row ids come
    from `ids`, indexed by the table's size when the row is added. */
module Seed {
  import opened Common
  import opened Enums
  import opened Schemas
  import opened Records

  datatype SeedIdea = SeedIdea(
    slug: string, title: string, sourceFile: Option<string>, status: string,
    mainTopicFlag: Option<bool>, startMonth: string, targetMonth: string, priority: RawPriority)

  datatype SeedTask = SeedTask(
    ideaSlug: string, title: string, status: string, importance: int, startMonth: string,
    endMonth: string, dueMonth: string, dependencies: Option<seq<string>>)

  datatype SeedDeliverable = SeedDeliverable(
    ideaSlug: string, title: string, kind: string, dueMonth: string, status: string)

  /** A decoded seed file; a missing list is empty. */
  datatype SeedData = SeedData(
    ideas: seq<SeedIdea>, tasks: seq<SeedTask>, deliverables: seq<SeedDeliverable>)

  /** Why an import aborts: `PriorityInputs(**...)` or an enum constructor raised. */
  datatype SeedError = InvalidPriority(error: ValidationError) | InvalidStatus(value: string)

  datatype IdSource = IdSource(idea: nat -> string, task: nat -> string, deliverable: nat -> string)

  datatype Counts = Counts(ideas: nat, tasks: nat, deliverables: nat)

  datatype Outcome = Outcome(store: Store, counts: Counts)

  // ---------------------------------------------------------------------------
  // Lookups

  function IdeaTitled(ws: string, title: string): Idea -> bool {
    (i: Idea) => i.workspaceId == ws && i.title == title
  }

  /** `id` names an idea of workspace `ws`. */
  predicate IsIdeaOf(ideas: seq<Idea>, ws: string, id: string) {
    exists j :: 0 <= j < |ideas| && ideas[j].id == id && ideas[j].workspaceId == ws
  }

  /** The id of the first idea of the workspace with that title. */
  function IdeaIdFor(ideas: seq<Idea>, ws: string, title: string): (r: Option<string>)
    ensures r.Some? <==> exists i :: 0 <= i < |ideas| && ideas[i].workspaceId == ws && ideas[i].title == title
  {
    match FirstIndex(ideas, IdeaTitled(ws, title))
    case Some(i) => Some(ideas[i].id)
    case None => None
  }

  /** A resolved title names an idea of the workspace. */
  lemma IdeaIdForNames(ideas: seq<Idea>, ws: string, title: string)
    ensures IdeaIdFor(ideas, ws, title).Some? ==> IsIdeaOf(ideas, ws, IdeaIdFor(ideas, ws, title).value)
  {
    match FirstIndex(ideas, IdeaTitled(ws, title))
    case Some(i) => assert ideas[i].id == IdeaIdFor(ideas, ws, title).value;
    case None =>
  }

  /** Adding a row never changes which idea a title already resolves to. */
  lemma IdeaIdForSnoc(ideas: seq<Idea>, x: Idea, ws: string, title: string)
    ensures IdeaIdFor(ideas, ws, title).Some? ==>
      IdeaIdFor(ideas + [x], ws, title) == IdeaIdFor(ideas, ws, title)
    ensures IdeaIdFor(ideas, ws, title).None? && x.workspaceId == ws && x.title == title ==>
      IdeaIdFor(ideas + [x], ws, title) == Some(x.id)
  {
    FirstIndexSnoc(ideas, x, IdeaTitled(ws, title));
  }

  predicate HasTask(tasks: seq<Task>, ws: string, ideaId: string, title: string) {
    exists i :: 0 <= i < |tasks| && tasks[i].workspaceId == ws && tasks[i].ideaId == ideaId
      && tasks[i].title == title
  }

  predicate HasDeliverable(ds: seq<Deliverable>, ws: string, ideaId: string, title: string) {
    exists i :: 0 <= i < |ds| && ds[i].workspaceId == ws && ds[i].ideaId == ideaId
      && ds[i].title == title
  }

  /** `idea_slug_map.get(slug)` followed by `if not idea_id: continue`: an absent
      or empty id skips the record. */
  function MappedIdea(slugs: map<string, string>, slug: string): (r: Option<string>)
    ensures r.Some? <==> slug in slugs && slugs[slug] != ""
    ensures r.Some? ==> r.value == slugs[slug]
  {
    if slug in slugs && slugs[slug] != "" then Some(slugs[slug]) else None
  }

  // ---------------------------------------------------------------------------
  // Ideas

  function NewIdea(item: SeedIdea, ws: string, id: string, p: PriorityInputs, st: ItemStatus, now: int): Idea {
    Idea(id, ws, item.title, "Imported from " + item.sourceFile.GetOr("seed"), ItemStatusValue(st),
         item.mainTopicFlag.GetOr(false), item.startMonth, item.targetMonth, p, now, now)
  }

  datatype IdeaRun = IdeaRun(ideas: seq<Idea>, slugs: map<string, string>, added: nat)

  /** One idea record: an existing title only maps the slug; otherwise the
      priority inputs and the status are validated and a new idea is added. */
  function IdeaStep(run: IdeaRun, item: SeedIdea, ws: string, ids: IdSource, now: int): Result<IdeaRun, SeedError> {
    match IdeaIdFor(run.ideas, ws, item.title)
    case Some(id) => Success(run.(slugs := run.slugs[item.slug := id]))
    case None =>
      match ValidatePriority(item.priority)
      case Failure(e) => Failure(InvalidPriority(e))
      case Success(p) =>
        match ParseItemStatus(item.status)
        case None => Failure(InvalidStatus(item.status))
        case Some(st) =>
          var id := ids.idea(|run.ideas|);
          Success(IdeaRun(run.ideas + [NewIdea(item, ws, id, p, st, now)], run.slugs[item.slug := id], run.added + 1))
  }

  /** No idea of the workspace before position `i` has the title of the idea at `i`. */
  predicate FirstOfTitle(ideas: seq<Idea>, i: int)
    requires 0 <= i < |ideas|
  {
    forall j :: 0 <= j < i ==> !(ideas[j].workspaceId == ideas[i].workspaceId && ideas[j].title == ideas[i].title)
  }

  /** The idea records in order. The ideas only grow, every added idea belongs to
      the workspace and is the first with its title there, and afterwards every
      record's title resolves to an idea. */
  function IdeasPass(ideas: seq<Idea>, items: seq<SeedIdea>, ws: string, ids: IdSource, now: int): (r: Result<IdeaRun, SeedError>)
    ensures r.Success? ==> ideas <= r.value.ideas && r.value.added == |r.value.ideas| - |ideas|
    ensures r.Success? ==> forall i :: |ideas| <= i < |r.value.ideas| ==>
      r.value.ideas[i].workspaceId == ws && FirstOfTitle(r.value.ideas, i)
    ensures r.Success? ==> forall k :: 0 <= k < |items| ==> IdeaIdFor(r.value.ideas, ws, items[k].title).Some?
    decreases |items|
  {
    if |items| == 0 then Success(IdeaRun(ideas, map[], 0))
    else
      var prefix := items[..|items| - 1];
      var item := items[|items| - 1];
      match IdeasPass(ideas, prefix, ws, ids, now)
      case Failure(e) => Failure(e)
      case Success(run) =>
        assert items == prefix + [item];
        IdeaStepKeeps(ideas, prefix, item, run, ws, ids, now);
        IdeaStep(run, item, ws, ids, now)
  }

  /** One step of `IdeasPass` keeps its guarantees and resolves the new title. */
  lemma IdeaStepKeeps(ideas: seq<Idea>, prefix: seq<SeedIdea>, item: SeedIdea, run: IdeaRun,
                      ws: string, ids: IdSource, now: int)
    requires ideas <= run.ideas && run.added == |run.ideas| - |ideas|
    requires forall i :: |ideas| <= i < |run.ideas| ==> run.ideas[i].workspaceId == ws && FirstOfTitle(run.ideas, i)
    requires forall k :: 0 <= k < |prefix| ==> IdeaIdFor(run.ideas, ws, prefix[k].title).Some?
    ensures var r := IdeaStep(run, item, ws, ids, now);
      r.Success? ==>
        && ideas <= r.value.ideas && r.value.added == |r.value.ideas| - |ideas|
        && (forall i :: |ideas| <= i < |r.value.ideas| ==>
              r.value.ideas[i].workspaceId == ws && FirstOfTitle(r.value.ideas, i))
        && (forall k :: 0 <= k < |prefix + [item]| ==> IdeaIdFor(r.value.ideas, ws, (prefix + [item])[k].title).Some?)
  {
    var r := IdeaStep(run, item, ws, ids, now);
    var items := prefix + [item];
    if r.Success? && |r.value.ideas| > |run.ideas| {
      var x := r.value.ideas[|run.ideas|];
      assert r.value.ideas == run.ideas + [x];
      assert x.workspaceId == ws && x.title == item.title;
      forall i | |ideas| <= i < |r.value.ideas|
        ensures r.value.ideas[i].workspaceId == ws && FirstOfTitle(r.value.ideas, i)
      {
        if i < |run.ideas| {
          assert FirstOfTitle(run.ideas, i);
        }
      }
      forall k | 0 <= k < |prefix|
        ensures IdeaIdFor(r.value.ideas, ws, prefix[k].title).Some?
      {
        IdeaIdForSnoc(run.ideas, x, ws, prefix[k].title);
      }
      assert IdeaIdFor(r.value.ideas, ws, item.title).Some?;
      forall k | 0 <= k < |items|
        ensures IdeaIdFor(r.value.ideas, ws, items[k].title).Some?
      {
        if k < |prefix| { assert items[k] == prefix[k]; }
      }
    } else if r.Success? {
      forall k | 0 <= k < |items|
        ensures IdeaIdFor(r.value.ideas, ws, items[k].title).Some?
      {
        if k < |prefix| { assert items[k] == prefix[k]; }
      }
    }
  }

  /** The slug map a run over `items` ends with when every title resolves in `ideas`. */
  function LookupSlugs(ideas: seq<Idea>, items: seq<SeedIdea>, ws: string): map<string, string>
    decreases |items|
  {
    if |items| == 0 then map[]
    else
      var item := items[|items| - 1];
      LookupSlugs(ideas, items[..|items| - 1], ws)[item.slug := IdeaIdFor(ideas, ws, item.title).GetOr("")]
  }

  /** Resolutions already made survive appending an idea. */
  lemma {:induction false} LookupSlugsSnoc(ideas: seq<Idea>, x: Idea, items: seq<SeedIdea>, ws: string)
    requires forall k :: 0 <= k < |items| ==> IdeaIdFor(ideas, ws, items[k].title).Some?
    ensures LookupSlugs(ideas + [x], items, ws) == LookupSlugs(ideas, items, ws)
    decreases |items|
  {
    if |items| > 0 {
      var prefix := items[..|items| - 1];
      assert forall k :: 0 <= k < |prefix| ==> prefix[k] == items[k];
      LookupSlugsSnoc(ideas, x, prefix, ws);
      IdeaIdForSnoc(ideas, x, ws, items[|items| - 1].title);
    }
  }

  /** Every non-empty id in a resolved slug map names an idea of the workspace. */
  lemma {:induction false} LookupSlugsValues(ideas: seq<Idea>, items: seq<SeedIdea>, ws: string)
    ensures forall v :: v in LookupSlugs(ideas, items, ws).Values && v != "" ==> IsIdeaOf(ideas, ws, v)
    decreases |items|
  {
    if |items| > 0 {
      LookupSlugsValues(ideas, items[..|items| - 1], ws);
      IdeaIdForNames(ideas, ws, items[|items| - 1].title);
    }
  }

  /** Each slug ends up mapped to the first idea of the workspace carrying the
      title of the last record with that slug. */
  lemma {:induction false} IdeasPassSlugs(ideas: seq<Idea>, items: seq<SeedIdea>, ws: string, ids: IdSource, now: int)
    requires IdeasPass(ideas, items, ws, ids, now).Success?
    ensures IdeasPass(ideas, items, ws, ids, now).value.slugs
      == LookupSlugs(IdeasPass(ideas, items, ws, ids, now).value.ideas, items, ws)
    decreases |items|
  {
    if |items| > 0 {
      var prefix := items[..|items| - 1];
      var item := items[|items| - 1];
      IdeasPassSlugs(ideas, prefix, ws, ids, now);
      var run := IdeasPass(ideas, prefix, ws, ids, now).value;
      var next := IdeaStep(run, item, ws, ids, now).value;
      if |next.ideas| > |run.ideas| {
        var x := next.ideas[|run.ideas|];
        assert next.ideas == run.ideas + [x];
        LookupSlugsSnoc(run.ideas, x, prefix, ws);
        IdeaIdForSnoc(run.ideas, x, ws, item.title);
      }
    }
  }

  /** When every title already resolves, the pass adds nothing and only maps slugs. */
  lemma {:induction false} IdeasPassResolved(ideas: seq<Idea>, items: seq<SeedIdea>, ws: string, ids: IdSource, now: int)
    requires forall k :: 0 <= k < |items| ==> IdeaIdFor(ideas, ws, items[k].title).Some?
    ensures IdeasPass(ideas, items, ws, ids, now) == Success(IdeaRun(ideas, LookupSlugs(ideas, items, ws), 0))
    decreases |items|
  {
    if |items| > 0 {
      var prefix := items[..|items| - 1];
      assert forall k :: 0 <= k < |prefix| ==> prefix[k] == items[k];
      IdeasPassResolved(ideas, prefix, ws, ids, now);
    }
  }

  // ---------------------------------------------------------------------------
  // Tasks

  function NewTask(item: SeedTask, ws: string, id: string, ideaId: string, st: ItemStatus, now: int): Task {
    Task(id, ws, ideaId, item.title, ItemStatusValue(st), item.importance, item.startMonth,
         item.endMonth, item.dueMonth, item.dependencies.GetOr([]), 0, now)
  }

  datatype TaskRun = TaskRun(tasks: seq<Task>, added: nat)

  /** The task at `i` is the first of its workspace, idea and title, and belongs
      to an idea the slug map resolves to. */
  predicate NewTaskOk(tasks: seq<Task>, i: int, slugs: map<string, string>, ws: string)
    requires 0 <= i < |tasks|
  {
    tasks[i].workspaceId == ws && tasks[i].ideaId != "" && tasks[i].ideaId in slugs.Values
    && !HasTask(tasks[..i], ws, tasks[i].ideaId, tasks[i].title)
  }

  function TaskStep(run: TaskRun, item: SeedTask, slugs: map<string, string>, ws: string, ids: IdSource, now: int): Result<TaskRun, SeedError> {
    match MappedIdea(slugs, item.ideaSlug)
    case None => Success(run)
    case Some(ideaId) =>
      if HasTask(run.tasks, ws, ideaId, item.title) then Success(run)
      else
        match ParseItemStatus(item.status)
        case None => Failure(InvalidStatus(item.status))
        case Some(st) =>
          Success(TaskRun(run.tasks + [NewTask(item, ws, ids.task(|run.tasks|), ideaId, st, now)], run.added + 1))
  }

  /** The task records in order. Tasks only grow, and afterwards every record
      whose slug maps to an idea has a task of that idea with its title. */
  function TasksPass(tasks: seq<Task>, items: seq<SeedTask>, slugs: map<string, string>, ws: string, ids: IdSource, now: int): (r: Result<TaskRun, SeedError>)
    ensures r.Success? ==> tasks <= r.value.tasks && r.value.added == |r.value.tasks| - |tasks|
    ensures r.Success? ==> forall k :: 0 <= k < |items| && MappedIdea(slugs, items[k].ideaSlug).Some? ==>
      HasTask(r.value.tasks, ws, MappedIdea(slugs, items[k].ideaSlug).value, items[k].title)
    ensures r.Success? ==> forall i :: |tasks| <= i < |r.value.tasks| ==> NewTaskOk(r.value.tasks, i, slugs, ws)
    decreases |items|
  {
    if |items| == 0 then Success(TaskRun(tasks, 0))
    else
      var prefix := items[..|items| - 1];
      var item := items[|items| - 1];
      match TasksPass(tasks, prefix, slugs, ws, ids, now)
      case Failure(e) => Failure(e)
      case Success(run) =>
        var r := TaskStep(run, item, slugs, ws, ids, now);
        assert forall k :: 0 <= k < |items| ==> items[k] == item || items[k] == prefix[k];
        if r.Success? && |r.value.tasks| > |run.tasks| then
          var x := r.value.tasks[|run.tasks|];
          assert r.value.tasks == run.tasks + [x];
          assert forall i :: 0 <= i < |run.tasks| ==> r.value.tasks[i] == run.tasks[i];
          forall i | |tasks| <= i < |run.tasks|
            ensures NewTaskOk(r.value.tasks, i, slugs, ws)
          {
            assert r.value.tasks[..i] == run.tasks[..i];
            assert NewTaskOk(run.tasks, i, slugs, ws);
          }
          assert r.value.tasks[..|run.tasks|] == run.tasks;
          assert NewTaskOk(r.value.tasks, |run.tasks|, slugs, ws) by {
            assert slugs[item.ideaSlug] in slugs.Values;
          }
          r
        else
          r
  }

  /** When every mapped record already has its task, the pass adds nothing. */
  lemma {:induction false} TasksPassResolved(tasks: seq<Task>, items: seq<SeedTask>, slugs: map<string, string>, ws: string, ids: IdSource, now: int)
    requires forall k :: 0 <= k < |items| && MappedIdea(slugs, items[k].ideaSlug).Some? ==>
      HasTask(tasks, ws, MappedIdea(slugs, items[k].ideaSlug).value, items[k].title)
    ensures TasksPass(tasks, items, slugs, ws, ids, now) == Success(TaskRun(tasks, 0))
    decreases |items|
  {
    if |items| > 0 {
      var prefix := items[..|items| - 1];
      assert forall k :: 0 <= k < |prefix| ==> prefix[k] == items[k];
      TasksPassResolved(tasks, prefix, slugs, ws, ids, now);
    }
  }

  // ---------------------------------------------------------------------------
  // Deliverables

  function NewDeliverable(item: SeedDeliverable, ws: string, id: string, ideaId: string, st: DeliverableStatus): Deliverable {
    Deliverable(id, ws, ideaId, item.title, item.kind, item.dueMonth, DeliverableStatusValue(st))
  }

  datatype DeliverableRun = DeliverableRun(deliverables: seq<Deliverable>, added: nat)

  predicate NewDeliverableOk(ds: seq<Deliverable>, i: int, slugs: map<string, string>, ws: string)
    requires 0 <= i < |ds|
  {
    ds[i].workspaceId == ws && ds[i].ideaId != "" && ds[i].ideaId in slugs.Values
    && !HasDeliverable(ds[..i], ws, ds[i].ideaId, ds[i].title)
  }

  function DeliverableStep(run: DeliverableRun, item: SeedDeliverable, slugs: map<string, string>, ws: string, ids: IdSource): Result<DeliverableRun, SeedError> {
    match MappedIdea(slugs, item.ideaSlug)
    case None => Success(run)
    case Some(ideaId) =>
      if HasDeliverable(run.deliverables, ws, ideaId, item.title) then Success(run)
      else
        match ParseDeliverableStatus(item.status)
        case None => Failure(InvalidStatus(item.status))
        case Some(st) =>
          var d := NewDeliverable(item, ws, ids.deliverable(|run.deliverables|), ideaId, st);
          Success(DeliverableRun(run.deliverables + [d], run.added + 1))
  }

  /** The deliverable records in order, with the guarantees of `TasksPass`. */
  function DeliverablesPass(ds: seq<Deliverable>, items: seq<SeedDeliverable>, slugs: map<string, string>, ws: string, ids: IdSource): (r: Result<DeliverableRun, SeedError>)
    ensures r.Success? ==> ds <= r.value.deliverables && r.value.added == |r.value.deliverables| - |ds|
    ensures r.Success? ==> forall k :: 0 <= k < |items| && MappedIdea(slugs, items[k].ideaSlug).Some? ==>
      HasDeliverable(r.value.deliverables, ws, MappedIdea(slugs, items[k].ideaSlug).value, items[k].title)
    ensures r.Success? ==> forall i :: |ds| <= i < |r.value.deliverables| ==>
      NewDeliverableOk(r.value.deliverables, i, slugs, ws)
    decreases |items|
  {
    if |items| == 0 then Success(DeliverableRun(ds, 0))
    else
      var prefix := items[..|items| - 1];
      var item := items[|items| - 1];
      match DeliverablesPass(ds, prefix, slugs, ws, ids)
      case Failure(e) => Failure(e)
      case Success(run) =>
        var r := DeliverableStep(run, item, slugs, ws, ids);
        assert forall k :: 0 <= k < |items| ==> items[k] == item || items[k] == prefix[k];
        if r.Success? && |r.value.deliverables| > |run.deliverables| then
          var x := r.value.deliverables[|run.deliverables|];
          assert r.value.deliverables == run.deliverables + [x];
          assert forall i :: 0 <= i < |run.deliverables| ==> r.value.deliverables[i] == run.deliverables[i];
          forall i | |ds| <= i < |run.deliverables|
            ensures NewDeliverableOk(r.value.deliverables, i, slugs, ws)
          {
            assert r.value.deliverables[..i] == run.deliverables[..i];
            assert NewDeliverableOk(run.deliverables, i, slugs, ws);
          }
          assert r.value.deliverables[..|run.deliverables|] == run.deliverables;
          assert NewDeliverableOk(r.value.deliverables, |run.deliverables|, slugs, ws) by {
            assert slugs[item.ideaSlug] in slugs.Values;
          }
          r
        else
          r
  }

  lemma {:induction false} DeliverablesPassResolved(ds: seq<Deliverable>, items: seq<SeedDeliverable>, slugs: map<string, string>, ws: string, ids: IdSource)
    requires forall k :: 0 <= k < |items| && MappedIdea(slugs, items[k].ideaSlug).Some? ==>
      HasDeliverable(ds, ws, MappedIdea(slugs, items[k].ideaSlug).value, items[k].title)
    ensures DeliverablesPass(ds, items, slugs, ws, ids) == Success(DeliverableRun(ds, 0))
    decreases |items|
  {
    if |items| > 0 {
      var prefix := items[..|items| - 1];
      assert forall k :: 0 <= k < |prefix| ==> prefix[k] == items[k];
      DeliverablesPassResolved(ds, prefix, slugs, ws, ids);
    }
  }

  // ---------------------------------------------------------------------------
  // The import

  /** `import_seed(db, workspace_id, ...)`: the store after the commit and the
      three counters, or the error that aborted it (the store is then unchanged,
      being the caller's). */
  function ImportSeed(s: Store, ws: string, seed: SeedData, ids: IdSource, now: int): (r: Result<Outcome, SeedError>)
    ensures r.Success? ==> (s.ideas <= r.value.store.ideas && s.tasks <= r.value.store.tasks
      && s.deliverables <= r.value.store.deliverables)
    ensures r.Success? ==> (r.value.store.users == s.users && r.value.store.members == s.members
      && r.value.store.logs == s.logs)
    ensures r.Success? ==> r.value.counts == Counts(
      |r.value.store.ideas| - |s.ideas|, |r.value.store.tasks| - |s.tasks|,
      |r.value.store.deliverables| - |s.deliverables|)
    ensures r.Success? ==> forall i :: |s.ideas| <= i < |r.value.store.ideas| ==>
      r.value.store.ideas[i].workspaceId == ws && FirstOfTitle(r.value.store.ideas, i)
  {
    match IdeasPass(s.ideas, seed.ideas, ws, ids, now)
    case Failure(e) => Failure(e)
    case Success(ir) =>
      match TasksPass(s.tasks, seed.tasks, ir.slugs, ws, ids, now)
      case Failure(e) => Failure(e)
      case Success(tr) =>
        match DeliverablesPass(s.deliverables, seed.deliverables, ir.slugs, ws, ids)
        case Failure(e) => Failure(e)
        case Success(dr) =>
          Success(Outcome(s.(ideas := ir.ideas, tasks := tr.tasks, deliverables := dr.deliverables),
                          Counts(ir.added, tr.added, dr.added)))
  }

  /** Importing the same seed again adds nothing and reports (0, 0, 0). */
  lemma ImportSeedIdempotent(s: Store, ws: string, seed: SeedData, ids: IdSource, now: int)
    requires ImportSeed(s, ws, seed, ids, now).Success?
    ensures var s1 := ImportSeed(s, ws, seed, ids, now).value.store;
      ImportSeed(s1, ws, seed, ids, now) == Success(Outcome(s1, Counts(0, 0, 0)))
  {
    var ir := IdeasPass(s.ideas, seed.ideas, ws, ids, now).value;
    var tr := TasksPass(s.tasks, seed.tasks, ir.slugs, ws, ids, now).value;
    var dr := DeliverablesPass(s.deliverables, seed.deliverables, ir.slugs, ws, ids).value;
    var s1 := ImportSeed(s, ws, seed, ids, now).value.store;
    assert s1 == s.(ideas := ir.ideas, tasks := tr.tasks, deliverables := dr.deliverables);
    IdeasPassSlugs(s.ideas, seed.ideas, ws, ids, now);
    IdeasPassResolved(ir.ideas, seed.ideas, ws, ids, now);
    TasksPassResolved(tr.tasks, seed.tasks, ir.slugs, ws, ids, now);
    DeliverablesPassResolved(dr.deliverables, seed.deliverables, ir.slugs, ws, ids);
  }

  /** Every task and deliverable an import adds belongs to the workspace, refers
      to an idea of the workspace, and is the first of its (idea, title) there. */
  lemma ImportedRecordsReferToIdeas(s: Store, ws: string, seed: SeedData, ids: IdSource, now: int)
    requires ImportSeed(s, ws, seed, ids, now).Success?
    ensures var s1 := ImportSeed(s, ws, seed, ids, now).value.store;
      forall i :: |s.tasks| <= i < |s1.tasks| ==>
        s1.tasks[i].workspaceId == ws && IsIdeaOf(s1.ideas, ws, s1.tasks[i].ideaId)
        && !HasTask(s1.tasks[..i], ws, s1.tasks[i].ideaId, s1.tasks[i].title)
    ensures var s1 := ImportSeed(s, ws, seed, ids, now).value.store;
      forall i :: |s.deliverables| <= i < |s1.deliverables| ==>
        s1.deliverables[i].workspaceId == ws && IsIdeaOf(s1.ideas, ws, s1.deliverables[i].ideaId)
        && !HasDeliverable(s1.deliverables[..i], ws, s1.deliverables[i].ideaId, s1.deliverables[i].title)
  {
    var ir := IdeasPass(s.ideas, seed.ideas, ws, ids, now).value;
    var tr := TasksPass(s.tasks, seed.tasks, ir.slugs, ws, ids, now).value;
    var dr := DeliverablesPass(s.deliverables, seed.deliverables, ir.slugs, ws, ids).value;
    var s1 := ImportSeed(s, ws, seed, ids, now).value.store;
    assert s1.ideas == ir.ideas && s1.tasks == tr.tasks && s1.deliverables == dr.deliverables;
    IdeasPassSlugs(s.ideas, seed.ideas, ws, ids, now);
    LookupSlugsValues(ir.ideas, seed.ideas, ws);
    forall i | |s.tasks| <= i < |tr.tasks|
      ensures tr.tasks[i].workspaceId == ws && IsIdeaOf(ir.ideas, ws, tr.tasks[i].ideaId)
        && !HasTask(tr.tasks[..i], ws, tr.tasks[i].ideaId, tr.tasks[i].title)
    {
      assert NewTaskOk(tr.tasks, i, ir.slugs, ws);
    }
    forall i | |s.deliverables| <= i < |dr.deliverables|
      ensures dr.deliverables[i].workspaceId == ws && IsIdeaOf(ir.ideas, ws, dr.deliverables[i].ideaId)
        && !HasDeliverable(dr.deliverables[..i], ws, dr.deliverables[i].ideaId, dr.deliverables[i].title)
    {
      assert NewDeliverableOk(dr.deliverables, i, ir.slugs, ws);
    }
  }
}
