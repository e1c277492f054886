/** Request and response shapes of backend/app/schemas.py. A raw request holds
    each JSON field as `Option` (absent = `None`); validation applies the
    declared defaults and bounds and either yields the typed value or a
    validation error (FastAPI answers 422). Month fields are plain strings with
    no format constraint. */
module Schemas {
  import opened Common
  import opened Enums

  datatype ValidationError = MissingField(field: string) | OutOfRange(field: string) | BadEnum(field: string)

  predicate InScore(x: int) { 1 <= x <= 5 }

  // ---------------------------------------------------------------------------
  // PriorityInputs

  datatype PriorityInputs = PriorityInputs(impact: int, effort: int, risk: int, urgency: int)

  predicate ValidPriority(p: PriorityInputs) {
    InScore(p.impact) && InScore(p.effort) && InScore(p.risk) && InScore(p.urgency)
  }

  datatype RawPriority = RawPriority(impact: Option<int>, effort: Option<int>, risk: Option<int>, urgency: Option<int>)

  function PriorityToRaw(p: PriorityInputs): RawPriority {
    RawPriority(Some(p.impact), Some(p.effort), Some(p.risk), Some(p.urgency))
  }

  function ScoreField(name: string, v: Option<int>): (r: Result<int, ValidationError>)
    ensures r.Success? <==> v.Some? && InScore(v.value)
    ensures r.Success? ==> r.value == v.value
  {
    match v
    case None => Failure(MissingField(name))
    case Some(x) => if InScore(x) then Success(x) else Failure(OutOfRange(name))
  }

  function ValidatePriority(raw: RawPriority): (r: Result<PriorityInputs, ValidationError>)
    ensures r.Success? <==> (raw.impact.Some? && raw.effort.Some? && raw.risk.Some? && raw.urgency.Some?
      && InScore(raw.impact.value) && InScore(raw.effort.value)
      && InScore(raw.risk.value) && InScore(raw.urgency.value))
    ensures r.Success? ==> ValidPriority(r.value) && PriorityToRaw(r.value) == raw
  {
    match (ScoreField("impact", raw.impact), ScoreField("effort", raw.effort),
           ScoreField("risk", raw.risk), ScoreField("urgency", raw.urgency))
    case (Success(a), Success(b), Success(c), Success(d)) => Success(PriorityInputs(a, b, c, d))
    case (Failure(e), _, _, _) => Failure(e)
    case (_, Failure(e), _, _) => Failure(e)
    case (_, _, Failure(e), _) => Failure(e)
    case (_, _, _, Failure(e)) => Failure(e)
  }

  // ---------------------------------------------------------------------------
  // Enum fields with a default

  function StatusField(v: Option<string>): (r: Result<ItemStatus, ValidationError>)
    ensures v.None? ==> r == Success(Planned)
    ensures v.Some? ==> (r.Success? <==> ParseItemStatus(v.value).Some?)
    ensures v.Some? && r.Success? ==> ItemStatusValue(r.value) == v.value
  {
    match v
    case None => Success(Planned)
    case Some(s) =>
      match ParseItemStatus(s)
      case Some(st) => Success(st)
      case None => Failure(BadEnum("status"))
  }

  function OptionalStatusField(v: Option<string>): (r: Result<Option<ItemStatus>, ValidationError>)
    ensures v.None? ==> r == Success(None)
    ensures v.Some? ==> (r.Success? <==> ParseItemStatus(v.value).Some?)
    ensures v.Some? && r.Success? ==> r.value.Some? && ItemStatusValue(r.value.value) == v.value
  {
    match v
    case None => Success(None)
    case Some(s) =>
      match ParseItemStatus(s)
      case Some(st) => Success(Some(st))
      case None => Failure(BadEnum("status"))
  }

  function Required<T>(name: string, v: Option<T>): (r: Result<T, ValidationError>)
    ensures r.Success? <==> v.Some?
    ensures r.Success? ==> r.value == v.value
  {
    match v
    case None => Failure(MissingField(name))
    case Some(x) => Success(x)
  }

  // ---------------------------------------------------------------------------
  // IdeaBase / IdeaCreate

  datatype IdeaBase = IdeaBase(
    title: string, description: string, status: ItemStatus, mainTopicFlag: bool,
    startMonth: string, targetMonth: string, priority: PriorityInputs)

  datatype RawIdea = RawIdea(
    title: Option<string>, description: Option<string>, status: Option<string>,
    mainTopicFlag: Option<bool>, startMonth: Option<string>, targetMonth: Option<string>,
    priority: Option<RawPriority>)

  function IdeaToRaw(b: IdeaBase): RawIdea {
    RawIdea(Some(b.title), Some(b.description), Some(ItemStatusValue(b.status)),
            Some(b.mainTopicFlag), Some(b.startMonth), Some(b.targetMonth),
            Some(PriorityToRaw(b.priority)))
  }

  function ValidateIdea(raw: RawIdea): (r: Result<IdeaBase, ValidationError>)
    ensures r.Success? <==> (raw.title.Some? && raw.startMonth.Some? && raw.targetMonth.Some?
      && (raw.status.None? || ParseItemStatus(raw.status.value).Some?)
      && raw.priority.Some? && ValidatePriority(raw.priority.value).Success?)
    ensures r.Success? ==>
      && r.value.title == raw.title.value
      && r.value.description == raw.description.GetOr("")
      && r.value.status == (if raw.status.None? then Planned else ParseItemStatus(raw.status.value).value)
      && r.value.mainTopicFlag == raw.mainTopicFlag.GetOr(false)
      && r.value.startMonth == raw.startMonth.value
      && r.value.targetMonth == raw.targetMonth.value
      && ValidPriority(r.value.priority)
      && PriorityToRaw(r.value.priority) == raw.priority.value
  {
    match (Required("title", raw.title), StatusField(raw.status), Required("start_month", raw.startMonth),
           Required("target_month", raw.targetMonth), Required("priority_inputs", raw.priority))
    case (Success(t), Success(st), Success(sm), Success(tm), Success(rp)) =>
      (match ValidatePriority(rp)
       case Success(p) =>
         Success(IdeaBase(t, raw.description.GetOr(""), st, raw.mainTopicFlag.GetOr(false), sm, tm, p))
       case Failure(e) => Failure(e))
    case (Failure(e), _, _, _, _) => Failure(e)
    case (_, Failure(e), _, _, _) => Failure(e)
    case (_, _, Failure(e), _, _) => Failure(e)
    case (_, _, _, Failure(e), _) => Failure(e)
    case (_, _, _, _, Failure(e)) => Failure(e)
  }

  /** A request carrying only the required fields gets every declared default. */
  lemma IdeaDefaults(title: string, sm: string, tm: string, p: PriorityInputs)
    requires ValidPriority(p)
    ensures var r := ValidateIdea(RawIdea(Some(title), None, None, None, Some(sm), Some(tm), Some(PriorityToRaw(p))));
      r == Success(IdeaBase(title, "", Planned, false, sm, tm, p))
  {}

  /** Every valid idea survives serialisation and re-validation unchanged. */
  lemma IdeaRoundTrip(b: IdeaBase)
    requires ValidPriority(b.priority)
    ensures ValidateIdea(IdeaToRaw(b)) == Success(b)
  {
    ItemStatusRoundTrip(b.status);
  }

  // ---------------------------------------------------------------------------
  // IdeaUpdate

  datatype IdeaUpdate = IdeaUpdate(
    title: Option<string>, description: Option<string>, status: Option<ItemStatus>,
    mainTopicFlag: Option<bool>, startMonth: Option<string>, targetMonth: Option<string>,
    priority: Option<PriorityInputs>)

  datatype RawIdeaUpdate = RawIdeaUpdate(
    title: Option<string>, description: Option<string>, status: Option<string>,
    mainTopicFlag: Option<bool>, startMonth: Option<string>, targetMonth: Option<string>,
    priority: Option<RawPriority>)

  function ValidateIdeaUpdate(raw: RawIdeaUpdate): (r: Result<IdeaUpdate, ValidationError>)
    ensures r.Success? <==> ((raw.status.None? || ParseItemStatus(raw.status.value).Some?)
      && (raw.priority.None? || ValidatePriority(raw.priority.value).Success?))
    ensures r.Success? ==>
      && r.value.title == raw.title && r.value.description == raw.description
      && r.value.mainTopicFlag == raw.mainTopicFlag
      && r.value.startMonth == raw.startMonth && r.value.targetMonth == raw.targetMonth
      && r.value.status.Some? == raw.status.Some?
      && (r.value.status.Some? ==> ItemStatusValue(r.value.status.value) == raw.status.value)
      && r.value.priority.Some? == raw.priority.Some?
      && (r.value.priority.Some? ==> ValidPriority(r.value.priority.value))
      && (r.value.priority.Some? ==> PriorityToRaw(r.value.priority.value) == raw.priority.value)
  {
    match OptionalStatusField(raw.status)
    case Failure(e) => Failure(e)
    case Success(st) =>
      match raw.priority
      case None => Success(IdeaUpdate(raw.title, raw.description, st, raw.mainTopicFlag, raw.startMonth, raw.targetMonth, None))
      case Some(rp) =>
        match ValidatePriority(rp)
        case Failure(e) => Failure(e)
        case Success(p) =>
          Success(IdeaUpdate(raw.title, raw.description, st, raw.mainTopicFlag, raw.startMonth, raw.targetMonth, Some(p)))
  }

  // ---------------------------------------------------------------------------
  // TaskBase / TaskCreate

  datatype TaskBase = TaskBase(
    title: string, status: ItemStatus, importance: int,
    startMonth: string, endMonth: string, dueMonth: string, dependencies: seq<string>)

  predicate ValidTaskBase(t: TaskBase) { InScore(t.importance) }

  datatype RawTask = RawTask(
    title: Option<string>, status: Option<string>, importance: Option<int>,
    startMonth: Option<string>, endMonth: Option<string>, dueMonth: Option<string>,
    dependencies: Option<seq<string>>)

  function TaskToRaw(t: TaskBase): RawTask {
    RawTask(Some(t.title), Some(ItemStatusValue(t.status)), Some(t.importance),
            Some(t.startMonth), Some(t.endMonth), Some(t.dueMonth), Some(t.dependencies))
  }

  function ValidateTask(raw: RawTask): (r: Result<TaskBase, ValidationError>)
    ensures r.Success? <==> (raw.title.Some? && raw.startMonth.Some? && raw.endMonth.Some? && raw.dueMonth.Some?
      && (raw.status.None? || ParseItemStatus(raw.status.value).Some?)
      && (raw.importance.None? || InScore(raw.importance.value)))
    ensures r.Success? ==>
      && ValidTaskBase(r.value)
      && r.value.title == raw.title.value
      && r.value.importance == raw.importance.GetOr(3)
      && r.value.status == (if raw.status.None? then Planned else ParseItemStatus(raw.status.value).value)
      && r.value.startMonth == raw.startMonth.value && r.value.endMonth == raw.endMonth.value
      && r.value.dueMonth == raw.dueMonth.value
      && r.value.dependencies == raw.dependencies.GetOr([])
  {
    var imp := if raw.importance.None? then Success(3) else ScoreField("importance", raw.importance);
    match (Required("title", raw.title), StatusField(raw.status), imp, Required("start_month", raw.startMonth),
           Required("end_month", raw.endMonth), Required("due_month", raw.dueMonth))
    case (Success(t), Success(st), Success(i), Success(sm), Success(em), Success(dm)) =>
      Success(TaskBase(t, st, i, sm, em, dm, raw.dependencies.GetOr([])))
    case (Failure(e), _, _, _, _, _) => Failure(e)
    case (_, Failure(e), _, _, _, _) => Failure(e)
    case (_, _, Failure(e), _, _, _) => Failure(e)
    case (_, _, _, Failure(e), _, _) => Failure(e)
    case (_, _, _, _, Failure(e), _) => Failure(e)
    case (_, _, _, _, _, Failure(e)) => Failure(e)
  }

  lemma TaskDefaults(title: string, sm: string, em: string, dm: string)
    ensures ValidateTask(RawTask(Some(title), None, None, Some(sm), Some(em), Some(dm), None))
         == Success(TaskBase(title, Planned, 3, sm, em, dm, []))
  {}

  lemma TaskRoundTrip(t: TaskBase)
    requires ValidTaskBase(t)
    ensures ValidateTask(TaskToRaw(t)) == Success(t)
  {
    ItemStatusRoundTrip(t.status);
  }

  // ---------------------------------------------------------------------------
  // TaskUpdate

  datatype TaskUpdate = TaskUpdate(
    title: Option<string>, status: Option<ItemStatus>, importance: Option<int>,
    startMonth: Option<string>, endMonth: Option<string>, dueMonth: Option<string>)

  datatype RawTaskUpdate = RawTaskUpdate(
    title: Option<string>, status: Option<string>, importance: Option<int>,
    startMonth: Option<string>, endMonth: Option<string>, dueMonth: Option<string>)

  function ValidateTaskUpdate(raw: RawTaskUpdate): (r: Result<TaskUpdate, ValidationError>)
    ensures r.Success? <==> ((raw.status.None? || ParseItemStatus(raw.status.value).Some?)
      && (raw.importance.None? || InScore(raw.importance.value)))
    ensures r.Success? ==>
      && r.value.title == raw.title && r.value.importance == raw.importance
      && r.value.startMonth == raw.startMonth && r.value.endMonth == raw.endMonth
      && r.value.dueMonth == raw.dueMonth
      && r.value.status.Some? == raw.status.Some?
      && (r.value.status.Some? ==> ItemStatusValue(r.value.status.value) == raw.status.value)
  {
    match OptionalStatusField(raw.status)
    case Failure(e) => Failure(e)
    case Success(st) =>
      if raw.importance.Some? && !InScore(raw.importance.value) then Failure(OutOfRange("importance"))
      else Success(TaskUpdate(raw.title, st, raw.importance, raw.startMonth, raw.endMonth, raw.dueMonth))
  }

  /** The empty update is valid and changes nothing. */
  lemma EmptyTaskUpdateValid()
    ensures ValidateTaskUpdate(RawTaskUpdate(None, None, None, None, None, None))
         == Success(TaskUpdate(None, None, None, None, None, None))
  {}

  // ---------------------------------------------------------------------------
  // DeliverableBase / DeliverableCreate / DeliverableUpdate

  datatype DeliverableBase = DeliverableBase(title: string, kind: string, dueMonth: string, status: DeliverableStatus)

  datatype RawDeliverable = RawDeliverable(title: Option<string>, kind: Option<string>, dueMonth: Option<string>, status: Option<string>)

  function ValidateDeliverable(raw: RawDeliverable): (r: Result<DeliverableBase, ValidationError>)
    ensures r.Success? <==> (raw.title.Some? && raw.kind.Some? && raw.dueMonth.Some?
      && (raw.status.None? || ParseDeliverableStatus(raw.status.value).Some?))
    ensures r.Success? ==>
      && r.value.title == raw.title.value && r.value.kind == raw.kind.value
      && r.value.dueMonth == raw.dueMonth.value
      && (raw.status.None? ==> r.value.status == DPlanned)
      && (raw.status.Some? ==> DeliverableStatusValue(r.value.status) == raw.status.value)
  {
    var st := if raw.status.None? then Success(DPlanned)
              else match ParseDeliverableStatus(raw.status.value)
                case Some(s) => Success(s)
                case None => Failure(BadEnum("status"));
    match (Required("title", raw.title), Required("type", raw.kind), Required("due_month", raw.dueMonth), st)
    case (Success(t), Success(k), Success(d), Success(s)) => Success(DeliverableBase(t, k, d, s))
    case (Failure(e), _, _, _) => Failure(e)
    case (_, Failure(e), _, _) => Failure(e)
    case (_, _, Failure(e), _) => Failure(e)
    case (_, _, _, Failure(e)) => Failure(e)
  }

  /** The item statuses outside the deliverable vocabulary are refused. */
  lemma DeliverableRejectsTaskOnlyStatuses(t: string, k: string, d: string, s: ItemStatus)
    requires s in {OnHold, Stopped, Discarded}
    ensures ValidateDeliverable(RawDeliverable(Some(t), Some(k), Some(d), Some(ItemStatusValue(s)))).Failure?
  {}

  datatype DeliverableUpdate = DeliverableUpdate(
    title: Option<string>, kind: Option<string>, dueMonth: Option<string>, status: Option<DeliverableStatus>)

  // ---------------------------------------------------------------------------
  // UpdateLogCreate, LoginResponse

  datatype UpdateLogCreate = UpdateLogCreate(source: string, title: string, bodyMd: string, ideaId: string)

  datatype RawUpdateLogCreate = RawUpdateLogCreate(
    source: Option<string>, title: Option<string>, bodyMd: Option<string>, ideaId: Option<string>)

  function ValidateUpdateLogCreate(raw: RawUpdateLogCreate): (r: Result<UpdateLogCreate, ValidationError>)
    ensures r.Success? <==> raw.title.Some? && raw.bodyMd.Some?
    ensures r.Success? ==>
      && r.value.source == raw.source.GetOr("manual")
      && r.value.ideaId == raw.ideaId.GetOr("")
      && r.value.title == raw.title.value && r.value.bodyMd == raw.bodyMd.value
  {
    match (Required("title", raw.title), Required("body_md", raw.bodyMd))
    case (Success(t), Success(b)) => Success(UpdateLogCreate(raw.source.GetOr("manual"), t, b, raw.ideaId.GetOr("")))
    case (Failure(e), _) => Failure(e)
    case (_, Failure(e)) => Failure(e)
  }

  datatype LoginResponse = LoginResponse(accessToken: string, tokenType: string)

  function MakeLoginResponse(token: string): (r: LoginResponse)
    ensures r.accessToken == token && r.tokenType == "bearer"
  {
    LoginResponse(token, "bearer")
  }

  datatype UserProfile = UserProfile(id: string, email: string, role: string, workspaceId: string)
}
