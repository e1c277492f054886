/** The list and edit logic of frontend/src/app/project/page.tsx: the idea
    filter over the task and deliverable tables, the sequential deliverable
    load, the inline edit draft with its end-month and importance rules, and
    the save protocol. Responses are inputs: `Ok` with a body, or the status of
    a failed request, wrapped in `Option` where the call can also throw. */
module ProjectPage {
  import opened Common
  import opened Text

  /** A row of `GET /tasks` (`TaskWithIdea`). */
  datatype ListedTask = ListedTask(id: string, ideaId: string, ideaTitle: string, title: string, status: string,
                                   importance: nat, startMonth: string, endMonth: string, dueMonth: string)

  /** A row of `GET /ideas/{id}/deliverables`. */
  datatype ListedDeliverable = ListedDeliverable(id: string, ideaId: string, title: string, kind: string,
                                                 status: string, dueMonth: string)

  // ---------------------------------------------------------------------------
  // Filters

  function TaskOfIdea(ideaId: string): ListedTask -> bool {
    (t: ListedTask) => t.ideaId == ideaId
  }

  function DeliverableOfIdea(ideaId: string): ListedDeliverable -> bool {
    (d: ListedDeliverable) => d.ideaId == ideaId
  }

  /** `filteredTasks`: everything while the filter is empty, else the tasks of
      the chosen idea. */
  function FilteredTasks(all: seq<ListedTask>, filterIdeaId: string): (r: seq<ListedTask>)
    ensures filterIdeaId == "" ==> r == all
    ensures filterIdeaId != "" ==> forall t :: t in r <==> t in all && t.ideaId == filterIdeaId
  {
    if filterIdeaId == "" then all
    else
      FilterMembers(all, TaskOfIdea(filterIdeaId));
      Filter(all, TaskOfIdea(filterIdeaId))
  }

  /** `filteredDeliverables`, by the same rule. */
  function FilteredDeliverables(all: seq<ListedDeliverable>, filterIdeaId: string): (r: seq<ListedDeliverable>)
    ensures filterIdeaId == "" ==> r == all
    ensures filterIdeaId != "" ==> forall d :: d in r <==> d in all && d.ideaId == filterIdeaId
  {
    if filterIdeaId == "" then all
    else
      FilterMembers(all, DeliverableOfIdea(filterIdeaId));
      Filter(all, DeliverableOfIdea(filterIdeaId))
  }

  /** The filter keeps the table's order: filtering two consecutive stretches
      of rows and joining the results is filtering the whole. */
  lemma FilteredKeepsOrder(a: seq<ListedTask>, b: seq<ListedTask>, c: seq<ListedDeliverable>,
                           d: seq<ListedDeliverable>, filterIdeaId: string)
    ensures FilteredTasks(a + b, filterIdeaId) == FilteredTasks(a, filterIdeaId) + FilteredTasks(b, filterIdeaId)
    ensures FilteredDeliverables(c + d, filterIdeaId)
      == FilteredDeliverables(c, filterIdeaId) + FilteredDeliverables(d, filterIdeaId)
  {
    FilterConcat(a, b, TaskOfIdea(filterIdeaId));
    FilterConcat(c, d, DeliverableOfIdea(filterIdeaId));
  }

  /** Filtering by an idea no row belongs to leaves the table empty; filtering a
      table of one idea by that idea keeps it whole. */
  lemma FilterOneIdea(all: seq<ListedTask>, ideaId: string, other: string)
    requires ideaId != "" && other != "" && other != ideaId
    requires forall i :: 0 <= i < |all| ==> all[i].ideaId == ideaId
    ensures FilteredTasks(all, ideaId) == all
    ensures FilteredTasks(all, other) == []
  {
    FilterAll(all, TaskOfIdea(ideaId));
    FilterNone(all, TaskOfIdea(other));
  }

  // ---------------------------------------------------------------------------
  // Loading deliverables

  /** The answer to one request: an ok response with its body, or a failure. */
  datatype Response<T> = Ok(body: T) | NotOk(status: nat)

  /** What one answer contributes: its body when ok, nothing otherwise. */
  function OkRows<T>(response: Response<seq<T>>): (r: seq<T>)
    ensures response.Ok? ==> r == response.body
    ensures response.NotOk? ==> r == []
  {
    if response.Ok? then response.body else []
  }

  /** The bodies of the ok answers, in request order. */
  function OkBodies<T>(responses: seq<Response<seq<T>>>): (r: seq<T>)
    ensures (forall i :: 0 <= i < |responses| ==> responses[i].NotOk?) ==> r == []
    ensures |r| == SumOfOk(responses)
  {
    if responses == [] then []
    else
      OkBodies(responses[..|responses| - 1]) + OkRows(responses[|responses| - 1])
  }

  /** The number of rows the ok answers carry. */
  function SumOfOk<T>(responses: seq<Response<seq<T>>>): nat {
    if responses == [] then 0
    else
      var last := responses[|responses| - 1];
      SumOfOk(responses[..|responses| - 1]) + (if last.Ok? then |last.body| else 0)
  }

  /** The answers to one request per id, in order, or `None` when any of the
      calls threw (`fetch(id) == None`): the awaited loop stops at the throw. */
  function Answers<T>(ids: seq<string>, fetch: string -> Option<Response<T>>): (r: Option<seq<Response<T>>>)
    ensures r.None? <==> exists i :: 0 <= i < |ids| && fetch(ids[i]).None?
    ensures r.Some? ==> |r.value| == |ids| && forall i :: 0 <= i < |ids| ==> fetch(ids[i]) == Some(r.value[i])
  {
    if |ids| == 0 then Some([])
    else
      var init := ids[..|ids| - 1];
      assert forall i :: 0 <= i < |init| ==> init[i] == ids[i];
      match Answers(init, fetch)
      case None => None
      case Some(rs) =>
        match fetch(ids[|ids| - 1])
        case None => None
        case Some(x) => Some(rs + [x])
  }

  /** The answers for two runs of ids are the answers of each run, in order. */
  lemma {:induction false} AnswersConcat<T>(a: seq<string>, b: seq<string>, fetch: string -> Option<Response<T>>)
    requires Answers(a + b, fetch).Some?
    ensures Answers(a, fetch).Some? && Answers(b, fetch).Some?
    ensures Answers(a + b, fetch).value == Answers(a, fetch).value + Answers(b, fetch).value
  {
    assert forall i :: 0 <= i < |a| ==> (a + b)[i] == a[i];
    assert forall i :: 0 <= i < |b| ==> (a + b)[|a| + i] == b[i];
    var ra := Answers(a, fetch).value;
    var rb := Answers(b, fetch).value;
    var rab := Answers(a + b, fetch).value;
    assert forall i :: 0 <= i < |rab| ==> Some(rab[i]) == Some((ra + rb)[i]) by {
      forall i | 0 <= i < |rab|
        ensures Some(rab[i]) == Some((ra + rb)[i])
      {
        if i < |a| {
          assert fetch((a + b)[i]) == Some(rab[i]);
        } else {
          assert fetch((a + b)[|a| + (i - |a|)]) == Some(rab[i]);
        }
      }
    }
  }

  /** `loadAllDeliverables(ideaList?)`: `None` when the table stays as it was,
      which is when there is no token or when one of the awaited calls threw;
      else the new deliverable table. `ideaList` replaces the page's idea list
      when given; `fetch` answers the request for one idea id, or `None` for a
      thrown call. */
  function LoadAllDeliverables(token: string, ideaList: Option<seq<string>>, ideas: seq<string>,
                               fetch: string -> Option<Response<seq<ListedDeliverable>>>): (r: Option<seq<ListedDeliverable>>)
    ensures var ids := ideaList.GetOr(ideas);
      r.None? <==> token == "" || exists i :: 0 <= i < |ids| && fetch(ids[i]).None?
    ensures r.Some? ==> |r.value| == SumOfOk(Answers(ideaList.GetOr(ideas), fetch).value)
  {
    if token == "" then None
    else
      match Answers(ideaList.GetOr(ideas), fetch)
      case None => None
      case Some(rs) => Some(OkBodies(rs))
  }

  /** Loading two runs of ideas gives the first run's rows, then the second's:
      the rows of an idea come before those of any later idea. */
  lemma LoadAllDeliverablesOrder(token: string, a: seq<string>, b: seq<string>, ideas: seq<string>,
                                 fetch: string -> Option<Response<seq<ListedDeliverable>>>)
    requires LoadAllDeliverables(token, Some(a + b), ideas, fetch).Some?
    ensures LoadAllDeliverables(token, Some(a), ideas, fetch).Some?
    ensures LoadAllDeliverables(token, Some(b), ideas, fetch).Some?
    ensures LoadAllDeliverables(token, Some(a + b), ideas, fetch).value
      == LoadAllDeliverables(token, Some(a), ideas, fetch).value + LoadAllDeliverables(token, Some(b), ideas, fetch).value
  {
    AnswersConcat(a, b, fetch);
    OkBodiesConcat(Answers(a, fetch).value, Answers(b, fetch).value);
  }

  /** The last answer's rows come last. */
  lemma OkBodiesLast<T>(responses: seq<Response<seq<T>>>)
    requires |responses| > 0
    ensures OkBodies(responses) == OkBodies(responses[..|responses| - 1]) + OkRows(responses[|responses| - 1])
  {}

  /** The table is the concatenation of the answers of two consecutive runs of
      ideas, so every idea's deliverables stay together and in idea order. */
  lemma {:induction false} OkBodiesConcat<T>(a: seq<Response<seq<T>>>, b: seq<Response<seq<T>>>)
    ensures OkBodies(a + b) == OkBodies(a) + OkBodies(b)
    decreases |b|
  {
    if b == [] {
      assert a + b == a;
    } else {
      OkBodiesConcat(a, b[..|b| - 1]);
      OkBodiesConcatStep(a, b);
    }
  }

  /** The inductive step of `OkBodiesConcat`: one more answer at the end of `b`. */
  lemma OkBodiesConcatStep<T>(a: seq<Response<seq<T>>>, b: seq<Response<seq<T>>>)
    requires |b| > 0
    requires OkBodies(a + b[..|b| - 1]) == OkBodies(a) + OkBodies(b[..|b| - 1])
    ensures OkBodies(a + b) == OkBodies(a) + OkBodies(b)
  {
    var b' := b[..|b| - 1];
    var last := b[|b| - 1];
    var x := OkRows(last);
    OkBodiesLast(a + b);
    OkBodiesLast(b);
    SplitLast(a, b);
    assert OkBodies(a + b) == OkBodies(a + b') + x;
    assert OkBodies(b) == OkBodies(b') + x;
    AppendAssoc(OkBodies(a), OkBodies(b'), x);
  }

  // ---------------------------------------------------------------------------
  // Inline editing

  type Draft = map<string, string>

  /** The page's edit state. */
  datatype Edit = Edit(editId: Option<string>, draft: Draft, message: string)

  /** `startEdit(id, init)`. */
  function StartEdit(e: Edit, id: string, init: Draft): (r: Edit)
    ensures r.editId == Some(id) && r.draft == init && r.message == e.message
  {
    e.(editId := Some(id), draft := init)
  }

  /** `cancelEdit()`. */
  function CancelEdit(e: Edit): (r: Edit)
    ensures r.editId.None? && r.draft == map[] && r.message == e.message
  {
    e.(editId := None, draft := map[])
  }

  /** The draft a task row starts with: its fields as text. */
  function TaskDraft(t: ListedTask): (r: Draft)
    ensures r.Keys == {"status", "title", "start_month", "end_month", "due_month", "importance"}
    ensures r["importance"] == NatToString(t.importance) && r["due_month"] == t.dueMonth
  {
    map["status" := t.status, "title" := t.title, "start_month" := t.startMonth,
        "end_month" := t.endMonth, "due_month" := t.dueMonth, "importance" := NatToString(t.importance)]
  }

  /** Typing into a draft field other than the end month. */
  function EditField(d: Draft, field: string, value: string): (r: Draft)
    requires field != "end_month"
    ensures r.Keys == d.Keys + {field} && r[field] == value
    ensures forall k :: k in d && k != field ==> r[k] == d[k]
  {
    d[field := value]
  }

  /** Typing into the task's end month also sets its due month. */
  function EditEndMonth(d: Draft, value: string): (r: Draft)
    ensures r.Keys == d.Keys + {"end_month", "due_month"}
    ensures r["end_month"] == value && r["due_month"] == value
    ensures forall k :: k in d && k != "end_month" && k != "due_month" ==> r[k] == d[k]
  {
    d["end_month" := value]["due_month" := value]
  }

  /** After an end-month edit the due month follows it until the due month
      itself is typed into, whatever other fields change in between. */
  lemma {:induction false} DueFollowsEnd(d: Draft, value: string, later: seq<(string, string)>)
    requires forall i :: 0 <= i < |later| ==> later[i].0 != "end_month" && later[i].0 != "due_month"
    ensures var r := EditFields(EditEndMonth(d, value), later);
      r["end_month"] == value && r["due_month"] == value
    decreases |later|
  {
    if later != [] {
      DueFollowsEnd(d, value, later[..|later| - 1]);
    }
  }

  /** A run of edits to fields other than the end month. */
  function EditFields(d: Draft, edits: seq<(string, string)>): (r: Draft)
    requires forall i :: 0 <= i < |edits| ==> edits[i].0 != "end_month"
    ensures d.Keys <= r.Keys
  {
    if edits == [] then d
    else
      var last := edits[|edits| - 1];
      EditField(EditFields(d, edits[..|edits| - 1]), last.0, last.1)
  }

  /** A value sent as JSON. `NumberText` is `Number(text)` for a text the model
      does not evaluate (a decimal, an exponent, NaN). */
  datatype Json = JString(s: string) | JNumber(n: int) | NumberText(text: string)

  /** The payload of a task save: the draft as it is, except that a non-empty
      importance is sent as a number. */
  function TaskPayload(d: Draft): (r: map<string, Json>)
    ensures r.Keys == d.Keys
    ensures forall k :: k in d && !(k == "importance" && d[k] != "") ==> r[k] == JString(d[k])
    ensures "importance" in d && d["importance"] != "" ==>
      r["importance"] == match JsNumber(d["importance"])
        case Some(n) => JNumber(n)
        case None => NumberText(d["importance"])
  {
    var p := map k | k in d :: JString(d[k]);
    if "importance" in d && d["importance"] != "" then
      p["importance" := match JsNumber(d["importance"])
        case Some(n) => JNumber(n)
        case None => NumberText(d["importance"])]
    else p
  }

  /** The other two save buttons send the draft as it is. */
  function DraftPayload(d: Draft): (r: map<string, Json>)
    ensures r.Keys == d.Keys && forall k :: k in d ==> r[k] == JString(d[k])
  {
    map k | k in d :: JString(d[k])
  }

  /** The task payload differs from the plain draft payload only at a
      non-empty importance, which becomes a number or a `Number(...)` text. */
  lemma TaskPayloadVersusDraft(d: Draft)
    ensures TaskPayload(d) == DraftPayload(d) <==> !("importance" in d && d["importance"] != "")
  {
    if "importance" in d && d["importance"] != "" {
      assert !TaskPayload(d)["importance"].JString?;
    }
  }

  /** Opening a task row and changing only its end month sends the new month as
      both end and due month, and the row's own importance back as a number. */
  lemma EditTaskRow(t: ListedTask, value: string)
    ensures var p := TaskPayload(EditEndMonth(TaskDraft(t), value));
      && p["end_month"] == JString(value) && p["due_month"] == JString(value)
      && p["importance"] == JNumber(t.importance)
      && p["title"] == JString(t.title) && p["status"] == JString(t.status)
  {
    var d := EditEndMonth(TaskDraft(t), value);
    EditedTaskDraft(t, value);
    JsNumberOfNatToString(t.importance);
    assert "end_month" in d && "due_month" in d && "title" in d && "status" in d;
  }

  /** The draft after the end-month edit: the two months changed, the other
      fields as the row had them. */
  lemma EditedTaskDraft(t: ListedTask, value: string)
    ensures var d := EditEndMonth(TaskDraft(t), value);
      && "end_month" in d && d["end_month"] == value
      && "due_month" in d && d["due_month"] == value
      && "importance" in d && d["importance"] == NatToString(t.importance)
      && "title" in d && d["title"] == t.title
      && "status" in d && d["status"] == t.status
  {
    var d0 := TaskDraft(t);
    assert "importance" in d0 && "title" in d0 && "status" in d0;
    assert d0["title"] == t.title && d0["status"] == t.status;
  }

  // ---------------------------------------------------------------------------
  // Saving

  predicate IsOk(status: nat) { 200 <= status < 300 }

  /** `patchAndReload(url, payload, reload)` once the PATCH has settled:
      `Some(status)` for a response, `None` for a thrown call, which ends the
      function before any state is set. Returns the new edit state and whether
      `reload` runs. */
  function PatchAndReload(e: Edit, answer: Option<nat>): (r: (Edit, bool))
    ensures r.1 <==> answer.Some? && IsOk(answer.value)
    ensures answer.None? ==> r.0 == e
    ensures answer.Some? && !IsOk(answer.value) ==> r.0 == e.(message := "Save failed: " + NatToString(answer.value))
    ensures answer.Some? && IsOk(answer.value) ==> r.0 == Edit(None, map[], "Saved")
  {
    match answer
    case None => (e, false)
    case Some(status) =>
      if !IsOk(status) then (e.(message := "Save failed: " + NatToString(status)), false)
      else (CancelEdit(e.(message := "Saved")), true)
  }

  /** A failed or thrown save can be retried from the same draft; a successful
      one leaves nothing to retry. */
  lemma SaveRetry(e: Edit, failed: Option<nat>, ok: nat)
    requires failed.None? || !IsOk(failed.value)
    requires IsOk(ok)
    ensures var afterFail := PatchAndReload(e, failed).0;
      && afterFail.editId == e.editId && afterFail.draft == e.draft
      && PatchAndReload(afterFail, Some(ok)) == PatchAndReload(e, Some(ok))
  {}
}
