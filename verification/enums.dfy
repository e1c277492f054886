/** The status and role vocabularies of backend/app/enums.py, with the string
    values they are stored and transmitted as. */
module Enums {
  import opened Common

  datatype ItemStatus = Planned | InProgress | Completed | OnHold | Stopped | Discarded

  datatype DeliverableStatus = DPlanned | DInProgress | DCompleted

  datatype Role = Owner | Editor | Viewer

  /** The members of ItemStatus in declaration order (Python's iteration order). */
  const AllItemStatuses: seq<ItemStatus> :=
    [Planned, InProgress, Completed, OnHold, Stopped, Discarded]

  const AllDeliverableStatuses: seq<DeliverableStatus> := [DPlanned, DInProgress, DCompleted]

  /** The stored values of ItemStatus, in declaration order. */
  const ItemStatusValues: seq<string> :=
    ["planned", "in_progress", "completed", "on_hold", "stopped", "discarded"]

  lemma ItemStatusValuesInOrder()
    ensures |ItemStatusValues| == |AllItemStatuses|
    ensures forall i :: 0 <= i < |AllItemStatuses| ==> ItemStatusValues[i] == ItemStatusValue(AllItemStatuses[i])
  {}

  function ItemStatusValue(s: ItemStatus): string {
    match s
    case Planned => "planned"
    case InProgress => "in_progress"
    case Completed => "completed"
    case OnHold => "on_hold"
    case Stopped => "stopped"
    case Discarded => "discarded"
  }

  function DeliverableStatusValue(s: DeliverableStatus): string {
    match s
    case DPlanned => "planned"
    case DInProgress => "in_progress"
    case DCompleted => "completed"
  }

  function RoleValue(r: Role): string {
    match r
    case Owner => "owner"
    case Editor => "editor"
    case Viewer => "viewer"
  }

  /** `ItemStatus(v)`: `None` where Python raises ValueError. */
  function ParseItemStatus(v: string): (r: Option<ItemStatus>)
    ensures r.Some? ==> ItemStatusValue(r.value) == v
    ensures r.None? ==> forall s :: ItemStatusValue(s) != v
  {
    if v == "planned" then Some(Planned)
    else if v == "in_progress" then Some(InProgress)
    else if v == "completed" then Some(Completed)
    else if v == "on_hold" then Some(OnHold)
    else if v == "stopped" then Some(Stopped)
    else if v == "discarded" then Some(Discarded)
    else None
  }

  /** `DeliverableStatus(v)`: `None` where Python raises ValueError. */
  function ParseDeliverableStatus(v: string): (r: Option<DeliverableStatus>)
    ensures r.Some? ==> DeliverableStatusValue(r.value) == v
    ensures r.None? ==> forall s :: DeliverableStatusValue(s) != v
  {
    if v == "planned" then Some(DPlanned)
    else if v == "in_progress" then Some(DInProgress)
    else if v == "completed" then Some(DCompleted)
    else None
  }

  lemma ItemStatusRoundTrip(s: ItemStatus)
    ensures ParseItemStatus(ItemStatusValue(s)) == Some(s)
  {}

  lemma DeliverableStatusRoundTrip(s: DeliverableStatus)
    ensures ParseDeliverableStatus(DeliverableStatusValue(s)) == Some(s)
  {}

  /** The three deliverable values are exactly the first three item-status values,
      so a deliverable and a task compared by their stored strings agree. */
  lemma DeliverableValuesArePrefix()
    ensures forall i :: 0 <= i < 3 ==>
      DeliverableStatusValue(AllDeliverableStatuses[i]) == ItemStatusValue(AllItemStatuses[i])
  {}

  /** The six stored values are pairwise distinct. */
  lemma ItemStatusValuesDistinct()
    ensures forall s, t :: ItemStatusValue(s) == ItemStatusValue(t) ==> s == t
  {
    forall s, t | ItemStatusValue(s) == ItemStatusValue(t)
      ensures s == t
    {
      ItemStatusRoundTrip(s);
      ItemStatusRoundTrip(t);
    }
  }
}
