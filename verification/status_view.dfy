/** How the pages name and colour a status: frontend/src/app/lib/status.ts (the
    shared switch-based helpers and option lists) and the object-literal lookups
    that frontend/src/app/project/page.tsx defines for itself. */
module StatusView {
  import opened Common
  import opened Text
  import opened Enums

  /** `STATUS_VALUES`. */
  const StatusValues: seq<string> := ["planned", "in_progress", "completed", "on_hold", "stopped", "discarded"]

  /** `DELIVERABLE_STATUS_VALUES`. */
  const DeliverableStatusValues: seq<string> := ["planned", "in_progress", "completed"]

  /** The Korean labels: planned, in progress, completed, on hold, stopped, discarded. */
  const LabelPlanned: string := "\U{C608}\U{C815}"
  const LabelInProgress: string := "\U{C9C4}\U{D589}\U{C911}"
  const LabelCompleted: string := "\U{C644}\U{B8CC}"
  const LabelOnHold: string := "\U{BCF4}\U{B958}"
  const LabelStopped: string := "\U{C911}\U{B2E8}"
  const LabelDiscarded: string := "\U{D3D0}\U{AE30}"

  datatype StatusOption = StatusOption(value: string, caption: string)

  /** `STATUS_OPTIONS`, the choices of every status dropdown. */
  const StatusOptions: seq<StatusOption> := [
    StatusOption("planned", LabelPlanned),
    StatusOption("in_progress", LabelInProgress),
    StatusOption("completed", LabelCompleted),
    StatusOption("on_hold", LabelOnHold),
    StatusOption("stopped", LabelStopped),
    StatusOption("discarded", LabelDiscarded)
  ]

  /** The client's value lists are the server's vocabularies, in the same order. */
  lemma ValuesMatchServer()
    ensures StatusValues == ItemStatusValues
    ensures |DeliverableStatusValues| == |AllDeliverableStatuses|
    ensures forall i :: 0 <= i < |AllDeliverableStatuses| ==>
      DeliverableStatusValues[i] == DeliverableStatusValue(AllDeliverableStatuses[i])
    ensures DeliverableStatusValues == StatusValues[..3]
    ensures forall i :: 0 <= i < |StatusOptions| ==> StatusOptions[i].value == StatusValues[i]
  {}

  /** `statusClass(status)`. */
  function StatusClass(status: string): (r: string)
    ensures |r| >= 4 && r[..4] == "chip"
    ensures r == "chip" <==> status !in StatusValues
  {
    if status == "completed" then "chip done"
    else if status == "in_progress" then "chip prog"
    else if status == "planned" then "chip plan"
    else if status == "on_hold" then "chip hold"
    else if status == "stopped" then "chip stop"
    else if status == "discarded" then "chip disc"
    else "chip"
  }

  /** `statusLabel(status)`: a known value gets its Korean label, anything else is
      shown as it is. */
  function StatusLabel(status: string): (r: string)
    ensures status !in StatusValues ==> r == status
    ensures r != status <==> status in StatusValues
  {
    if status == "planned" then LabelPlanned
    else if status == "in_progress" then LabelInProgress
    else if status == "completed" then LabelCompleted
    else if status == "on_hold" then LabelOnHold
    else if status == "stopped" then LabelStopped
    else if status == "discarded" then LabelDiscarded
    else status
  }

  /** The label a badge shows is the one the dropdown offers for that value. */
  lemma LabelsMatchOptions()
    ensures forall o :: o in StatusOptions ==> StatusLabel(o.value) == o.caption
  {}

  /** Different statuses never share a badge class or a label. */
  lemma BadgesDistinct(s: ItemStatus, t: ItemStatus)
    requires s != t
    ensures StatusClass(ItemStatusValue(s)) != StatusClass(ItemStatusValue(t))
    ensures StatusLabel(ItemStatusValue(s)) != StatusLabel(ItemStatusValue(t))
  {}

  // ---------------------------------------------------------------------------
  // The project page's object-literal lookups

  /** The JavaScript values a property read can produce here. */
  datatype JsValue = Str(s: string) | Undefined | Function(name: string) | Object

  /** JavaScript truthiness of those values. */
  predicate Truthy(v: JsValue) {
    match v
    case Str(s) => s != ""
    case Undefined => false
    case Function(_) => true
    case Object => true
  }

  /** `a || b`. */
  function JsOr(a: JsValue, b: JsValue): (r: JsValue)
    ensures Truthy(a) ==> r == a
    ensures !Truthy(a) ==> r == b
  {
    if Truthy(a) then a else b
  }

  /** The methods every object literal inherits from `Object.prototype`. */
  const InheritedMethods: seq<string> := [
    "constructor", "hasOwnProperty", "isPrototypeOf", "propertyIsEnumerable",
    "toLocaleString", "toString", "valueOf",
    "__defineGetter__", "__defineSetter__", "__lookupGetter__", "__lookupSetter__"
  ]

  /** The accessor that answers the prototype object itself. */
  const ProtoKey: string := "__proto__"

  type Literal = seq<(string, string)>

  /** The own properties of the two literals, in their source order. */
  const LabelLiteral: Literal := [
    ("planned", LabelPlanned), ("in_progress", LabelInProgress), ("completed", LabelCompleted),
    ("on_hold", LabelOnHold), ("stopped", LabelStopped), ("discarded", LabelDiscarded)
  ]
  const ClassLiteral: Literal := [
    ("completed", "chip done"), ("in_progress", "chip prog"), ("planned", "chip plan"),
    ("on_hold", "chip hold"), ("stopped", "chip stop"), ("discarded", "chip disc")
  ]

  /** The own property `key` of a literal. */
  function OwnProperty(lit: Literal, key: string): (r: Option<string>)
    ensures r.Some? <==> exists i :: 0 <= i < |lit| && lit[i].0 == key
    ensures r.Some? ==> exists i :: 0 <= i < |lit| && lit[i] == (key, r.value)
  {
    if lit == [] then None
    else if lit[0].0 == key then Some(lit[0].1)
    else
      var rest := OwnProperty(lit[1..], key);
      assert rest.Some? ==> exists i :: 1 <= i < |lit| && lit[i] == (key, rest.value) by {
        if rest.Some? {
          var i :| 0 <= i < |lit[1..]| && lit[1..][i] == (key, rest.value);
          assert lit[i + 1] == (key, rest.value);
        }
      }
      rest
  }

  /** `map[key]` on a literal: an own property, else what the prototype chain
      answers, else `undefined`. */
  function PropertyRead(lit: Literal, key: string): (r: JsValue)
    ensures OwnProperty(lit, key).Some? ==> r == Str(OwnProperty(lit, key).value)
    ensures OwnProperty(lit, key).None? && key !in InheritedMethods && key != ProtoKey ==> r == Undefined
  {
    match OwnProperty(lit, key)
    case Some(v) => Str(v)
    case None =>
      if key in InheritedMethods then Function(key)
      else if key == ProtoKey then Object
      else Undefined
  }

  /** A read finds the first own property with that key. */
  lemma {:induction false} OwnPropertyAt(lit: Literal, i: nat)
    requires i < |lit|
    requires forall j :: 0 <= j < i ==> lit[j].0 != lit[i].0
    ensures OwnProperty(lit, lit[i].0) == Some(lit[i].1)
  {
    if i > 0 {
      OwnPropertyAt(lit[1..], i - 1);
    }
  }

  /** The label literal holds, for each status, the shared helper's label. */
  lemma LabelLiteralRead(s: string)
    ensures OwnProperty(LabelLiteral, s) == if s in StatusValues then Some(StatusLabel(s)) else None
  {
    var lit := LabelLiteral;
    if s == "planned" { OwnPropertyAt(lit, 0); }
    else if s == "in_progress" { OwnPropertyAt(lit, 1); }
    else if s == "completed" { OwnPropertyAt(lit, 2); }
    else if s == "on_hold" { OwnPropertyAt(lit, 3); }
    else if s == "stopped" { OwnPropertyAt(lit, 4); }
    else if s == "discarded" { OwnPropertyAt(lit, 5); }
    else { LiteralMisses(lit, s); }
  }

  /** The class literal holds, for each status, the shared helper's class. */
  lemma ClassLiteralRead(s: string)
    ensures OwnProperty(ClassLiteral, s) == if s in StatusValues then Some(StatusClass(s)) else None
  {
    var lit := ClassLiteral;
    if s == "completed" { OwnPropertyAt(lit, 0); }
    else if s == "in_progress" { OwnPropertyAt(lit, 1); }
    else if s == "planned" { OwnPropertyAt(lit, 2); }
    else if s == "on_hold" { OwnPropertyAt(lit, 3); }
    else if s == "stopped" { OwnPropertyAt(lit, 4); }
    else if s == "discarded" { OwnPropertyAt(lit, 5); }
    else { LiteralMisses(lit, s); }
  }

  /** A literal whose keys are all statuses has no own property for anything else. */
  lemma LiteralMisses(lit: Literal, s: string)
    requires lit == LabelLiteral || lit == ClassLiteral
    requires s !in StatusValues
    ensures OwnProperty(lit, s) == None
  {
    assert forall i :: 0 <= i < |lit| ==> lit[i].0 in StatusValues;
  }

  /** The page's `statusLabel`, as written: `map[s] || s`. */
  function PageStatusLabel(s: string): (r: JsValue)
    ensures s !in InheritedMethods && s != ProtoKey ==> r == Str(StatusLabel(s))
  {
    LabelLiteralRead(s);
    JsOr(PropertyRead(LabelLiteral, s), Str(s))
  }

  /** The page's `statusClass`, as written: `map[s] || "chip"`. */
  function PageStatusClass(s: string): (r: JsValue)
    ensures s !in InheritedMethods && s != ProtoKey ==> r == Str(StatusClass(s))
  {
    ClassLiteralRead(s);
    JsOr(PropertyRead(ClassLiteral, s), Str("chip"))
  }

  /** The page's helpers agree with the shared ones on every status the server
      can send, and on every other string except the inherited property names. */
  lemma PageLookupAgrees(s: string)
    requires s !in InheritedMethods && s != ProtoKey
    ensures PageStatusLabel(s) == Str(StatusLabel(s))
    ensures PageStatusClass(s) == Str(StatusClass(s))
  {
    PageLabelAgrees(s);
    PageClassAgrees(s);
  }

  lemma PageLabelAgrees(s: string)
    requires s !in InheritedMethods && s != ProtoKey
    ensures PageStatusLabel(s) == Str(StatusLabel(s))
  {
    LabelLiteralRead(s);
  }

  lemma PageClassAgrees(s: string)
    requires s !in InheritedMethods && s != ProtoKey
    ensures PageStatusClass(s) == Str(StatusClass(s))
  {
    ClassLiteralRead(s);
  }

  /** An inherited name is not a status, yet the page's helpers return a
      function (or the prototype object) for it instead of the fallback string:
      a task whose status is "toString" renders a function where a label and a
      class name are expected. */
  lemma PageLookupInheritedName()
    ensures "toString" !in StatusValues
    ensures PageStatusLabel("toString") == Function("toString") != Str(StatusLabel("toString"))
    ensures PageStatusClass("toString") == Function("toString") != Str(StatusClass("toString"))
    ensures PageStatusClass(ProtoKey) == Object != Str(StatusClass(ProtoKey))
    ensures PageStatusLabel(ProtoKey) == Object != Str(StatusLabel(ProtoKey))
    ensures forall key :: key in InheritedMethods ==>
      PageStatusLabel(key) == Function(key) && PageStatusClass(key) == Function(key)
  {
    forall key | key in InheritedMethods
      ensures PageStatusLabel(key) == Function(key) && PageStatusClass(key) == Function(key)
    {
      InheritedRead(key);
    }
    assert InheritedMethods[5] == "toString";
    InheritedRead("toString");
    ProtoRead();
  }

  /** No inherited name is a status. */
  lemma InheritedNotStatus(key: string)
    requires key in InheritedMethods || key == ProtoKey
    ensures key !in StatusValues
  {}

  /** Reading an inherited method name from either literal yields the method. */
  lemma InheritedRead(key: string)
    requires key in InheritedMethods
    ensures key !in StatusValues
    ensures PageStatusLabel(key) == Function(key) && PageStatusClass(key) == Function(key)
  {
    InheritedNotStatus(key);
    LabelLiteralRead(key);
    ClassLiteralRead(key);
  }

  /** Reading `__proto__` from either literal yields the prototype object. */
  lemma ProtoRead()
    ensures ProtoKey !in StatusValues
    ensures PageStatusLabel(ProtoKey) == Object && PageStatusClass(ProtoKey) == Object
  {
    InheritedNotStatus(ProtoKey);
    LabelLiteralRead(ProtoKey);
    ClassLiteralRead(ProtoKey);
    assert ProtoKey !in InheritedMethods;
  }

  /** The evidently intended lookup reads own properties only (`Object.hasOwn`,
      or a `Map`), and falls back otherwise. */
  function OwnStatusLabel(s: string): JsValue {
    match OwnProperty(LabelLiteral, s)
    case Some(v) => JsOr(Str(v), Str(s))
    case None => Str(s)
  }

  function OwnStatusClass(s: string): JsValue {
    match OwnProperty(ClassLiteral, s)
    case Some(v) => JsOr(Str(v), Str("chip"))
    case None => Str("chip")
  }

  /** The own-property lookup is the shared switch on every input, so the page's
      badges can use `StatusLabel` and `StatusClass`. */
  lemma OwnLookupIsSwitch(s: string)
    ensures OwnStatusLabel(s) == Str(StatusLabel(s))
    ensures OwnStatusClass(s) == Str(StatusClass(s))
  {
    OwnLabelIsSwitch(s);
    OwnClassIsSwitch(s);
  }

  lemma OwnLabelIsSwitch(s: string)
    ensures OwnStatusLabel(s) == Str(StatusLabel(s))
  {
    LabelLiteralRead(s);
  }

  lemma OwnClassIsSwitch(s: string)
    ensures OwnStatusClass(s) == Str(StatusClass(s))
  {
    ClassLiteralRead(s);
  }
}
