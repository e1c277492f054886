/** Next-action advice for one idea (recommend_next_actions in
    backend/app/services.py). */
module NextActions {
  import opened Common
  import opened Text
  import opened Records
  import opened Services

  datatype Action =
    | ResolveDelayed(title: string)
    | CloseInProgress(title: string)
    | StartPlanned(title: string)
    | PrepareDeliverable(dueMonth: string, title: string)
    | NoBlockers

  const DelayedPrefix: string := "Resolve delayed task first: "
  const InProgressPrefix: string := "Close current in-progress task: "
  const PlannedPrefix: string := "Start highest-priority planned task: "
  const DeliverablePrefix: string := "Prepare deliverable for due month "
  const NoBlockersText: string := "No immediate blockers found." + " Review and set next quarterly target."

  /** The message the endpoint returns for an action. */
  function ActionText(a: Action): string {
    match a
    case ResolveDelayed(t) => DelayedPrefix + t
    case CloseInProgress(t) => InProgressPrefix + t
    case StartPlanned(t) => PlannedPrefix + t
    case PrepareDeliverable(m, t) => DeliverablePrefix + m + ": " + t
    case NoBlockers => NoBlockersText
  }

  /** The first character of the messages of each rank, all distinct. */
  const OpeningChars: string := "RCSPN"

  /** Each kind of message opens with its own character. */
  lemma TextKind(a: Action)
    ensures |ActionText(a)| > 0 && ActionText(a)[0] == OpeningChars[Rank(a)]
  {
    match a
    case ResolveDelayed(t) => assert DelayedPrefix[0] == 'R';
    case CloseInProgress(t) => assert InProgressPrefix[0] == 'C';
    case StartPlanned(t) => assert PlannedPrefix[0] == 'S';
    case PrepareDeliverable(m, t) => assert DeliverablePrefix[0] == 'P';
    case NoBlockers => assert NoBlockersText[0] == 'N';
  }

  /** Position of each kind of action in the advice list. */
  function Rank(a: Action): nat {
    match a
    case ResolveDelayed(_) => 0
    case CloseInProgress(_) => 1
    case StartPlanned(_) => 2
    case PrepareDeliverable(_, _) => 3
    case NoBlockers => 4
  }

  function TaskHasStatus(v: string): Task -> bool { (t: Task) => t.status == v }

  function PendingDeliverables(dl: seq<Deliverable>): seq<Deliverable> {
    Filter(dl, (d: Deliverable) => d.status != "completed")
  }

  /** The first element of a stable sort by due month: an element with the
      smallest due month, and the earliest such one. */
  function NearestIndex(ds: seq<Deliverable>): (i: nat)
    requires |ds| > 0
    ensures i < |ds|
    ensures forall j :: 0 <= j < |ds| ==> !LexLess(ds[j].dueMonth, ds[i].dueMonth)
    ensures forall j :: 0 <= j < i ==> LexLess(ds[i].dueMonth, ds[j].dueMonth)
  {
    if |ds| == 1 then
      LexLessIrreflexive(ds[0].dueMonth);
      0
    else
      var n := |ds| - 1;
      var k := NearestIndex(ds[..n]);
      assert forall j :: 0 <= j < n ==> ds[..n][j] == ds[j];
      if LexLess(ds[n].dueMonth, ds[k].dueMonth) then
        assert forall j :: 0 <= j < n ==> LexLess(ds[n].dueMonth, ds[j].dueMonth) by {
          forall j | 0 <= j < n ensures LexLess(ds[n].dueMonth, ds[j].dueMonth) {
            LexLessTotal(ds[k].dueMonth, ds[j].dueMonth);
            if ds[k].dueMonth != ds[j].dueMonth {
              LexLessTransitive(ds[n].dueMonth, ds[k].dueMonth, ds[j].dueMonth);
            }
          }
        }
        assert forall j :: 0 <= j < n ==> !LexLess(ds[j].dueMonth, ds[n].dueMonth) by {
          forall j | 0 <= j < n ensures !LexLess(ds[j].dueMonth, ds[n].dueMonth) {
            LexLessAsymmetric(ds[n].dueMonth, ds[j].dueMonth);
          }
        }
        assert !LexLess(ds[n].dueMonth, ds[n].dueMonth) by { LexLessIrreflexive(ds[n].dueMonth); }
        n
      else
        k
  }

  /** `title` is the title of the first task satisfying `p`. */
  predicate FirstTitle(ts: seq<Task>, p: Task -> bool, title: string) {
    exists k :: 0 <= k < |ts| && p(ts[k]) && ts[k].title == title && forall j :: 0 <= j < k ==> !p(ts[j])
  }

  /** `d` is what the nearest-deadline rule picks from `pend`. */
  predicate NearestPick(pend: seq<Deliverable>, due: string, title: string) {
    exists k :: 0 <= k < |pend| && pend[k].dueMonth == due && pend[k].title == title &&
      (forall j :: 0 <= j < |pend| ==> !LexLess(pend[j].dueMonth, due)) &&
      (forall j :: 0 <= j < k ==> LexLess(due, pend[j].dueMonth))
  }

  predicate HasRank(r: seq<Action>, n: nat) {
    exists i :: 0 <= i < |r| && Rank(r[i]) == n
  }

  /** Ranks strictly increase along `r`. */
  predicate RankSorted(r: seq<Action>) {
    forall i, j :: 0 <= i < j < |r| ==> Rank(r[i]) < Rank(r[j])
  }

  /** What each kind of action says about the idea's tasks and deliverables. */
  predicate Justified(ts: seq<Task>, dl: seq<Deliverable>, month: string, a: Action) {
    match a
    case ResolveDelayed(t) => FirstTitle(ts, DelayedAt(month), t)
    case CloseInProgress(t) => FirstTitle(ts, TaskHasStatus("in_progress"), t)
    case StartPlanned(t) => FirstTitle(ts, TaskHasStatus("planned"), t)
    case PrepareDeliverable(m, t) => NearestPick(PendingDeliverables(dl), m, t)
    case NoBlockers => true
  }

  /** The present values of `slots`, in order. */
  function Somes(slots: seq<Option<Action>>): (r: seq<Action>)
    ensures |r| <= |slots|
  {
    if |slots| == 0 then []
    else (if slots[0].Some? then [slots[0].value] else []) + Somes(slots[1..])
  }

  /** Slot `k` can only hold an action of rank `base + k`. */
  predicate SlotsRanked(slots: seq<Option<Action>>, base: nat) {
    forall k :: 0 <= k < |slots| && slots[k].Some? ==> Rank(slots[k].value) == base + k
  }

  lemma SomesCons(slots: seq<Option<Action>>)
    requires |slots| > 0
    ensures Somes(slots) == (if slots[0].Some? then [slots[0].value] else []) + Somes(slots[1..])
  {}

  lemma TailRanked(slots: seq<Option<Action>>, base: nat)
    requires |slots| > 0 && SlotsRanked(slots, base)
    ensures SlotsRanked(slots[1..], base + 1)
  {
    var tail := slots[1..];
    forall k | 0 <= k < |tail| && tail[k].Some? ensures Rank(tail[k].value) == base + 1 + k {
      assert tail[k] == slots[k + 1];
    }
  }

  /** Every present action keeps its slot's rank, so ranks increase and stay
      within the slots' range. */
  lemma {:induction false} SomesSorted(slots: seq<Option<Action>>, base: nat)
    requires SlotsRanked(slots, base)
    ensures forall i :: 0 <= i < |Somes(slots)| ==> base <= Rank(Somes(slots)[i]) < base + |slots|
    ensures RankSorted(Somes(slots))
  {
    if |slots| > 0 {
      var rest := Somes(slots[1..]);
      TailRanked(slots, base);
      SomesSorted(slots[1..], base + 1);
      SomesCons(slots);
      var h: seq<Action> := if slots[0].Some? then [slots[0].value] else [];
      var r := h + rest;
      forall i | 0 <= i < |r| ensures base <= Rank(r[i]) < base + |slots| && (i < |h| ==> Rank(r[i]) == base) {
        if i >= |h| {
          assert r[i] == rest[i - |h|];
        }
      }
      forall i, j | 0 <= i < j < |r| ensures Rank(r[i]) < Rank(r[j]) {
        if i >= |h| {
          assert r[i] == rest[i - |h|] && r[j] == rest[j - |h|];
        } else {
          assert r[j] == rest[j - |h|];
        }
      }
    }
  }

  /** Every present action comes from a slot. */
  lemma {:induction false} SomesFromSlots(slots: seq<Option<Action>>)
    ensures forall i :: 0 <= i < |Somes(slots)| ==> Some(Somes(slots)[i]) in slots
  {
    if |slots| > 0 {
      var rest := Somes(slots[1..]);
      SomesFromSlots(slots[1..]);
      SomesCons(slots);
      var h: seq<Action> := if slots[0].Some? then [slots[0].value] else [];
      var r := h + rest;
      forall i | 0 <= i < |r| ensures Some(r[i]) in slots {
        if i >= |h| {
          assert r[i] == rest[i - |h|];
          assert Some(rest[i - |h|]) in slots[1..];
        }
      }
    }
  }

  /** A rank is present exactly when its slot is filled. */
  lemma {:induction false} SomesHasRank(slots: seq<Option<Action>>, base: nat, m: nat)
    requires SlotsRanked(slots, base)
    ensures HasRank(Somes(slots), m) <==> base <= m < base + |slots| && slots[m - base].Some?
  {
    if |slots| > 0 {
      var rest := Somes(slots[1..]);
      TailRanked(slots, base);
      SomesSorted(slots[1..], base + 1);
      SomesHasRank(slots[1..], base + 1, m);
      SomesCons(slots);
      var h: seq<Action> := if slots[0].Some? then [slots[0].value] else [];
      var r := h + rest;
      if HasRank(r, m) {
        var i :| 0 <= i < |r| && Rank(r[i]) == m;
        if i >= |h| {
          assert r[i] == rest[i - |h|];
          assert slots[1..][m - base - 1] == slots[m - base];
        }
      }
      if base <= m < base + |slots| && slots[m - base].Some? {
        if m == base {
          assert Rank(r[0]) == m;
        } else {
          assert slots[1..][m - base - 1] == slots[m - base];
          var i :| 0 <= i < |rest| && Rank(rest[i]) == m;
          assert r[|h| + i] == rest[i];
        }
      }
    }
  }

  /** Title of the first task satisfying `p`, if there is one. */
  function FirstTaskTitle(ts: seq<Task>, p: Task -> bool): Option<string> {
    match FirstIndex(ts, p)
    case Some(k) => Some(ts[k].title)
    case None => None
  }

  lemma FirstTaskTitleSpec(ts: seq<Task>, p: Task -> bool)
    ensures FirstTaskTitle(ts, p).Some? <==> exists t :: t in ts && p(t)
    ensures FirstTaskTitle(ts, p).Some? ==> FirstTitle(ts, p, FirstTaskTitle(ts, p).value)
  {
    if exists t :: t in ts && p(t) {
      var t :| t in ts && p(t);
      var k :| 0 <= k < |ts| && ts[k] == t;
      assert p(ts[k]);
    }
  }

  function Wrap(o: Option<string>, mk: string -> Action): Option<Action> {
    match o
    case Some(t) => Some(mk(t))
    case None => None
  }

  /** The deliverable action, if any deliverable is pending. */
  function DeliverableAction(pend: seq<Deliverable>): (r: Option<Action>)
    ensures r.Some? <==> |pend| > 0
    ensures r.Some? ==> r.value.PrepareDeliverable? && NearestPick(pend, r.value.dueMonth, r.value.title)
  {
    if |pend| == 0 then None
    else
      var k := NearestIndex(pend);
      Some(PrepareDeliverable(pend[k].dueMonth, pend[k].title))
  }

  function ResolveDelayedOf(t: string): Action { ResolveDelayed(t) }
  function CloseInProgressOf(t: string): Action { CloseInProgress(t) }
  function StartPlannedOf(t: string): Action { StartPlanned(t) }

  predicate AnyDelayed(ts: seq<Task>, month: string) { exists t :: t in ts && IsDelayed(t, month) }
  predicate AnyWithStatus(ts: seq<Task>, v: string) { exists t :: t in ts && t.status == v }
  predicate AnyPending(dl: seq<Deliverable>) { exists d :: d in dl && d.status != "completed" }

  /** The four candidate actions, in the order the source appends them. */
  function Slots(ts: seq<Task>, dl: seq<Deliverable>, month: string): seq<Option<Action>> {
    [Wrap(FirstTaskTitle(ts, DelayedAt(month)), ResolveDelayedOf),
     Wrap(FirstTaskTitle(ts, TaskHasStatus("in_progress")), CloseInProgressOf),
     Wrap(FirstTaskTitle(ts, TaskHasStatus("planned")), StartPlannedOf),
     DeliverableAction(PendingDeliverables(dl))]
  }

  lemma SlotsRankedAt(ts: seq<Task>, dl: seq<Deliverable>, month: string)
    ensures SlotsRanked(Slots(ts, dl, month), 0)
  {}

  lemma SlotsJustified(ts: seq<Task>, dl: seq<Deliverable>, month: string)
    ensures var s := Slots(ts, dl, month);
      forall k :: 0 <= k < 4 && s[k].Some? ==> Justified(ts, dl, month, s[k].value)
  {
    FirstTaskTitleSpec(ts, DelayedAt(month));
    FirstTaskTitleSpec(ts, TaskHasStatus("in_progress"));
    FirstTaskTitleSpec(ts, TaskHasStatus("planned"));
  }

  lemma DelayedPresence(ts: seq<Task>, dl: seq<Deliverable>, month: string)
    ensures Slots(ts, dl, month)[0].Some? <==> AnyDelayed(ts, month)
  {
    FirstTaskTitleSpec(ts, DelayedAt(month));
    assert AnyDelayed(ts, month) == (exists t :: t in ts && DelayedAt(month)(t));
  }

  lemma StatusPresence(ts: seq<Task>, dl: seq<Deliverable>, month: string, v: string)
    requires v == "in_progress" || v == "planned"
    ensures Slots(ts, dl, month)[if v == "in_progress" then 1 else 2].Some? <==> AnyWithStatus(ts, v)
  {
    FirstTaskTitleSpec(ts, TaskHasStatus(v));
    assert AnyWithStatus(ts, v) == (exists t :: t in ts && TaskHasStatus(v)(t));
  }

  lemma PendingPresence(ts: seq<Task>, dl: seq<Deliverable>, month: string)
    ensures Slots(ts, dl, month)[3].Some? <==> AnyPending(dl)
  {
    var pend := PendingDeliverables(dl);
    if AnyPending(dl) {
      var d :| d in dl && d.status != "completed";
      var k :| 0 <= k < |dl| && dl[k] == d;
      assert d in pend;
    }
    if |pend| > 0 {
      assert pend[0] in dl;
    }
  }

  lemma ActsOrdered(ts: seq<Task>, dl: seq<Deliverable>, month: string)
    ensures var acts := Somes(Slots(ts, dl, month));
      |acts| <= 4 && RankSorted(acts) && forall i :: 0 <= i < |acts| ==> Rank(acts[i]) <= 3
  {
    SlotsRankedAt(ts, dl, month);
    SomesSorted(Slots(ts, dl, month), 0);
  }

  lemma ActsJustified(ts: seq<Task>, dl: seq<Deliverable>, month: string)
    ensures var acts := Somes(Slots(ts, dl, month));
      forall i :: 0 <= i < |acts| ==> Justified(ts, dl, month, acts[i])
  {
    var s := Slots(ts, dl, month);
    var acts := Somes(s);
    SlotsJustified(ts, dl, month);
    SomesFromSlots(s);
    forall i | 0 <= i < |acts| ensures Justified(ts, dl, month, acts[i]) {
      var k :| 0 <= k < 4 && s[k] == Some(acts[i]);
    }
  }

  lemma ActsKinds(ts: seq<Task>, dl: seq<Deliverable>, month: string)
    ensures var acts := Somes(Slots(ts, dl, month));
      && (HasRank(acts, 0) <==> AnyDelayed(ts, month))
      && (HasRank(acts, 1) <==> AnyWithStatus(ts, "in_progress"))
      && (HasRank(acts, 2) <==> AnyWithStatus(ts, "planned"))
      && (HasRank(acts, 3) <==> AnyPending(dl))
  {
    var s := Slots(ts, dl, month);
    SlotsRankedAt(ts, dl, month);
    DelayedPresence(ts, dl, month);
    StatusPresence(ts, dl, month, "in_progress");
    StatusPresence(ts, dl, month, "planned");
    PendingPresence(ts, dl, month);
    SomesHasRank(s, 0, 0);
    SomesHasRank(s, 0, 1);
    SomesHasRank(s, 0, 2);
    SomesHasRank(s, 0, 3);
  }

  /** The final list: the fallback message when nothing applies, and at most
      seven actions otherwise. */
  function Finish(acts: seq<Action>): seq<Action> {
    if |acts| == 0 then [NoBlockers] else Take(acts, 7)
  }

  lemma FinishSpec(acts: seq<Action>)
    requires |acts| <= 4 && RankSorted(acts) && forall i :: 0 <= i < |acts| ==> Rank(acts[i]) <= 3
    ensures 1 <= |Finish(acts)| <= 4
    ensures RankSorted(Finish(acts))
    ensures forall m: nat :: m <= 3 ==> (HasRank(Finish(acts), m) <==> HasRank(acts, m))
    ensures Finish(acts) == [NoBlockers] <==> |acts| == 0
    ensures |acts| > 0 ==> Finish(acts) == acts
  {
    if |acts| > 0 {
      assert Rank(acts[0]) <= 3;
    } else {
      assert Rank([NoBlockers][0]) == 4;
    }
  }

  lemma NothingIffEmpty(acts: seq<Action>)
    requires forall i :: 0 <= i < |acts| ==> Rank(acts[i]) <= 3
    ensures |acts| == 0 <==> !HasRank(acts, 0) && !HasRank(acts, 1) && !HasRank(acts, 2) && !HasRank(acts, 3)
  {
    if |acts| > 0 {
      assert HasRank(acts, Rank(acts[0]));
    }
  }

  /** recommend_next_actions over already scoped tasks and deliverables. */
  function Recommend(ts: seq<Task>, dl: seq<Deliverable>, month: string): (r: seq<Action>)
    ensures 1 <= |r| <= 4
    ensures RankSorted(r)
    ensures HasRank(r, 0) <==> AnyDelayed(ts, month)
    ensures HasRank(r, 1) <==> AnyWithStatus(ts, "in_progress")
    ensures HasRank(r, 2) <==> AnyWithStatus(ts, "planned")
    ensures HasRank(r, 3) <==> AnyPending(dl)
    ensures r == [NoBlockers] <==>
      !AnyDelayed(ts, month) && !AnyWithStatus(ts, "in_progress") && !AnyWithStatus(ts, "planned") && !AnyPending(dl)
    ensures forall i :: 0 <= i < |r| ==> Justified(ts, dl, month, r[i])
  {
    var acts := Somes(Slots(ts, dl, month));
    ActsOrdered(ts, dl, month);
    ActsJustified(ts, dl, month);
    ActsKinds(ts, dl, month);
    FinishSpec(acts);
    NothingIffEmpty(acts);
    Finish(acts)
  }

  /** Some entry of the advice opens with `prefix`. */
  predicate Mentions(r: seq<string>, prefix: string) {
    exists i :: 0 <= i < |r| && StartsWith(r[i], prefix)
  }

  /** The opening words of the messages of rank 0..3. */
  function PrefixOf(k: nat): string
    requires k <= 3
  {
    [DelayedPrefix, InProgressPrefix, PlannedPrefix, DeliverablePrefix][k]
  }

  /** A message opens with the words of rank `k` exactly when its action has that rank. */
  lemma TextRank(a: Action, k: nat)
    requires k <= 3
    ensures StartsWith(ActionText(a), PrefixOf(k)) <==> Rank(a) == k
  {
    TextKind(a);
    PrefixOpening(k);
    if StartsWith(ActionText(a), PrefixOf(k)) {
      assert ActionText(a)[0] == PrefixOf(k)[0];
    }
    if Rank(a) == k {
      TextHasPrefix(a);
    }
  }

  lemma PrefixOpening(k: nat)
    requires k <= 3
    ensures |PrefixOf(k)| > 0 && PrefixOf(k)[0] == OpeningChars[k]
  {
    if k == 0 { assert DelayedPrefix[0] == 'R'; }
    else if k == 1 { assert InProgressPrefix[0] == 'C'; }
    else if k == 2 { assert PlannedPrefix[0] == 'S'; }
    else { assert DeliverablePrefix[0] == 'P'; }
  }

  lemma TextHasPrefix(a: Action)
    requires Rank(a) <= 3
    ensures StartsWith(ActionText(a), PrefixOf(Rank(a)))
  {
    if a.PrepareDeliverable? {
      assert ActionText(a) == DeliverablePrefix + (a.dueMonth + ": " + a.title);
    }
  }

  /** An entry opens with the words of rank `k` iff an action of that rank is listed. */
  lemma RenderedRank(acts: seq<Action>, r: seq<string>, k: nat)
    requires k <= 3
    requires |r| == |acts| && forall i :: 0 <= i < |r| ==> r[i] == ActionText(acts[i])
    ensures Mentions(r, PrefixOf(k)) <==> HasRank(acts, k)
  {
    if Mentions(r, PrefixOf(k)) {
      var i :| 0 <= i < |r| && StartsWith(r[i], PrefixOf(k));
      TextRank(acts[i], k);
    }
    if HasRank(acts, k) {
      var i :| 0 <= i < |acts| && Rank(acts[i]) == k;
      TextRank(acts[i], k);
    }
  }

  /** What the rendered advice shows of the ordered actions. */
  lemma Rendered(acts: seq<Action>, r: seq<string>)
    requires |acts| >= 1 && RankSorted(acts)
    requires |r| == |acts| && forall i :: 0 <= i < |r| ==> r[i] == ActionText(acts[i])
    ensures StartsWith(r[0], DelayedPrefix) <==> HasRank(acts, 0)
    ensures Mentions(r, InProgressPrefix) <==> HasRank(acts, 1)
    ensures Mentions(r, PlannedPrefix) <==> HasRank(acts, 2)
    ensures Mentions(r, DeliverablePrefix) <==> HasRank(acts, 3)
    ensures r == [NoBlockersText] <==> acts == [NoBlockers]
  {
    TextRank(acts[0], 0);
    if HasRank(acts, 0) {
      var i :| 0 <= i < |acts| && Rank(acts[i]) == 0;
      assert i == 0 by {
        if i > 0 {
          assert false;
        }
      }
    }
    RenderedRank(acts, r, 1);
    RenderedRank(acts, r, 2);
    RenderedRank(acts, r, 3);
    if r == [NoBlockersText] {
      TextKind(acts[0]);
      assert NoBlockersText[0] == 'N';
      assert acts == [acts[0]];
    }
  }

  /** recommend_next_actions: advice for one idea of one workspace. The first
      entry is about a delayed task exactly when one of the idea's tasks is
      delayed; an entry about an in-progress task, a planned task or a pending
      deliverable appears exactly when the idea has one; and the fallback
      message stands alone exactly when none of these holds. */
  function RecommendNextActions(tasks: seq<Task>, ds: seq<Deliverable>, ws: string, ideaId: string, month: string)
    : (r: seq<string>)
    ensures 1 <= |r| <= 4
    ensures StartsWith(r[0], DelayedPrefix) <==> AnyDelayed(IdeaTasks(tasks, ws, ideaId), month)
    ensures Mentions(r, InProgressPrefix) <==> AnyWithStatus(IdeaTasks(tasks, ws, ideaId), "in_progress")
    ensures Mentions(r, PlannedPrefix) <==> AnyWithStatus(IdeaTasks(tasks, ws, ideaId), "planned")
    ensures Mentions(r, DeliverablePrefix) <==> AnyPending(IdeaDeliverables(ds, ws, ideaId))
    ensures r == [NoBlockersText] <==>
      !AnyDelayed(IdeaTasks(tasks, ws, ideaId), month)
      && !AnyWithStatus(IdeaTasks(tasks, ws, ideaId), "in_progress")
      && !AnyWithStatus(IdeaTasks(tasks, ws, ideaId), "planned")
      && !AnyPending(IdeaDeliverables(ds, ws, ideaId))
  {
    var acts := Recommend(IdeaTasks(tasks, ws, ideaId), IdeaDeliverables(ds, ws, ideaId), month);
    var r := seq(|acts|, i requires 0 <= i < |acts| => ActionText(acts[i]));
    Rendered(acts, r);
    r
  }
}
