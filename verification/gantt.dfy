/** The Gantt chart of frontend/src/app/page.tsx: month strings against column
    indices 1..12 of the viewed year, the drag reducer that moves or resizes a
    task's bar, the save that follows the mouse-up, and the way the two task
    loads rebuild or extend the table of range edits. The pixel-to-month
    rounding happens before the model: a drag step receives the whole number of
    months the pointer has moved. */
module Gantt {
  import opened Common
  import opened Text

  const ViewYear: string := "2026"
  const FirstMonth: int := 1
  const LastMonth: int := 12

  function Clamp(x: int, lo: int, hi: int): (r: int)
    requires lo <= hi
    ensures lo <= r <= hi
    ensures lo <= x <= hi ==> r == x
  {
    Max(lo, Min(hi, x))
  }

  // ---------------------------------------------------------------------------
  // Month strings

  /** `monthToIndex(monthStr)`. */
  function MonthToIndex(monthStr: string): (r: int)
    ensures FirstMonth <= r <= LastMonth
  {
    var parts := SplitWhere(monthStr, IsDash);
    if |parts| < 2 then FirstMonth
    else match JsNumber(parts[1])
      case None => FirstMonth
      case Some(m) => Clamp(m, FirstMonth, LastMonth)
  }

  /** A month string without a second field, or whose second field is not a
      number, falls in the first column. */
  lemma MonthToIndexFallback(monthStr: string)
    requires |SplitWhere(monthStr, IsDash)| < 2 || JsNumber(SplitWhere(monthStr, IsDash)[1]).None?
    ensures MonthToIndex(monthStr) == FirstMonth
  {}

  /** `indexToMonth(monthIndex)`. */
  function IndexToMonth(monthIndex: int): (r: string)
    ensures |r| == 7 && r[..5] == "2026-" && AllDigits(r[5..])
    ensures DigitsValue(r[5..]) == Clamp(monthIndex, FirstMonth, LastMonth)
  {
    var mm := PadStart2(NatToString(Clamp(monthIndex, FirstMonth, LastMonth)));
    TwoDigits(Clamp(monthIndex, FirstMonth, LastMonth));
    assert (ViewYear + "-" + mm)[5..] == mm;
    ViewYear + "-" + mm
  }

  /** The two digits of a month 1..12, zero-padded. */
  lemma TwoDigits(n: nat)
    requires 1 <= n <= 12
    ensures var mm := PadStart2(NatToString(n));
      |mm| == 2 && AllDigits(mm) && DigitsValue(mm) == n
  {
    if n < 10 {
      NatToStringSmall(n);
      assert PadStart2(NatToString(n)) == ['0', DigitChar(n)];
      DigitsValuePair('0', DigitChar(n));
    } else {
      NatToStringSmall(n / 10);
      assert NatToString(n) == [DigitChar(1), DigitChar(n % 10)];
      DigitsValuePair(DigitChar(1), DigitChar(n % 10));
    }
  }

  /** A column index becomes "2026-" followed by the two digits of the clamped
      month. */
  lemma IndexToMonthFormat(monthIndex: int)
    ensures var r := IndexToMonth(monthIndex);
      |r| == 7 && r[..5] == "2026-" && AllDigits(r[5..])
      && DigitsValue(r[5..]) == Clamp(monthIndex, FirstMonth, LastMonth)
  {
  }

  lemma SplitNoDash(mm: string)
    requires forall k :: 0 <= k < |mm| ==> !IsDash(mm[k])
    ensures SplitWhere(mm, IsDash) == [mm]
  {}

  lemma SplitAfterYear(mm: string)
    ensures SplitWhere(ViewYear + "-" + mm, IsDash) == [ViewYear] + SplitWhere(mm, IsDash)
  {
    var year: string := ['2', '0', '2', '6'];
    assert !IsDash(year[0]) && !IsDash(year[1]) && !IsDash(year[2]) && !IsDash(year[3]);
    SplitAfterHead(year, '-', mm, IsDash);
    assert year == ViewYear;
    assert ViewYear + "-" + mm == year + ['-'] + mm;
  }

  /** A month string splits at its one dash into the year and the two digits. */
  lemma SplitMonth(mm: string)
    requires forall k :: 0 <= k < |mm| ==> !IsDash(mm[k])
    ensures SplitWhere(ViewYear + "-" + mm, IsDash) == [ViewYear, mm]
  {
    SplitAfterYear(mm);
    SplitNoDash(mm);
  }

  /** Two digits read back as their value. */
  lemma ReadTwoDigits(mm: string)
    requires |mm| == 2 && AllDigits(mm)
    ensures JsNumber(mm) == Some(DigitsValue(mm))
  {
    assert !IsSpace(mm[0]) && !IsSpace(mm[1]);
    assert Strip(mm) == mm;
  }

  /** Reading back a written month gives the clamped index. */
  lemma MonthRoundTrip(monthIndex: int)
    ensures MonthToIndex(IndexToMonth(monthIndex)) == Clamp(monthIndex, FirstMonth, LastMonth)
  {
    var n := Clamp(monthIndex, FirstMonth, LastMonth);
    var mm := PadStart2(NatToString(n));
    TwoDigits(n);
    assert forall k :: 0 <= k < |mm| ==> !IsDash(mm[k]);
    SplitMonth(mm);
    ReadTwoDigits(mm);
  }

  // ---------------------------------------------------------------------------
  // Drag reducer

  datatype DragMode = Move | ResizeStart | ResizeEnd

  /** One row of `taskRangeEdits`. */
  datatype Range = Range(start: int, end: int, dirty: bool)

  /** What `beginDrag` records (the pixel fields are folded into the month delta). */
  datatype DragState = DragState(taskId: string, mode: DragMode, initialStart: int, initialEnd: int)

  /** The new (start, end) of the dragged bar for a delta of `delta` months. */
  function DragRange(mode: DragMode, s0: int, e0: int, delta: int): (r: (int, int))
    ensures mode == Move ==> r.1 - r.0 == e0 - s0 && (1 <= s0 <= e0 <= 12 ==> 1 <= r.0 <= r.1 <= 12)
    ensures mode == ResizeStart ==> r.1 == e0 && r.0 <= e0 && (e0 >= 1 ==> 1 <= r.0)
    ensures mode == ResizeEnd ==> r.0 == s0 && s0 <= r.1 && (s0 <= 12 ==> r.1 <= 12)
  {
    match mode
    case Move =>
      var start := s0 + delta;
      var end := e0 + delta;
      var (start1, end1) := if start < 1 then (1, end + (1 - start)) else (start, end);
      if end1 > 12 then (start1 - (end1 - 12), 12) else (start1, end1)
    case ResizeStart => (Min(e0, Max(1, s0 + delta)), e0)
    case ResizeEnd => (s0, Max(s0, Min(12, e0 + delta)))
  }

  /** Moving keeps the bar's length, and a bar that fits the year stays inside it. */
  lemma MoveKeepsLength(s0: int, e0: int, delta: int)
    ensures var (start, end) := DragRange(Move, s0, e0, delta);
      end - start == e0 - s0
      && (1 <= s0 <= e0 <= 12 ==> 1 <= start <= end <= 12)
  {}

  /** Resizing from the left keeps the end and keeps the start in 1..end. */
  lemma ResizeStartBounds(s0: int, e0: int, delta: int)
    requires e0 >= 1
    ensures var (start, end) := DragRange(ResizeStart, s0, e0, delta);
      end == e0 && 1 <= start <= e0
  {}

  /** Resizing from the right keeps the start and keeps the end in start..12. */
  lemma ResizeEndBounds(s0: int, e0: int, delta: int)
    requires s0 <= 12
    ensures var (start, end) := DragRange(ResizeEnd, s0, e0, delta);
      start == s0 && s0 <= end <= 12
  {}

  /** A delta of zero leaves a bar that fits the year where it was. */
  lemma DragZero(mode: DragMode, s0: int, e0: int)
    requires 1 <= s0 <= e0 <= 12
    ensures DragRange(mode, s0, e0, 0) == (s0, e0)
  {}

  /** The `setTaskRangeEdits` updater of `onMouseMove`: only the dragged task's
      entry changes, and it is marked dirty. */
  function DragStep(edits: map<string, Range>, ds: DragState, delta: int): (r: map<string, Range>)
    ensures r.Keys == edits.Keys + {ds.taskId}
    ensures forall id :: id in edits && id != ds.taskId ==> r[id] == edits[id]
    ensures r[ds.taskId].dirty
    ensures (r[ds.taskId].start, r[ds.taskId].end) == DragRange(ds.mode, ds.initialStart, ds.initialEnd, delta)
  {
    var (start, end) := DragRange(ds.mode, ds.initialStart, ds.initialEnd, delta);
    edits[ds.taskId := Range(start, end, true)]
  }

  /** Each step starts again from the recorded initial range, so only the last
      pointer position counts. */
  lemma DragStepsDoNotAccumulate(edits: map<string, Range>, ds: DragState, d1: int, d2: int)
    ensures DragStep(DragStep(edits, ds, d1), ds, d2) == DragStep(edits, ds, d2)
  {}

  // ---------------------------------------------------------------------------
  // Saving a range

  /** The fields of a task row the chart reads and writes. */
  datatype TaskRow = TaskRow(id: string, status: string, startMonth: string, endMonth: string, dueMonth: string)

  /** The PATCH body `saveTaskRange` sends. */
  datatype RangePatch = RangePatch(status: string, startMonth: string, endMonth: string, dueMonth: string)

  datatype Chart = Chart(tasks: seq<TaskRow>, edits: map<string, Range>, message: string)

  function FindTask(tasks: seq<TaskRow>, id: string): (r: Option<TaskRow>)
    ensures r.Some? ==> r.value in tasks && r.value.id == id
    ensures r.None? ==> forall i :: 0 <= i < |tasks| ==> tasks[i].id != id
  {
    if |tasks| == 0 then None
    else if tasks[0].id == id then Some(tasks[0])
    else FindTask(tasks[1..], id)
  }

  /** The request `saveTaskRange(taskId)` sends, if any: none without an entry,
      a loaded task or a token. The due month follows the end month. */
  function SaveRequest(c: Chart, taskId: string, token: string): (r: Option<RangePatch>)
    ensures r.Some? <==> taskId in c.edits && FindTask(c.tasks, taskId).Some? && token != ""
    ensures r.Some? ==> (r.value.dueMonth == r.value.endMonth
      && r.value.startMonth == IndexToMonth(c.edits[taskId].start)
      && r.value.endMonth == IndexToMonth(c.edits[taskId].end)
      && r.value.status == FindTask(c.tasks, taskId).value.status)
  {
    if taskId !in c.edits || token == "" then None
    else match FindTask(c.tasks, taskId)
      case None => None
      case Some(task) =>
        var range := c.edits[taskId];
        Some(RangePatch(task.status, IndexToMonth(range.start), IndexToMonth(range.end), IndexToMonth(range.end)))
  }

  function ApplyPatch(t: TaskRow, taskId: string, p: RangePatch): TaskRow {
    if t.id == taskId then t.(startMonth := p.startMonth, endMonth := p.endMonth, dueMonth := p.dueMonth) else t
  }

  /** How the PATCH settled: a response, ok or not, with its status code, or a
      thrown `fetch`. */
  datatype PatchAnswer = Answered(ok: bool, status: int) | Thrown

  /** The rest of `saveTaskRange`, given how its PATCH settled. A thrown fetch
      leaves the chart as it was. */
  function SaveTaskRange(c: Chart, taskId: string, token: string, answer: PatchAnswer): (r: Chart)
    ensures SaveRequest(c, taskId, token).None? ==> r == c
    ensures answer.Thrown? ==> r == c
    ensures answer.Answered? && !answer.ok ==> r.tasks == c.tasks && r.edits == c.edits
    ensures answer.Answered? && !answer.ok && SaveRequest(c, taskId, token).Some? ==>
      r == c.(message := "Task range save failed: " + IntToString(answer.status))
    ensures answer.Answered? && answer.ok && SaveRequest(c, taskId, token).Some? ==>
      var p := SaveRequest(c, taskId, token).value;
      && |r.tasks| == |c.tasks|
      && (forall i :: 0 <= i < |c.tasks| && c.tasks[i].id != taskId ==> r.tasks[i] == c.tasks[i])
      && (forall i :: 0 <= i < |c.tasks| && c.tasks[i].id == taskId ==>
            r.tasks[i] == c.tasks[i].(startMonth := p.startMonth, endMonth := p.endMonth, dueMonth := p.dueMonth))
      && r.edits == c.edits[taskId := c.edits[taskId].(dirty := false)]
  {
    match SaveRequest(c, taskId, token)
    case None => c
    case Some(p) =>
      match answer
      case Thrown => c
      case Answered(ok, status) =>
      if !ok then c.(message := "Task range save failed: " + IntToString(status))
      else c.(tasks := seq(|c.tasks|, i requires 0 <= i < |c.tasks| => ApplyPatch(c.tasks[i], taskId, p)),
              edits := c.edits[taskId := c.edits[taskId].(dirty := false)])
  }

  /** `onMouseUp`: the drag ends, and a save follows only if the entry is dirty.
      Returns the chart and the request sent, if any. */
  function MouseUp(c: Chart, ds: DragState, token: string, answer: PatchAnswer): (r: (Chart, Option<RangePatch>))
    ensures r.1.Some? <==> ds.taskId in c.edits && c.edits[ds.taskId].dirty && SaveRequest(c, ds.taskId, token).Some?
    ensures r.1.None? ==> r.0 == c
    ensures r.1.Some? ==> r.1.value.dueMonth == r.1.value.endMonth
  {
    if ds.taskId in c.edits && c.edits[ds.taskId].dirty then
      (SaveTaskRange(c, ds.taskId, token, answer), SaveRequest(c, ds.taskId, token))
    else (c, None)
  }

  /** The bar read back from a saved row: a range inside the year survives the
      trip through month strings, and the edit entry is clean afterwards. */
  lemma SaveThenReload(c: Chart, taskId: string, token: string, i: nat)
    requires SaveRequest(c, taskId, token).Some?
    requires i < |c.tasks| && c.tasks[i].id == taskId
    requires 1 <= c.edits[taskId].start <= 12 && 1 <= c.edits[taskId].end <= 12
    ensures var r := SaveTaskRange(c, taskId, token, Answered(true, 200));
      RangeOf(r.tasks[i]) == r.edits[taskId]
  {
    MonthRoundTrip(c.edits[taskId].start);
    MonthRoundTrip(c.edits[taskId].end);
  }

  // ---------------------------------------------------------------------------
  // Loading tasks

  /** The clean entry a load builds for a task row. */
  function RangeOf(t: TaskRow): (r: Range)
    ensures !r.dirty && FirstMonth <= r.start <= LastMonth && FirstMonth <= r.end <= LastMonth
  {
    Range(MonthToIndex(t.startMonth), MonthToIndex(t.endMonth), false)
  }

  function Ids(tasks: seq<TaskRow>): set<string> {
    set i | 0 <= i < |tasks| :: tasks[i].id
  }

  lemma IdsSnoc(data: seq<TaskRow>)
    requires |data| > 0
    ensures Ids(data) == Ids(data[..|data| - 1]) + {data[|data| - 1].id}
  {
    var init := data[..|data| - 1];
    assert forall i :: 0 <= i < |init| ==> init[i] == data[i];
    assert data[|data| - 1].id in Ids(data);
  }

  /** The `reduce` of `loadTasks`: one clean entry per task id. */
  function FreshEdits(data: seq<TaskRow>): (r: map<string, Range>)
    ensures r.Keys == Ids(data)
    ensures forall id :: id in r ==> !r[id].dirty
  {
    if |data| == 0 then map[]
    else
      IdsSnoc(data);
      FreshEdits(data[..|data| - 1])[data[|data| - 1].id := RangeOf(data[|data| - 1])]
  }

  /** Each entry is built from the last row with that id. */
  lemma {:induction false} FreshEditsLastRow(data: seq<TaskRow>, i: nat)
    requires i < |data|
    requires forall j :: i < j < |data| ==> data[j].id != data[i].id
    ensures data[i].id in FreshEdits(data) && FreshEdits(data)[data[i].id] == RangeOf(data[i])
  {
    if i < |data| - 1 {
      var init := data[..|data| - 1];
      assert init[i] == data[i];
      assert forall j :: i < j < |init| ==> init[j] == data[j];
      FreshEditsLastRow(init, i);
    }
  }

  /** `loadTasks` after an ok response: the rows replace the chart's tasks and
      the edit table is rebuilt from them, every entry clean. */
  function LoadTasks(c: Chart, data: seq<TaskRow>): (r: Chart)
    ensures r.tasks == data && r.message == c.message
    ensures r.edits.Keys == Ids(data)
    ensures forall id :: id in r.edits ==> !r.edits[id].dirty
  {
    c.(tasks := data, edits := FreshEdits(data))
  }

  /** The entries `loadAllTasks` adds: for the rows whose id has no entry yet. */
  function MissingEdits(current: map<string, Range>, data: seq<TaskRow>): (r: map<string, Range>)
    ensures r.Keys == Ids(data) - current.Keys
    ensures forall id :: id in r ==> !r[id].dirty
  {
    if |data| == 0 then map[]
    else
      var init := data[..|data| - 1];
      var last := data[|data| - 1];
      var prev := MissingEdits(current, init);
      IdsSnoc(data);
      if last.id in current then prev else prev[last.id := RangeOf(last)]
  }

  /** A new entry is built from the last row with its id: the months of that
      row, as indices, and clean. */
  lemma {:induction false} MissingEditsLastRow(current: map<string, Range>, data: seq<TaskRow>, i: nat)
    requires i < |data| && data[i].id !in current
    requires forall j :: i < j < |data| ==> data[j].id != data[i].id
    ensures data[i].id in MissingEdits(current, data)
    ensures MissingEdits(current, data)[data[i].id]
      == Range(MonthToIndex(data[i].startMonth), MonthToIndex(data[i].endMonth), false)
  {
    if i < |data| - 1 {
      var init := data[..|data| - 1];
      assert init[i] == data[i];
      assert forall j :: i < j < |init| ==> init[j] == data[j];
      MissingEditsLastRow(current, init, i);
    }
  }

  /** `loadAllTasks` after an ok response: the edit table gains a clean entry for
      every listed task that had none, and no existing entry is overwritten. */
  function LoadAllTasks(edits: map<string, Range>, data: seq<TaskRow>): (r: map<string, Range>)
    ensures r.Keys == edits.Keys + Ids(data)
    ensures forall id :: id in edits ==> r[id] == edits[id]
    ensures forall id :: id in r && id !in edits ==> !r[id].dirty
  {
    edits + MissingEdits(edits, data)
  }

  /** A task that had no entry gets one from its (last) row's months. */
  lemma LoadAllTasksNewEntry(edits: map<string, Range>, data: seq<TaskRow>, i: nat)
    requires i < |data| && data[i].id !in edits
    requires forall j :: i < j < |data| ==> data[j].id != data[i].id
    ensures LoadAllTasks(edits, data)[data[i].id]
      == Range(MonthToIndex(data[i].startMonth), MonthToIndex(data[i].endMonth), false)
  {
    MissingEditsLastRow(edits, data, i);
  }

  /** A full reload discards pending edits, while the all-tasks load keeps
      them: a dirty entry survives `loadAllTasks` but not `loadTasks`. */
  lemma ReloadsAndDirtyEntries(c: Chart, data: seq<TaskRow>, id: string)
    requires id in c.edits && c.edits[id].dirty
    ensures LoadAllTasks(c.edits, data)[id].dirty
    ensures id in LoadTasks(c, data).edits ==> !LoadTasks(c, data).edits[id].dirty
  {}
}
