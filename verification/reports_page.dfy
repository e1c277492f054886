/** The update-log pagination of frontend/src/app/reports/page.tsx: pages of
    `Limit` logs fetched from an offset, replacing the list on a reset and
    appending to it on "load more". The answer to each request is an input. */
module ReportsPage {
  import opened Common
  import opened Text

  /** `LIMIT`, the page size. */
  const Limit: nat := 30

  /** A row of `GET /update_logs`, as far as the pagination is concerned. */
  datatype LogRow = LogRow(id: string, ideaId: string, title: string)

  /** The page's state. `filter` is the chosen idea id, "" for all ideas. */
  datatype Reports = Reports(logs: seq<LogRow>, offset: nat, hasMore: bool, loading: bool, filter: string)

  const Initial: Reports := Reports([], 0, true, false, "")

  /** The query a load sends. */
  datatype Request = Request(limit: nat, offset: nat, ideaId: Option<string>)

  /** How the request settled: an ok answer, another status, or a thrown fetch. */
  datatype Answer = Ok(data: seq<LogRow>) | NotOk(status: nat) | Threw

  /** The query of `loadLogs(fromOffset, …)` under the current filter. */
  function RequestFor(s: Reports, fromOffset: nat): (r: Request)
    ensures r.limit == Limit && r.offset == fromOffset
    ensures r.ideaId.Some? <==> s.filter != ""
    ensures r.ideaId.Some? ==> r.ideaId.value == s.filter
  {
    Request(Limit, fromOffset, if s.filter != "" then Some(s.filter) else None)
  }

  /** `loadLogs(fromOffset, replace)` once the request has settled (the
      loading flag is up only while it is in flight). */
  function LoadLogs(s: Reports, fromOffset: nat, replace: bool, answer: Answer): (r: Reports)
    ensures !r.loading && r.filter == s.filter
    ensures !answer.Ok? ==> r == s.(loading := false)
    ensures answer.Ok? && replace ==> r.logs == answer.data
    ensures answer.Ok? && !replace ==> r.logs == s.logs + answer.data
    ensures answer.Ok? ==> (r.hasMore <==> |answer.data| >= Limit)
    ensures answer.Ok? ==> r.offset == fromOffset + |answer.data|
  {
    match answer
    case Ok(data) =>
      s.(logs := if replace then data else s.logs + data,
         hasMore := |data| >= Limit,
         offset := fromOffset + |data|,
         loading := false)
    case _ => s.(loading := false)
  }

  /** The effect that runs when the token or the filter changes: with a token
      it clears the list and reloads from offset 0, replacing. */
  function Reset(s: Reports, token: string, filter: string, answer: Answer): (r: Reports)
    ensures r.filter == filter
    ensures token == "" ==> r == s.(filter := filter)
    ensures token != "" && !answer.Ok? ==> r == Reports([], 0, true, false, filter)
    ensures token != "" && answer.Ok? ==> r.logs == answer.data && r.offset == |answer.data|
  {
    if token == "" then s.(filter := filter)
    else LoadLogs(Reports([], 0, true, s.loading, filter), 0, true, answer)
  }

  /** `loadMore()`: the next page from the current offset, appended. */
  function LoadMore(s: Reports, answer: Answer): (r: Reports)
    ensures answer.Ok? ==> r.logs == s.logs + answer.data && r.offset == s.offset + |answer.data|
    ensures !answer.Ok? ==> r == s.(loading := false)
  {
    LoadLogs(s, s.offset, false, answer)
  }

  /** What happens to the page: a token or filter change, or a "load more". */
  datatype Event = Changed(token: string, filter: string, answer: Answer) | More(answer: Answer)

  function Step(s: Reports, e: Event): Reports {
    match e
    case Changed(token, filter, answer) => Reset(s, token, filter, answer)
    case More(answer) => LoadMore(s, answer)
  }

  function Run(s: Reports, events: seq<Event>): Reports
    decreases |events|
  {
    if events == [] then s else Step(Run(s, events[..|events| - 1]), events[|events| - 1])
  }

  /** The offset counts the logs shown: the next page starts right after them. */
  predicate OffsetCountsLogs(s: Reports) {
    s.offset == |s.logs|
  }

  lemma StepKeepsOffset(s: Reports, e: Event)
    requires OffsetCountsLogs(s)
    ensures OffsetCountsLogs(Step(s, e))
  {}

  /** From a fresh page, whatever the sequence of resets, loads and failures,
      `loadMore` asks for exactly the logs after those already shown. */
  lemma {:induction false} RunKeepsOffset(events: seq<Event>)
    ensures OffsetCountsLogs(Run(Initial, events))
    ensures RequestFor(Run(Initial, events), Run(Initial, events).offset).offset
      == |Run(Initial, events).logs|
    decreases |events|
  {
    if events != [] {
      RunKeepsOffset(events[..|events| - 1]);
      StepKeepsOffset(Run(Initial, events[..|events| - 1]), events[|events| - 1]);
    }
  }

  /** Loading page after page appends them in order: the list is the pages
      concatenated, and the offset is their total length. */
  lemma TwoPages(s: Reports, a: seq<LogRow>, b: seq<LogRow>)
    ensures var r := LoadMore(LoadMore(s, Ok(a)), Ok(b));
      r.logs == s.logs + a + b && r.offset == s.offset + |a| + |b| && (r.hasMore <==> |b| >= Limit)
  {}

  /** A short page ends the list; a full page leaves more to load. */
  lemma ShortPageEnds(s: Reports, data: seq<LogRow>)
    ensures !LoadMore(s, Ok(data)).hasMore <==> |data| < Limit
  {}
}
