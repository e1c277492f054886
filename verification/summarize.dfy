/** The local Markdown summariser of backend/app/services.py (`_local_summarize_markdown`),
    used for every update log when no language-model key is configured: it quotes
    the checkbox items of a progress note, falls back to the note's first lines, and
    tags the note with the tool and method keywords it mentions. */
module Summarize {
  import opened Common
  import opened Text

  /** Longest summary kept. */
  const MaxSummary: nat := 1200

  /** At most this many completed / in-progress items are quoted. */
  const QuotedCompleted: nat := 4
  const QuotedInProgress: nat := 3

  /** The keywords looked for, in the order they are reported. */
  const KnownTags: seq<string> := ["rtl", "simulation", "debug", "vivado", "matlab"]

  datatype Summary = Summary(text: string, tags: seq<string>)

  // ---------------------------------------------------------------------------
  // Lines

  /** A non-blank stripped line neither starts nor ends with whitespace. */
  predicate Trimmed(x: string) {
    |x| > 0 && !IsSpace(x[0]) && !IsSpace(x[|x| - 1])
  }

  predicate NoBoundary(x: string) {
    forall k :: 0 <= k < |x| ==> !IsLineBoundary(x[k])
  }

  /** A stripped line that is not blank is trimmed. */
  lemma StripTrims(line: string)
    ensures Strip(line) != [] ==> Trimmed(Strip(line))
  {}

  /** Stripping keeps only characters of the original line. */
  lemma StripNoBoundary(line: string)
    requires NoBoundary(line)
    ensures NoBoundary(Strip(line))
  {
    var x := Strip(line);
    var j :| SliceAt(line, x, j);
    forall k | 0 <= k < |x|
      ensures !IsLineBoundary(x[k])
    {
      assert x[k] == line[j + k];
    }
  }

  function StripAll(ls: seq<string>): (r: seq<string>)
    ensures |r| == |ls| && forall i :: 0 <= i < |ls| ==> r[i] == Strip(ls[i])
  {
    seq(|ls|, i requires 0 <= i < |ls| => Strip(ls[i]))
  }

  predicate NonBlank(x: string) { x != [] }

  /** `[line.strip() for line in body.splitlines() if line.strip()]`. */
  function ContentLines(body: string): (r: seq<string>)
    ensures forall i :: 0 <= i < |r| ==> Trimmed(r[i]) && NoBoundary(r[i])
  {
    var ls := Lines(body);
    var stripped := StripAll(ls);
    var r := Filter(stripped, NonBlank);
    forall j | 0 <= j < |r|
      ensures Trimmed(r[j]) && NoBoundary(r[j])
    {
      var i :| 0 <= i < |stripped| && stripped[i] == r[j];
      StripTrims(ls[i]);
      StripNoBoundary(ls[i]);
    }
    r
  }

  /** A note's content lines are exactly its non-blank lines, stripped. */
  lemma ContentLinesMembers(body: string)
    ensures forall x :: x in ContentLines(body) <==>
      x != [] && exists i :: 0 <= i < |Lines(body)| && Strip(Lines(body)[i]) == x
  {
    var ls := Lines(body);
    FilterMembers(StripAll(ls), NonBlank);
  }

  // ---------------------------------------------------------------------------
  // Checkbox items

  predicate IsDoneLine(line: string) { StartsWith(line, "- [x]") }

  predicate IsOpenLine(line: string) { StartsWith(line, "- [/]") || StartsWith(line, "- [ ]") }

  /** A line is never both: the three markers differ in their fourth character,
      so the `elif` of the source never sees a completed item. */
  lemma DoneAndOpenDisjoint(line: string)
    ensures IsDoneLine(line) ==> !IsOpenLine(line)
  {
    if IsDoneLine(line) {
      assert line[3] == 'x';
    }
  }

  /** `line[5:].strip().strip("*").strip()`: the text after the checkbox with
      surrounding whitespace and bold markers removed. */
  function ItemText(line: string): string
    requires |line| >= 5
  {
    Strip(StripWhere(Strip(line[5..]), IsStar))
  }

  /** Items shorter than two words and at most 20 characters are taken to be
      headings and are skipped. */
  predicate Substantive(text: string) {
    WordCount(text) >= 2 || |text| > 20
  }

  predicate QualifyingDone(line: string) {
    IsDoneLine(line) && Substantive(ItemText(line))
  }

  predicate QualifyingOpen(line: string) {
    IsOpenLine(line) && Substantive(ItemText(line))
  }

  /** `[text(l) for l in lines if q(l)]` for a checkbox kind `q`. */
  function Items(lines: seq<string>, q: string -> bool): (r: seq<string>)
    requires forall l :: q(l) ==> |l| >= 5
    ensures |r| == Count(lines, q)
  {
    var fs := Filter(lines, q);
    seq(|fs|, i requires 0 <= i < |fs| => ItemText(fs[i]))
  }

  /** An item text is listed exactly when some line of that kind carries it. */
  lemma ItemsMembers(lines: seq<string>, q: string -> bool)
    requires forall l :: q(l) ==> |l| >= 5
    ensures forall x :: x in Items(lines, q) <==>
      exists i :: 0 <= i < |lines| && q(lines[i]) && ItemText(lines[i]) == x
  {
    var fs := Filter(lines, q);
    var r := Items(lines, q);
    forall x | x in r
      ensures exists i :: 0 <= i < |lines| && q(lines[i]) && ItemText(lines[i]) == x
    {
      var j :| 0 <= j < |r| && r[j] == x;
      assert fs[j] in lines && q(fs[j]);
      var i :| 0 <= i < |lines| && lines[i] == fs[j];
      assert ItemText(lines[i]) == x;
    }
    forall i | 0 <= i < |lines| && q(lines[i])
      ensures ItemText(lines[i]) in r
    {
      assert lines[i] in fs;
      var j :| 0 <= j < |fs| && fs[j] == lines[i];
      assert r[j] == ItemText(lines[i]);
    }
  }

  /** The texts of the substantive completed items, in line order. */
  function CompletedItems(lines: seq<string>): seq<string> {
    Items(lines, QualifyingDone)
  }

  /** The texts of the substantive in-progress (`[/]`) and to-do (`[ ]`) items, in
      line order. */
  function InProgressItems(lines: seq<string>): seq<string> {
    Items(lines, QualifyingOpen)
  }

  /** A completed item is quoted-eligible exactly when a `- [x]` line carries it
      and it is substantive; the reported count is the number of such lines. */
  lemma CompletedItemsSpec(lines: seq<string>)
    ensures |CompletedItems(lines)| == Count(lines, QualifyingDone)
    ensures forall x :: x in CompletedItems(lines) <==>
      exists i :: 0 <= i < |lines| && IsDoneLine(lines[i]) && Substantive(ItemText(lines[i]))
        && ItemText(lines[i]) == x
  {
    ItemsMembers(lines, QualifyingDone);
  }

  /** Likewise for `- [/]` and `- [ ]` lines. */
  lemma InProgressItemsSpec(lines: seq<string>)
    ensures |InProgressItems(lines)| == Count(lines, QualifyingOpen)
    ensures forall x :: x in InProgressItems(lines) <==>
      exists i :: 0 <= i < |lines| && IsOpenLine(lines[i]) && Substantive(ItemText(lines[i]))
        && ItemText(lines[i]) == x
  {
    ItemsMembers(lines, QualifyingOpen);
  }

  // ---------------------------------------------------------------------------
  // The summary text

  function CompletedPart(done: seq<string>): string {
    "Completed (" + NatToString(|done|) + "): " + Join("; ", Take(done, QuotedCompleted))
  }

  function InProgressPart(open: seq<string>): string {
    "In progress: " + Join("; ", Take(open, QuotedInProgress))
  }

  predicate IsBulletLine(line: string) { StartsWith(line, "- ") }

  /** Without checkbox items: the first five bullet lines, or else the first five
      lines, one per output line. */
  function Fallback(lines: seq<string>): string {
    Join("\n", FallbackChoice(lines))
  }

  /** The lines the fallback shows. */
  function FallbackChoice(lines: seq<string>): seq<string> {
    var bullets := Take(Filter(lines, IsBulletLine), 5);
    if |bullets| > 0 then bullets else Take(lines, 5)
  }

  function Parts(done: seq<string>, open: seq<string>): seq<string> {
    (if |done| > 0 then [CompletedPart(done)] else [])
    + (if |open| > 0 then [InProgressPart(open)] else [])
  }

  /** The summary before truncation. */
  function FullSummary(body: string): string {
    var lines := ContentLines(body);
    var parts := Parts(CompletedItems(lines), InProgressItems(lines));
    if |parts| > 0 then Join(" | ", parts) else Fallback(lines)
  }

  predicate IsNewline(c: char) { c == '\n' }

  // ---------------------------------------------------------------------------
  // Tags

  /** Position of a keyword in `KnownTags` (5 for any other string). */
  function TagRank(t: string): nat {
    if t == "rtl" then 0 else if t == "simulation" then 1 else if t == "debug" then 2
    else if t == "vivado" then 3 else if t == "matlab" then 4 else 5
  }

  /** `[t] if t in lowered else []`: one step of the keyword checks. */
  function TagIf(lowered: string, t: string): (r: seq<string>)
    ensures |r| <= 1
    ensures forall u :: u in r <==> u == t && Contains(lowered, t)
  {
    if Contains(lowered, t) then [t] else []
  }

  /** The known keywords occurring in the lower-cased body, in `KnownTags` order. */
  function Tags(body: string): (r: seq<string>)
    ensures |r| <= |KnownTags|
    ensures forall t :: t in r <==> t in KnownTags && Contains(Lower(body), t)
    ensures forall i, j :: 0 <= i < j < |r| ==> TagRank(r[i]) < TagRank(r[j])
  {
    var lowered := Lower(body);
    var r1 := TagIf(lowered, "rtl");
    var r2 := r1 + TagIf(lowered, "simulation");
    var r3 := r2 + TagIf(lowered, "debug");
    var r4 := r3 + TagIf(lowered, "vivado");
    TagAfter(r1, lowered, "simulation", 1);
    TagAfter(r2, lowered, "debug", 2);
    TagAfter(r3, lowered, "vivado", 3);
    TagAfter(r4, lowered, "matlab", 4);
    r4 + TagIf(lowered, "matlab")
  }

  /** Ranks strictly increase along `r`. */
  predicate RankOrdered(r: seq<string>) {
    forall i, j :: 0 <= i < j < |r| ==> TagRank(r[i]) < TagRank(r[j])
  }

  /** Appending the check for a keyword ranked above everything so far keeps the
      ranks increasing. */
  lemma TagAfter(acc: seq<string>, lowered: string, t: string, k: nat)
    requires RankOrdered(acc) && TagRank(t) == k
    requires forall i :: 0 <= i < |acc| ==> TagRank(acc[i]) < k
    ensures RankOrdered(acc + TagIf(lowered, t))
    ensures forall i :: 0 <= i < |acc + TagIf(lowered, t)| ==> TagRank((acc + TagIf(lowered, t))[i]) <= k
  {
    var r := acc + TagIf(lowered, t);
    forall i | 0 <= i < |r| ensures TagRank(r[i]) <= k {
      if i >= |acc| { assert r[i] in TagIf(lowered, t); }
    }
  }

  /** `_local_summarize_markdown(body_md)`: the summary cut to 1200 characters and
      the keyword tags (the source's `tags[:5]` never cuts, there being five). */
  function SummarizeMarkdown(body: string): (r: Summary)
    ensures |r.text| <= MaxSummary
    ensures r.text <= FullSummary(body)
    ensures |FullSummary(body)| <= MaxSummary ==> r.text == FullSummary(body)
    ensures |r.tags| <= 5
    ensures forall t :: t in r.tags <==> t in KnownTags && Contains(Lower(body), t)
    ensures forall i, j :: 0 <= i < j < |r.tags| ==> TagRank(r.tags[i]) < TagRank(r.tags[j])
  {
    Summary(Take(FullSummary(body), MaxSummary), Take(Tags(body), 5))
  }

  // ---------------------------------------------------------------------------
  // Properties

  /** `Join` starts with its first part. */
  lemma JoinStartsWithHead(sep: string, parts: seq<string>)
    requires |parts| >= 1
    ensures parts[0] <= Join(sep, parts)
  {
    if |parts| > 1 {
      assert Join(sep, parts) == parts[0] + (sep + Join(sep, parts[1..]));
    }
  }

  /** With completed items the summary opens with their full count, written in
      decimal, followed by the first (at most four) of them. */
  lemma CompletedCountShown(body: string)
    requires |CompletedItems(ContentLines(body))| > 0
    ensures var n := Count(ContentLines(body), QualifyingDone);
      exists digits :: AllDigits(digits) && DigitsValue(digits) == n
        && StartsWith(FullSummary(body), "Completed (" + digits + "): "
             + Join("; ", Take(CompletedItems(ContentLines(body)), QuotedCompleted)))
  {
    var lines := ContentLines(body);
    var done := CompletedItems(lines);
    var parts := Parts(done, InProgressItems(lines));
    assert parts[0] == CompletedPart(done);
    JoinStartsWithHead(" | ", parts);
    DigitsValueOfNatToString(|done|);
    var digits := NatToString(|done|);
    assert AllDigits(digits);
  }

  /** With no completed item, in-progress items make up the whole summary. */
  lemma InProgressOnly(body: string)
    requires |CompletedItems(ContentLines(body))| == 0
    requires |InProgressItems(ContentLines(body))| > 0
    ensures FullSummary(body) == "In progress: "
      + Join("; ", Take(InProgressItems(ContentLines(body)), QuotedInProgress))
  {}

  /** Both kinds present: two parts separated by " | ". */
  lemma BothParts(body: string)
    requires |CompletedItems(ContentLines(body))| > 0
    requires |InProgressItems(ContentLines(body))| > 0
    ensures FullSummary(body) == CompletedPart(CompletedItems(ContentLines(body)))
      + " | " + InProgressPart(InProgressItems(ContentLines(body)))
  {
    var lines := ContentLines(body);
    var parts := Parts(CompletedItems(lines), InProgressItems(lines));
    assert |parts| == 2;
    assert Join(" | ", parts[1..]) == parts[1];
  }

  /** Without qualifying checkbox items, the summary's lines are the note's first
      (at most five) bullet lines, or when it has none its first five lines. */
  lemma FallbackLines(body: string)
    requires |CompletedItems(ContentLines(body))| == 0
    requires |InProgressItems(ContentLines(body))| == 0
    requires |ContentLines(body)| > 0
    ensures var lines := ContentLines(body);
      var bullets := Filter(lines, IsBulletLine);
      SplitWhere(FullSummary(body), IsNewline)
        == if |bullets| > 0 then Take(bullets, 5) else Take(lines, 5)
  {
    var lines := ContentLines(body);
    assert FullSummary(body) == Fallback(lines) by {
      assert Parts(CompletedItems(lines), InProgressItems(lines)) == [];
    }
    FallbackSplits(lines);
  }

  /** Splitting the fallback text at its newlines gives back the chosen lines. */
  lemma FallbackSplits(lines: seq<string>)
    requires |lines| > 0
    requires forall i :: 0 <= i < |lines| ==> NoBoundary(lines[i])
    ensures SplitWhere(Fallback(lines), IsNewline) == FallbackChoice(lines)
  {
    ChosenAmongLines(lines);
    NoNewlineIn(lines, FallbackChoice(lines));
    SplitJoin(FallbackChoice(lines), IsNewline, '\n');
  }

  /** The fallback picks its lines among the content lines. */
  lemma ChosenAmongLines(lines: seq<string>)
    ensures forall i :: 0 <= i < |FallbackChoice(lines)| ==> FallbackChoice(lines)[i] in lines
  {
    var bullets := Filter(lines, IsBulletLine);
    FilterMembers(lines, IsBulletLine);
    forall i | 0 <= i < |Take(bullets, 5)| ensures Take(bullets, 5)[i] in lines {
      assert Take(bullets, 5)[i] == bullets[i];
    }
    forall i | 0 <= i < |Take(lines, 5)| ensures Take(lines, 5)[i] in lines {
      assert Take(lines, 5)[i] == lines[i];
    }
  }

  /** Lines chosen among the content lines contain no newline. */
  lemma NoNewlineIn(lines: seq<string>, chosen: seq<string>)
    requires forall i :: 0 <= i < |lines| ==> NoBoundary(lines[i])
    requires forall i :: 0 <= i < |chosen| ==> chosen[i] in lines
    ensures forall i, k :: 0 <= i < |chosen| && 0 <= k < |chosen[i]| ==> !IsNewline(chosen[i][k])
  {
    forall i, k | 0 <= i < |chosen| && 0 <= k < |chosen[i]|
      ensures !IsNewline(chosen[i][k])
    {
      var j :| 0 <= j < |lines| && lines[j] == chosen[i];
      assert !IsLineBoundary(lines[j][k]);
    }
  }

  /** A blank note summarises to the empty string. */
  lemma BlankNote(body: string)
    requires |ContentLines(body)| == 0
    ensures SummarizeMarkdown(body).text == ""
  {
    FilterNone(ContentLines(body), QualifyingDone);
    FilterNone(ContentLines(body), QualifyingOpen);
  }

  /** Tagging ignores case. */
  lemma TagsIgnoreCase(body: string)
    ensures Tags(Lower(body)) == Tags(body)
  {
    LowerIdempotent(body);
  }

  /** Appending text to a note never loses a tag. */
  lemma TagsGrow(a: string, b: string)
    ensures forall t :: t in Tags(a) ==> t in Tags(a + b)
  {
    LowerConcat(a, b);
    forall t | t in Tags(a)
      ensures t in Tags(a + b)
    {
      ContainsExtend(Lower(a), Lower(b), t);
    }
  }
}
