/**
 * The story so far, as `generate_chapter` gathers it before writing
 * (backend/app/api/routers/writer.py:42-49, 63-106): the tail excerpt of a
 * chapter, the chapter rows the generator reads and updates, and the scan
 * over earlier chapters that fills in missing summaries and picks the
 * previous chapter's summary and ending.
 */
module Context {
  import opened Wrappers
  import opened Text

  // ---------------------------------------------------------- tail excerpt

  /** The default `limit` of `_extract_tail_excerpt`. */
  const TailLimit: nat := 500

  /** Python's falsy test on an optional string: `None` or `""`. */
  predicate Blank(text: Option<string>) {
    text.None? || text.value == ""
  }

  /**
   * Lines 42-49 exactly as written, for any integer `limit`. Python's
   * `stripped[-limit:]` keeps the last `limit` characters only when
   * `limit > 0`: `-0` is `0`, so a zero limit keeps the whole text, and a
   * negative limit drops `-limit` characters from the front instead.
   */
  function TailExcerptAsWritten(text: Option<string>, limit: int): string {
    if Blank(text) then ""
    else
      var stripped := Strip(text.value);
      if |stripped| <= limit then stripped
      else if limit > 0 then stripped[|stripped| - limit..]
      else if limit == 0 then stripped
      else if -limit <= |stripped| then stripped[-limit..]
      else ""
  }

  /**
   * With a zero limit the code returns the whole stripped chapter, where
   * the last zero characters are nothing.
   */
  lemma TailExcerptZeroLimitKeepsAll(text: Option<string>)
    requires text.Some? && Strip(text.value) != ""
    ensures TailExcerptAsWritten(text, 0) == Strip(text.value)
    ensures TailExcerptAsWritten(text, 0) != TailExcerpt(text, 0)
  {
  }

  /**
   * The excerpt the docstring describes: the last `limit` characters of the
   * stripped text, all of it when it is short enough, and nothing for a
   * blank chapter.
   */
  function TailExcerpt(text: Option<string>, limit: nat): (r: string)
    ensures Blank(text) ==> r == ""
    ensures !Blank(text) ==> EndsWith(Strip(text.value), r)
    ensures |r| <= limit
    ensures !Blank(text) && |Strip(text.value)| <= limit ==> r == Strip(text.value)
    ensures !Blank(text) && |Strip(text.value)| > limit ==> |r| == limit
  {
    if Blank(text) then ""
    else
      var stripped := Strip(text.value);
      if |stripped| <= limit then stripped else stripped[|stripped| - limit..]
  }

  /** For every positive limit, including the default 500, the code does what is intended. */
  lemma TailExcerptAgrees(text: Option<string>, limit: nat)
    requires limit > 0
    ensures TailExcerptAsWritten(text, limit) == TailExcerpt(text, limit)
  {
  }

  // ------------------------------------------------------------ chapter rows

  /** What the scan sees of a chapter row. */
  datatype ChapterState = ChapterState(number: int, content: Option<string>, realSummary: Option<string>)

  /**
   * A chapter row. `content` is the selected version's text, `None` when no
   * version is selected; the generator changes the summary, the selection
   * and the status in place.
   */
  class Chapter {
    var number: int
    var content: Option<string>
    var realSummary: Option<string>
    var selectedVersionId: Option<int>
    var status: string

    constructor (number: int, content: Option<string>, realSummary: Option<string>, selectedVersionId: Option<int>, status: string)
      ensures this.number == number && this.content == content && this.realSummary == realSummary
      ensures this.selectedVersionId == selectedVersionId && this.status == status
    {
      this.number := number;
      this.content := content;
      this.realSummary := realSummary;
      this.selectedVersionId := selectedVersionId;
      this.status := status;
    }

    function State(): ChapterState
      reads this
    {
      ChapterState(number, content, realSummary)
    }
  }

  function States(chapters: seq<Chapter>): (s: seq<ChapterState>)
    reads chapters
    ensures |s| == |chapters| && forall i :: 0 <= i < |chapters| ==> s[i] == chapters[i].State()
  {
    seq(|chapters|, i reads chapters requires 0 <= i < |chapters| => chapters[i].State())
  }

  // ------------------------------------------------------------ prior scan

  /** Lines 83-86: an earlier chapter with selected, non-empty content. */
  predicate Contributes(c: ChapterState, target: int) {
    c.number < target && !Blank(c.content)
  }

  /** Line 87: a contributing chapter whose summary is still missing. */
  predicate NeedsSummary(c: ChapterState, target: int) {
    Contributes(c, target) && Blank(c.realSummary)
  }

  /**
   * Lines 87-95: the row after its visit. `summarize` stands for the
   * summariser followed by `remove_think_tags`. Only the summary can change,
   * and a visited row still lacks one only when the summariser returned an
   * empty text for it.
   */
  function Summarized(c: ChapterState, target: int, summarize: string -> string): (d: ChapterState)
    ensures d.number == c.number && d.content == c.content
    ensures !NeedsSummary(c, target) ==> d == c
    ensures NeedsSummary(d, target) ==> NeedsSummary(c, target) && summarize(c.content.value) == ""
  {
    if NeedsSummary(c, target) then c.(realSummary := Some(summarize(c.content.value))) else c
  }

  /**
   * Visiting a visited row changes nothing: a later generation asks the
   * summariser again only about rows whose summary came back empty, and
   * the answer is the same empty text.
   */
  lemma SummarizedIdempotent(c: ChapterState, target: int, summarize: string -> string)
    ensures Summarized(Summarized(c, target, summarize), target, summarize) == Summarized(c, target, summarize)
  {
  }

  /** The previous chapter's number, summary and tail excerpt. */
  datatype Prior = Prior(latestNumber: int, summary: string, tail: string)

  const NoPrior: Prior := Prior(-1, "", "")

  /** Lines 102-106 for a visited contributor `d`. */
  function PriorOf(d: ChapterState): Prior
    requires d.content.Some?
  {
    Prior(d.number, if Blank(d.realSummary) then "" else d.realSummary.value, TailExcerpt(d.content, TailLimit))
  }

  /**
   * Lines 79-106 over the rows in list order: each row is visited, then
   * becomes the latest when it contributes and is numbered above the
   * current latest (-1 at first). The result is the latest row as visited.
   */
  function Latest(cs: seq<ChapterState>, target: int, summarize: string -> string): (r: Option<ChapterState>)
    ensures r.Some? ==> Contributes(r.value, target) && r.value.number >= 0
    decreases |cs|
  {
    if cs == [] then None
    else
      var r := Latest(cs[..|cs| - 1], target, summarize);
      var d := Summarized(cs[|cs| - 1], target, summarize);
      if Contributes(d, target) && d.number > LatestNumber(r) then Some(d) else r
  }

  function LatestNumber(r: Option<ChapterState>): int {
    if r.None? then -1 else r.value.number
  }

  /** The previous chapter's summary and tail from the latest row (lines 103-106, `or ""` at 105). */
  function Scan(cs: seq<ChapterState>, target: int, summarize: string -> string): Prior {
    var r := Latest(cs, target, summarize);
    if r.Some? then PriorOf(r.value) else NoPrior
  }

  /** The indices of the rows the summariser is asked about, in visiting order. */
  function NeedingIndices(cs: seq<ChapterState>, target: int): (ix: seq<nat>)
    decreases |cs|
  {
    if cs == [] then []
    else NeedingIndices(cs[..|cs| - 1], target) + (if NeedsSummary(cs[|cs| - 1], target) then [|cs| - 1] else [])
  }

  /**
   * The summariser is asked once for each contributing row without a
   * summary, in order, and never about any other row.
   */
  lemma {:induction false} NeedingIndicesExact(cs: seq<ChapterState>, target: int)
    ensures forall i :: i in NeedingIndices(cs, target) <==> 0 <= i < |cs| && NeedsSummary(cs[i], target)
    ensures forall a, b :: 0 <= a < b < |NeedingIndices(cs, target)| ==> NeedingIndices(cs, target)[a] < NeedingIndices(cs, target)[b]
    decreases |cs|
  {
    if cs != [] {
      var front := cs[..|cs| - 1];
      NeedingIndicesExact(front, target);
      assert forall i :: 0 <= i < |front| ==> front[i] == cs[i];
      var ix := NeedingIndices(front, target);
      assert NeedingIndices(cs, target) == ix + if NeedsSummary(cs[|cs| - 1], target) then [|cs| - 1] else [];
      forall a | 0 <= a < |ix|
        ensures ix[a] < |front|
      {
        assert ix[a] in ix;
      }
    }
  }

  /** Row `i` contributes, no contributor is numbered above it, and none before it has its number. */
  predicate IsHighest(cs: seq<ChapterState>, i: int, target: int) {
    && 0 <= i < |cs| && Contributes(cs[i], target)
    && (forall j :: 0 <= j < |cs| && Contributes(cs[j], target) ==> cs[j].number <= cs[i].number)
    && (forall j :: 0 <= j < i && Contributes(cs[j], target) ==> cs[j].number < cs[i].number)
  }

  /** A last row numbered above every earlier contributor is the highest. */
  lemma HighestAtEnd(cs: seq<ChapterState>, target: int, bound: int)
    requires cs != [] && Contributes(cs[|cs| - 1], target) && cs[|cs| - 1].number > bound
    requires forall j :: 0 <= j < |cs| - 1 && Contributes(cs[j], target) ==> cs[j].number <= bound
    ensures IsHighest(cs, |cs| - 1, target)
  {
  }

  /** The highest row of the front stays the highest when the last row is not numbered above it. */
  lemma HighestKept(cs: seq<ChapterState>, i: int, target: int)
    requires cs != [] && IsHighest(cs[..|cs| - 1], i, target)
    requires Contributes(cs[|cs| - 1], target) ==> cs[|cs| - 1].number <= cs[i].number
    ensures IsHighest(cs, i, target)
  {
    var front := cs[..|cs| - 1];
    assert forall j :: 0 <= j < |front| ==> front[j] == cs[j];
  }

  /**
   * The scan ends on the highest-numbered contributor, the first one in
   * list order with that number; there is none only when no contributor
   * is numbered 0 or more.
   */
  lemma {:induction false} LatestIsHighest(cs: seq<ChapterState>, target: int, summarize: string -> string)
    ensures var r := Latest(cs, target, summarize);
      r.None? ==> forall i :: 0 <= i < |cs| && Contributes(cs[i], target) ==> cs[i].number < 0
    ensures var r := Latest(cs, target, summarize);
      r.Some? ==> r.value.number >= 0 && exists i :: IsHighest(cs, i, target) && r.value == Summarized(cs[i], target, summarize)
    decreases |cs|
  {
    if cs != [] {
      var front := cs[..|cs| - 1];
      LatestIsHighest(front, target, summarize);
      var r := Latest(front, target, summarize);
      var w := |cs| - 1;
      var d := Summarized(cs[w], target, summarize);
      assert Contributes(d, target) == Contributes(cs[w], target);
      if Contributes(d, target) && d.number > LatestNumber(r) {
        forall j | 0 <= j < w && Contributes(cs[j], target)
          ensures cs[j].number <= LatestNumber(r)
        {
          assert front[j] == cs[j];
          if r.Some? {
            var i :| IsHighest(front, i, target) && r.value == Summarized(front[i], target, summarize);
          }
        }
        HighestAtEnd(cs, target, LatestNumber(r));
      } else if r.Some? {
        var i :| IsHighest(front, i, target) && r.value == Summarized(front[i], target, summarize);
        HighestKept(cs, i, target);
        assert cs[i] == front[i];
      } else {
        forall j | 0 <= j < |cs| && Contributes(cs[j], target)
          ensures cs[j].number < 0
        {
          if j < w {
            assert front[j] == cs[j];
          }
        }
      }
    }
  }

  /**
   * When no two contributors share a number, the previous chapter does not
   * depend on the order in which the rows are listed.
   */
  lemma ScanOrderIndependent(cs1: seq<ChapterState>, cs2: seq<ChapterState>, target: int, summarize: string -> string)
    requires forall c :: c in cs1 <==> c in cs2
    requires forall a, b :: a in cs1 && b in cs1 && Contributes(a, target) && Contributes(b, target) && a.number == b.number ==> a == b
    ensures Latest(cs1, target, summarize) == Latest(cs2, target, summarize)
    ensures Scan(cs1, target, summarize) == Scan(cs2, target, summarize)
  {
    var r1, r2 := Latest(cs1, target, summarize), Latest(cs2, target, summarize);
    LatestIsHighest(cs1, target, summarize);
    LatestIsHighest(cs2, target, summarize);
    if r1.Some? {
      var i :| IsHighest(cs1, i, target) && r1.value == Summarized(cs1[i], target, summarize);
      assert cs1[i] in cs2;
      if r2.Some? {
        var k :| IsHighest(cs2, k, target) && r2.value == Summarized(cs2[k], target, summarize);
        assert cs2[k] in cs1;
      }
    }
  }

  /**
   * Rows numbered at or above the target never affect the scan: changing
   * them leaves the previous chapter and the summarised rows as they were.
   */
  lemma {:induction false} ScanIgnoresLaterRows(cs1: seq<ChapterState>, cs2: seq<ChapterState>, target: int, summarize: string -> string)
    requires |cs1| == |cs2|
    requires forall i :: 0 <= i < |cs1| ==> cs1[i] == cs2[i] || (cs1[i].number >= target && cs2[i].number >= target)
    ensures Latest(cs1, target, summarize) == Latest(cs2, target, summarize)
    ensures Scan(cs1, target, summarize) == Scan(cs2, target, summarize)
    ensures NeedingIndices(cs1, target) == NeedingIndices(cs2, target)
    decreases |cs1|
  {
    if cs1 != [] {
      var n := |cs1| - 1;
      assert forall i :: 0 <= i < n ==> cs1[..n][i] == cs1[i] && cs2[..n][i] == cs2[i];
      ScanIgnoresLaterRows(cs1[..n], cs2[..n], target, summarize);
    }
  }

  /** One more row visited. */
  lemma ScanStep(cs: seq<ChapterState>, i: nat, target: int, summarize: string -> string)
    requires i < |cs|
    ensures var d := Summarized(cs[i], target, summarize);
      var r := Latest(cs[..i], target, summarize);
      Latest(cs[..i + 1], target, summarize) == if Contributes(d, target) && d.number > LatestNumber(r) then Some(d) else r
    ensures NeedingIndices(cs[..i + 1], target) == NeedingIndices(cs[..i], target) + if NeedsSummary(cs[i], target) then [i] else []
  {
    assert cs[..i + 1][..i] == cs[..i];
  }

  /**
   * Lines 80-106 for one row: fills in its missing summary when it
   * contributes, reports whether the summariser was asked, and makes it the
   * previous chapter when it is numbered above the current one.
   */
  method VisitRow(existing: Chapter, prior: Prior, target: int, summarize: string -> string)
    returns (next: Prior, asked: bool)
    modifies existing
    ensures existing.State() == Summarized(old(existing.State()), target, summarize)
    ensures existing.selectedVersionId == old(existing.selectedVersionId) && existing.status == old(existing.status)
    ensures asked == NeedsSummary(old(existing.State()), target)
    ensures next == if Contributes(existing.State(), target) && existing.number > prior.latestNumber
                    then PriorOf(existing.State()) else prior
  {
    next, asked := prior, false;
    if existing.number >= target {
      return;
    }
    if Blank(existing.content) {
      return;
    }
    if Blank(existing.realSummary) {
      existing.realSummary := Some(summarize(existing.content.value));
      asked := true;
    }
    if existing.number > prior.latestNumber {
      next := PriorOf(existing.State());
    }
  }

  /**
   * Lines 79-106: visits the rows in list order, fills in each missing
   * summary of a contributing row in place, and returns the previous
   * chapter together with the rows the summariser was asked about.
   * Distinct list entries are distinct rows.
   */
  method ScanPriorChapters(chapters: seq<Chapter>, target: int, summarize: string -> string)
    returns (prior: Prior, summarized: seq<nat>)
    requires forall i, j :: 0 <= i < j < |chapters| ==> chapters[i] != chapters[j]
    modifies chapters
    ensures |States(chapters)| == |old(States(chapters))|
    ensures forall i :: 0 <= i < |chapters| ==>
      chapters[i].State() == Summarized(old(chapters[i].State()), target, summarize)
    ensures forall i :: 0 <= i < |chapters| ==>
      chapters[i].selectedVersionId == old(chapters[i].selectedVersionId) && chapters[i].status == old(chapters[i].status)
    ensures prior == Scan(old(States(chapters)), target, summarize)
    ensures summarized == NeedingIndices(old(States(chapters)), target)
  {
    ghost var before := States(chapters);
    ghost var latest: Option<ChapterState> := None;
    prior := NoPrior;
    summarized := [];
    for i := 0 to |chapters|
      invariant forall k :: 0 <= k < |chapters| ==>
        chapters[k].State() == (if k < i then Summarized(before[k], target, summarize) else before[k])
      invariant forall k :: 0 <= k < |chapters| ==>
        chapters[k].selectedVersionId == old(chapters[k].selectedVersionId) && chapters[k].status == old(chapters[k].status)
      invariant latest == Latest(before[..i], target, summarize)
      invariant prior == if latest.Some? then PriorOf(latest.value) else NoPrior
      invariant summarized == NeedingIndices(before[..i], target)
    {
      ScanStep(before, i, target, summarize);
      var asked;
      prior, asked := VisitRow(chapters[i], prior, target, summarize);
      if asked {
        summarized := summarized + [i];
      }
      if Contributes(before[i], target) && before[i].number > LatestNumber(latest) {
        latest := Some(chapters[i].State());
      }
    }
    assert before[..|chapters|] == before;
  }
}
