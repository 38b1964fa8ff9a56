/**
 * The chapter generation endpoint (`generate_chapter`,
 * backend/app/api/routers/writer.py:63-427): it resets the target chapter,
 * scans the earlier chapters, assembles the prompt, generates the versions
 * and turns them into the texts and metadata that are stored.
 *
 * Everything the endpoint asks of other services is an oracle in
 * `Services`; the persisted version-count record and the environment
 * variable are inputs.
 */
module GenerateChapter {
  import opened Wrappers
  import opened JsonValues
  import opened Normalizer
  import opened Ladder
  import opened Versions
  import opened Context
  import opened Prompt
  import opened Blueprint
  import opened WriterConfig

  /** The outline row of the requested chapter. */
  datatype Outline = Outline(chapterNumber: int, title: Option<string>, summary: Option<string>)

  /** The request body. */
  datatype GenerateRequest = GenerateRequest(chapterNumber: int, writingNotes: Option<string>)

  /**
   * The services the endpoint calls: the summariser (followed by
   * `remove_think_tags`), `json.dumps(..., indent=2)` of the blueprint,
   * retrieval for a query, the chat backend of each version, the
   * normaliser's helpers, `json.dumps` and `str` of a value, and `int()`.
   */
  datatype Services = Services(
    summarize: string -> string,
    dumpsBlueprint: map<string, Json> -> string,
    retrieve: string -> Retrieved,
    backend: nat -> LlmRequest -> LlmOutcome,
    tools: JsonTools,
    dumps: Json -> string,
    render: Json -> string,
    parse: string -> Option<int>)

  /** What the endpoint hands to `replace_chapter_versions` (line 421). */
  datatype Generation = Generation(contents: seq<string>, metadata: seq<Json>)

  /** Lines 66-68. */
  const OutlineMissingError: HttpError := HttpError(404, "蓝图中未找到对应章节纲要")

  /** Lines 132-135. */
  const WriterPromptMissingError: HttpError := HttpError(500, "缺少写作提示词，请联系管理员配置 'writing' 提示词")

  /** Lines 149-157: the text retrieval is asked with. */
  function RetrievalQuery(outline: Outline, writingNotes: Option<string>): string {
    var title := OutlineTitle(outline.title, outline.chapterNumber);
    var summary := OutlineSummary(outline.summary);
    QueryText(RagQuery(title, summary, writingNotes), outline.title, outline.summary)
  }

  /** Lines 108-130 and 149-195: the user message every version is written from. */
  function ChapterPrompt(outline: Outline, prior: Prior, blueprint: map<string, Json>,
                         writingNotes: Option<string>, services: Services): string
  {
    var title := OutlineTitle(outline.title, outline.chapterNumber);
    var summary := OutlineSummary(outline.summary);
    var retrieved := services.retrieve(RetrievalQuery(outline, writingNotes));
    PromptInput(Sections(services.dumpsBlueprint(Cleaned(blueprint)), prior, retrieved, title, summary, writingNotes))
  }

  /**
   * The retrieval query is the outline's title and summary (or their
   * placeholders) on two lines, then the writing notes when there are any.
   */
  lemma RetrievalQueryShape(outline: Outline, writingNotes: Option<string>)
    ensures var title := OutlineTitle(outline.title, outline.chapterNumber);
      var summary := OutlineSummary(outline.summary);
      RetrievalQuery(outline, writingNotes) ==
        title + "\n" + summary + (if Blank(writingNotes) then "" else "\n" + writingNotes.value)
  {
    RagQueryShape(OutlineTitle(outline.title, outline.chapterNumber), OutlineSummary(outline.summary), writingNotes);
  }

  /**
   * Lines 70-106: the target row is reset to `generating` without summary or
   * selection (so without the content a selection gives), then the rows as loaded are scanned. The target row may be
   * among them; being numbered at the target, the scan leaves it alone.
   */
  method ResetAndScan(chapter: Chapter, chapters: seq<Chapter>, target: int, summarize: string -> string)
    returns (prior: Prior)
    requires chapter.number == target
    requires forall i, j :: 0 <= i < j < |chapters| ==> chapters[i] != chapters[j]
    modifies chapter, chapters
    ensures chapter.number == old(chapter.number) && chapter.content.None?
    ensures chapter.realSummary.None? && chapter.selectedVersionId.None? && chapter.status == "generating"
    ensures forall i :: 0 <= i < |chapters| && chapters[i] != chapter ==>
      && chapters[i].State() == Summarized(old(chapters[i].State()), target, summarize)
      && chapters[i].selectedVersionId == old(chapters[i].selectedVersionId)
      && chapters[i].status == old(chapters[i].status)
    ensures prior == Scan(old(States(chapters)), target, summarize)
  {
    ghost var before := States(chapters);
    chapter.realSummary := None;
    chapter.selectedVersionId := None;
    chapter.content := None;
    chapter.status := "generating";
    ghost var reset := States(chapters);
    ScanIgnoresLaterRows(before, reset, target, summarize);
    ghost var resetState := chapter.State();
    var summarized;
    prior, summarized := ScanPriorChapters(chapters, target, summarize);
    if chapter in chapters {
      var i :| 0 <= i < |chapters| && chapters[i] == chapter;
      assert chapter.State() == Summarized(resetState, target, summarize);
    }
  }

  /**
   * Lines 108-130 and 149-195: the prompt input, built from the previous
   * chapter and the cleaned blueprint. The code cleans the blueprint before
   * it checks the writing prompt; the cleaning has no effect of its own, so
   * it is done here, after the check.
   */
  method BuildPrompt(outline: Outline, prior: Prior, blueprint: map<string, Json>, writingNotes: Option<string>,
                     services: Services)
    returns (promptInput: string)
    ensures promptInput == ChapterPrompt(outline, prior, blueprint, writingNotes, services)
  {
    var cleaned := CleanBlueprint(blueprint);
    var outlineTitle := OutlineTitle(outline.title, outline.chapterNumber);
    var outlineSummary := OutlineSummary(outline.summary);
    var ragQuery := RagQuery(outlineTitle, outlineSummary, writingNotes);
    var retrieved := services.retrieve(QueryText(ragQuery, outline.title, outline.summary));
    var blueprintText := services.dumpsBlueprint(cleaned);
    promptInput := PromptInput(Sections(blueprintText, prior, retrieved, outlineTitle, outlineSummary, writingNotes));
  }

  /**
   * Lines 63-427. `chapter` is the row `get_or_create_chapter` returned,
   * `chapters` the project's rows as loaded before it (the same row may be
   * among them). The endpoint
   *  - fails with a 404 when the outline is missing, changing nothing;
   *  - otherwise clears the chapter's summary and selection and marks it
   *    `generating`, and fills in the missing summaries of earlier rows;
   *  - fails with a 500 when the `writing` prompt is missing, leaving the
   *    chapter `generating`;
   *  - otherwise generates the configured number of versions from the
   *    prompt built from the rows as they were: when none succeeds the
   *    chapter becomes `failed` and the error names the count (the count is
   *    never below 1, so the generic message at line 389 is never used);
   *    otherwise the texts and metadata of the successful versions are
   *    returned, in order.
   */
  method GenerateChapterVersions(request: GenerateRequest, outline: Option<Outline>, chapter: Chapter, chapters: seq<Chapter>,
                                 blueprint: map<string, Json>, writerPrompt: Option<string>,
                                 record: Option<Option<string>>, env: Option<string>, services: Services)
    returns (r: Result<Generation, HttpError>)
    requires chapter.number == request.chapterNumber
    requires outline.Some? ==> outline.value.chapterNumber == request.chapterNumber
    requires forall i, j :: 0 <= i < j < |chapters| ==> chapters[i] != chapters[j]
    modifies chapter, chapters
    ensures outline.None? ==> r == Err(OutlineMissingError)
    ensures outline.None? ==> unchanged(chapter) && forall i :: 0 <= i < |chapters| ==> unchanged(chapters[i])
    ensures outline.Some? ==>
      && chapter.number == old(chapter.number) && chapter.content.None?
      && chapter.realSummary.None? && chapter.selectedVersionId.None?
    ensures outline.Some? ==> forall i :: 0 <= i < |chapters| && chapters[i] != chapter ==>
      && chapters[i].State() == Summarized(old(chapters[i].State()), request.chapterNumber, services.summarize)
      && chapters[i].selectedVersionId == old(chapters[i].selectedVersionId)
      && chapters[i].status == old(chapters[i].status)
    ensures outline.Some? && Blank(writerPrompt) ==> r == Err(WriterPromptMissingError) && chapter.status == "generating"
    ensures outline.Some? && !Blank(writerPrompt) ==>
      var prior := Scan(old(States(chapters)), request.chapterNumber, services.summarize);
      var job := Job(writerPrompt.value, ChapterPrompt(outline.value, prior, blueprint, request.writingNotes, services),
                     services.backend, services.tools);
      var count := ResolveVersionCount(record, env, services.parse);
      var successes := Successes(job, count);
      && (successes == [] ==> r == Err(AllFailedError(count)) && chapter.status == "failed")
      && (successes != [] ==>
            && r.Ok? && chapter.status == "generating"
            && Extracted(successes, r.value.contents, r.value.metadata, services.dumps, services.render))
  {
    if outline.None? {
      return Err(OutlineMissingError);
    }
    var prior := ResetAndScan(chapter, chapters, request.chapterNumber, services.summarize);
    if Blank(writerPrompt) {
      return Err(WriterPromptMissingError);
    }
    var promptInput := BuildPrompt(outline.value, prior, blueprint, request.writingNotes, services);
    var versionCount := ResolveVersionCount(record, env, services.parse);
    var rawVersions, err := GenerateVersions(versionCount, Job(writerPrompt.value, promptInput, services.backend, services.tools));
    if err.Some? {
      chapter.status := "failed";
      return Err(err.value);
    }
    var contents, metadata := ExtractVersions(rawVersions, services.dumps, services.render);
    return Ok(Generation(contents, metadata));
  }
}
