# Chapter writer of Arboris Novel, in Dafny

Arboris Novel is an AI-assisted novel writing service. This project models the
core of its writer router and the writer configuration endpoints:

- **Chapter generation** (`generate_chapter`).
  - The target chapter is reset.
  - The earlier chapters are scanned. Missing summaries are filled in, and the
    previous chapter's summary and last 500 characters are picked.
  - The blueprint is cleaned and the six-section prompt is assembled.
  - Several versions are generated. Each version runs the token-limit retry
    ladder (4500, 3500, 2500, then 1500 words), then the response normaliser:
    strict parse, plain text, quote and brace balancing, the two `content`
    regular expressions, and the raw fallback.
  - Finally the stored text and metadata are extracted from every successful
    version.
- **Version count**: how many versions are generated (`_resolve_version_count`)
  and the endpoints that read, set and delete it (`writer_config.py`).
- **Version selection**: the vector store re-indexing done by
  `select_chapter_version` when a version is chosen. That means the chunk
  records, the success and failure counters, the writes, and the failure.

The model is written in the code's own form:

- Chapter rows are a class whose summary, selection and status the generator
  updates in place, and so is the configuration table.
- The loops of the source are methods with loop invariants. Each is proved
  against a specification function; properties of those functions are lemmas.
- Everything the router asks of other services is a function parameter:
  - the chat model, the summariser and the embedding service;
  - retrieval, `json.loads`/`json.dumps`, the three `json_utils` helpers;
  - Python's `int()` and `str()` of a value.

Modules, one file each:

| module | models |
|---|---|
| `Wrappers`, `JsonValues`, `Text` | option/result types, Python values, the `str` methods used (`strip`, `rstrip`, `count`, `replace`, `join`, `str(int)`) |
| `Context` | `_extract_tail_excerpt`, chapter rows, the earlier-chapter scan |
| `Blueprint` | relationship renaming and banned-key removal |
| `Prompt` | the retrieval query and the prompt sections |
| `Normalizer` | the response normaliser |
| `Ladder` | `_generate_single_version`, the retry ladder |
| `Versions` | version aggregation and content extraction |
| `GenerateChapter` | the endpoint as a whole |
| `WriterConfig` | `_resolve_version_count` and the configuration endpoints |
| `Reindex` | the chunk/embedding accounting of `select_chapter_version` |

The model follows the code in these places:

- The balancing step counts every `"` in the text, escaped or not.
- The truncated-field capture may be empty, which gives an empty chapter text.
- The retrieved-context sections vanish from the prompt when retrieval reports
  chunks (or summaries) whose texts join to nothing.
- The "completed chapters" list is built but never sent: its section is
  commented out (writer.py line 185).

## Model

| member | source | states |
|---|---|---|
| Text.Strip | backend/app/api/routers/writer.py:46 | the result is a contiguous slice of the text with no whitespace at either end, and everything cut off before and after it is whitespace (Python's `str.isspace` set) |
| Text.RStrip | backend/app/api/routers/writer.py:262 | the result is a prefix of the text, only whitespace was cut off, and it does not end in whitespace |
| Text.RStripChars | backend/app/api/routers/writer.py:298 | the result is a prefix of the text, only characters from the given set were cut off, and its last character is not in the set |
| Text.IntToString | backend/app/api/routers/writer_config.py:75 | `str(n)` starts with a minus sign exactly when the number is negative, every other character is a decimal digit (at least one, with no leading zero), and the numeral denotes `n` again (`DecimalValue`) |
| Text.IntToStringInjective | backend/app/api/routers/writer_config.py:75 | different integers have different decimal texts, so the stored value names one count |
| Text.NatToStringInjective | backend/app/api/routers/writer.py:524 | different numbers have different decimal texts |
| Context.TailExcerpt | backend/app/api/routers/writer.py:42-49 | the intended excerpt: empty for a blank chapter, otherwise a suffix of the stripped text that is at most `limit` long, the whole text when it fits and exactly `limit` characters when it does not |
| Context.TailExcerptAgrees | backend/app/api/routers/writer.py:42-49 | for every positive limit, including the default 500, the code gives the intended excerpt |
| Context.TailExcerptZeroLimitKeepsAll | backend/app/api/routers/writer.py:49 | with limit 0 the code returns the whole stripped chapter rather than nothing (`[-0:]` is the whole string) |
| Context.Summarized | backend/app/api/routers/writer.py:83-95 | a visit changes only the summary, only of a contributing row without one; the row still lacks a summary afterwards only when the summariser returned an empty text |
| Context.SummarizedIdempotent | backend/app/api/routers/writer.py:87-95 | visiting a visited row changes nothing, so a later generation re-asks only about rows whose summary came back empty |
| Context.Latest | backend/app/api/routers/writer.py:79-106 | the previous chapter, when there is one, was selected with non-empty content, is numbered below the target and is numbered at least 0 |
| Context.NeedingIndicesExact | backend/app/api/routers/writer.py:82-95 | the summariser is asked about exactly the contributing rows that have no summary, each once, in list order |
| Context.LatestIsHighest | backend/app/api/routers/writer.py:103-106 | the scan ends on the highest-numbered contributing row, the first in list order with that number; there is none only when no contributing row is numbered 0 or more |
| Context.ScanOrderIndependent | backend/app/api/routers/writer.py:82-106 | when no two contributing rows share a number, the list order changes neither the previous chapter nor the prompt context taken from it |
| Context.ScanIgnoresLaterRows | backend/app/api/routers/writer.py:83-84 | rows numbered at or above the target never affect the scan; in particular resetting the target row does not |
| Context.VisitRow | backend/app/api/routers/writer.py:82-106 | one loop step: the row becomes `Summarized`, its selection and status are untouched, it reports whether the summariser was asked, and the row becomes the previous chapter exactly when it contributes and is numbered above the current one |
| Context.ScanPriorChapters | backend/app/api/routers/writer.py:79-106 | every row ends as `Summarized` of what it was, selections and statuses unchanged; the summary and tail returned are `Scan` of the rows as they were, and the rows summarised are `NeedingIndices` |
| Blueprint.RenameRelation | backend/app/api/routers/writer.py:113-116 | `character_from`/`character_to` are gone and their values are under `from`/`to`; a `from` or `to` without its `character_*` partner and every other key keep their values; no key is invented |
| Blueprint.RenameRelationIdempotent | backend/app/api/routers/writer.py:113-116 | renaming a renamed relationship changes nothing |
| Blueprint.Cleaned | backend/app/api/routers/writer.py:111-130 | exactly the banned keys are removed, every other top-level value is kept, and a list of relationships keeps its length and has each entry renamed |
| Blueprint.CleanedIdempotent | backend/app/api/routers/writer.py:111-130 | cleaning a cleaned blueprint changes nothing |
| Blueprint.CleanBlueprint | backend/app/api/routers/writer.py:111-130 | the in-place renaming loop and the key-popping loop compute `Cleaned` |
| Prompt.OutlineTitle | backend/app/api/routers/writer.py:149 | the title is never empty: the outline's title, or `第{n}章` when it has none |
| Prompt.OutlineSummary | backend/app/api/routers/writer.py:150 | the summary is never empty: the outline's summary, or its placeholder |
| Prompt.NonEmptyAppend | backend/app/api/routers/writer.py:154 | the kept parts are in input order: one more part is kept at the end exactly when it is not empty |
| Prompt.RagQueryShape | backend/app/api/routers/writer.py:151-157 | the query is title and summary on two lines, then the writing notes when there are any; it is never empty, so the fallback at line 157 is never used |
| Prompt.PresentExact | backend/app/api/routers/writer.py:195 | a section is kept exactly when it is one of the input's and has content |
| Prompt.PresentAppend | backend/app/api/routers/writer.py:195 | the kept sections are in input order: one more section is kept at the end exactly when it has content |
| Prompt.PromptInputAppend | backend/app/api/routers/writer.py:195 | a section with content adds one `title\ncontent` block after a blank line; an empty one adds nothing |
| Prompt.JoinEmpty | backend/app/api/routers/writer.py:179-180 | a join with a non-empty separator is empty exactly when there is nothing to join or a single empty part |
| Prompt.SectionsPresent | backend/app/api/routers/writer.py:176-195 | the blueprint, previous-summary, previous-tail and goal sections are always in the prompt; a retrieval section is missing exactly when retrieval reports results whose texts join to nothing; with all six present the prompt is the six blocks in their fixed order |
| Prompt.PlaceholdersWhenNothingKnown | backend/app/api/routers/writer.py:176-181 | with no previous chapter, nothing retrieved and no notes, every placeholder text stands in for its section |
| Normalizer.RepairBalances | backend/app/api/routers/writer.py:265-269 | balancing keeps the text as a prefix, then appends one `"` exactly when the quote count was odd, then only `}` characters, exactly as many as opening braces are unmatched; the result has an even number of quotes and its closing braces match its opening ones |
| Normalizer.ScanEnd | backend/app/api/routers/writer.py:280 | the greedy run of the capture group is in the escape-aware string grammar and stops at an unescaped quote, at a backslash that ends the text, or at the end |
| Normalizer.ScanEndReaches | backend/app/api/routers/writer.py:280 | any way the group can stop right before a quote is the way the greedy run stops, so the closed match is unique |
| Normalizer.ClosedAt | backend/app/api/routers/writer.py:280 | a closed match at a position: the key, `\s*:\s*"`, a body in the string grammar and a closing quote |
| Normalizer.ClosedAtComplete | backend/app/api/routers/writer.py:280 | every closed match of the pattern at a position is the one `ClosedAt` finds |
| Normalizer.ClosedSearch | backend/app/api/routers/writer.py:280 | `re.search` finds the leftmost position where the closed pattern matches, and none before it |
| Normalizer.TruncatedAt | backend/app/api/routers/writer.py:294 | a truncated match captures everything after the key's opening quote |
| Normalizer.TruncatedSearch | backend/app/api/routers/writer.py:294 | `re.search` finds the leftmost position where the truncated pattern matches, and none before it |
| Normalizer.ClosedImpliesTruncated | backend/app/api/routers/writer.py:280-295 | whenever the closed pattern matches, so does the truncated one |
| Normalizer.Normalize | backend/app/api/routers/writer.py:231-308 | each outcome happens exactly when every earlier step failed: strict parse, then plain text when the text does not start with `{`, then the balanced parse, then the closed field, then the truncated field, then raw text; the value of each is the parsed or unescaped text of that step |
| Normalizer.UnescapeInvertsEscape | backend/app/api/routers/writer.py:287 | on text without a backslash, the four replacements undo the JSON escaping of backslash, quote, newline and tab; the other JSON escapes (`\r`, `\b`, `\f`, `\uXXXX`) are left in place |
| Normalizer.UnescapeIsNotJsonUnescape | backend/app/api/routers/writer.py:287 | an escaped backslash before `n` is turned into a backslash and a newline, so the replacements are not a JSON unescape in general |
| Ladder.FirstDecisive | backend/app/api/routers/writer.py:310-321 | the ladder moves on exactly while a request hits the 413 `TOKEN_LIMIT_EXCEEDED` error, and stops at the first outcome that is not one |
| Ladder.AttemptsMade | backend/app/api/routers/writer.py:201-336 | a version makes between one and four requests |
| Ladder.AttemptLog | backend/app/api/routers/writer.py:199-227 | request k targets the k-th word count and carries the writing prompt; the first sends the prompt input alone, each later one appends the retry instruction naming its target |
| Ladder.ExhaustedWhenAllTokenLimit | backend/app/api/routers/writer.py:322-333 | when all four requests hit the token limit, the version fails with the 500 naming 1500 words, after four requests |
| Ladder.GeneratedIffReplyAfterTokenLimits | backend/app/api/routers/writer.py:201-321 | a version is produced exactly when some request got a reply and every earlier one hit the token limit; it is that reply, normalised |
| Ladder.LastAttemptDecides | backend/app/api/routers/writer.py:228-336 | every request but the last hit the token limit; the last one decides: a reply is normalised, another exception or HTTP error is passed on, and a token limit is only possible on the fourth rung, where it becomes the definitive 500 |
| Ladder.GenerateSingleVersion | backend/app/api/routers/writer.py:197-342 | the requests made are the ladder's, in order, up to the decisive one, and the result is `VersionOutcome` of the backend's answers; the fall-through at lines 338-342 is unreachable |
| Versions.KeptExact | backend/app/api/routers/writer.py:352-357 | what is kept is the present values in index order: the k-th kept value is the value at the k-th present index, those indices increase, and an index is among them exactly when its value is present |
| Versions.KeptEmpty | backend/app/api/routers/writer.py:352-357 | nothing is kept exactly when no value is present |
| Versions.SuccessesAreGenerated | backend/app/api/routers/writer.py:352-365 | the raw versions are, in index order and each once, the values of the versions that succeeded: the k-th is the value of the k-th succeeding index; they are empty exactly when every version failed |
| Versions.SuccessesStep | backend/app/api/routers/writer.py:354-357 | each version considered appends its value when it succeeded and nothing when it raised |
| Versions.GenerateVersion | backend/app/api/routers/writer.py:355-358 | one loop step gets the version's value, or nothing when the version raised |
| Versions.GenerateVersions | backend/app/api/routers/writer.py:352-390 | without an error the raw versions are the successes in index order and are not empty; the error happens exactly when no version succeeded, naming the count when there was at least one version and the generic message otherwise |
| Versions.ExtractContent | backend/app/api/routers/writer.py:402-418 | the stored text of an object is, by priority, its `full_content` string, else its `content` string, else `str` of its `chapter_content`, else the object dumped as JSON; any other value is stored as `str` of it, a string as itself |
| Versions.MetadataOf | backend/app/api/routers/writer.py:416-419 | the metadata is always an object: the version itself when it is one, else the version as the only value under `raw` |
| Versions.ExtractRecoversText | backend/app/api/routers/writer.py:401-419 | whatever the normaliser recovered as text is stored unchanged, and a parsed reply with a `full_content` string is stored as that string |
| Versions.ExtractVersions | backend/app/api/routers/writer.py:400-419 | one text and one metadata entry per raw version, in order |
| GenerateChapter.RetrievalQueryShape | backend/app/api/routers/writer.py:149-157 | retrieval is asked with the outline's title and summary (or their placeholders) on two lines, plus the writing notes |
| GenerateChapter.ResetAndScan | backend/app/api/routers/writer.py:70-106 | the target row ends `generating` with no summary, no selection and so no selected content, its number kept; every other row gets its missing summary and nothing else; the previous chapter is `Scan` of the rows as they were before the reset |
| GenerateChapter.BuildPrompt | backend/app/api/routers/writer.py:149-195 | the prompt input the code assembles is `ChapterPrompt` of the outline, the previous chapter, the blueprint and the notes |
| GenerateChapter.GenerateChapterVersions | backend/app/api/routers/writer.py:63-427 | a missing outline is a 404 and changes nothing. Otherwise the chapter's summary, selection and selected content are cleared, and earlier rows get their missing summaries with nothing else changed. A missing writing prompt is a 500 with the chapter left `generating`. Otherwise the versions are generated from the prompt built from the rows as they were: if none succeeds, the error names the resolved count and the chapter is `failed`; else the chapter stays `generating` and the stored texts and metadata are those of the successes, in order |
| WriterConfig.ResolveVersionCount | backend/app/api/routers/writer.py:431-453 | the count is always at least 1: a positive persisted value wins, then a positive environment value, then 3 |
| WriterConfig.UnusableRecordIgnored | backend/app/api/routers/writer.py:434-441 | a persisted value that is NULL, not a number or not positive counts as no record at all |
| WriterConfig.UpdateThenResolve | backend/app/api/routers/writer_config.py:63-89 | a count set through the update endpoint is the count the generator then uses, given that `int()` reads the stored numeral as the number it denotes (which `IntToString` guarantees is the count) |
| WriterConfig.DeleteThenResolve | backend/app/api/routers/writer_config.py:92-106 | after deletion the count comes from the environment, or is 3 |
| WriterConfig.ConfigStore.Read | backend/app/api/routers/writer_config.py:29-60 | the read endpoint reports the same count the generator uses, never below 1 |
| WriterConfig.ConfigStore.Update | backend/app/api/routers/writer_config.py:63-89 | a count in 1..10 is stored as its decimal text, creating the record if needed, changes no other entry, and is returned; any other count is a 422 that changes nothing (the bounds are at line 26) |
| WriterConfig.ConfigStore.Delete | backend/app/api/routers/writer_config.py:92-106 | the record is removed if it exists; otherwise nothing changes |
| Reindex.RecordsSound | backend/app/api/routers/writer.py:517-537 | every record belongs to a chunk that was embedded, and is that chunk's record |
| Reindex.RecordsComplete | backend/app/api/routers/writer.py:517-537 | every chunk that was embedded gets its record |
| Reindex.RecordsOrdered | backend/app/api/routers/writer.py:517-537 | the records follow chunk order |
| Reindex.RecordIdsDistinct | backend/app/api/routers/writer.py:524 | different chunks of a chapter get different record ids |
| Reindex.RecordsHaveDistinctIds | backend/app/api/routers/writer.py:517-537 | no two records written for a chapter share an id |
| Reindex.EmbedChunks | backend/app/api/routers/writer.py:512-540 | every chunk counts once, as a success or a failure, the successes are the records, and the records are `Records` of the chunks |
| Reindex.SyncChapterVectors | backend/app/api/routers/writer.py:503-567 | the counters add up to the number of chunks; the old records are deleted and the new ones written exactly when something was embedded; the error is `SyncError`, the 500 exactly when there were chunks and none was embedded |
| Reindex.SyncWritesOrFails | backend/app/api/routers/writer.py:543-567 | the store is written exactly when some chunk was embedded, and the sync fails exactly when there were chunks and none was embedded, so the two never go together |
| Reindex.UpsertStores | backend/app/api/routers/writer.py:545 | after an upsert every record is stored under its id, and every entry no record replaces is unchanged |
| Reindex.SyncReplacesChapter | backend/app/api/routers/writer.py:543-545 | after the writes, the chapter's records in the store are exactly the new ones, and other chapters' records are untouched |
| Reindex.NothingEmbeddedLosesDesignedError | backend/app/api/routers/writer.py:554-579 | for every chapter with chunks none of which can be embedded, the sync raises the designed 500, which reaches the client as intended and becomes the `NameError` as written |
| Reindex.EveryErrorLost | backend/app/api/routers/writer.py:579 | whatever error the block raises, the code as written reports the `NameError` instead of it |

## Left out

- Services outside this router are function parameters, not models:
  - the chat model, the summariser and the embedding service;
  - retrieval (`retrieve_for_generation`, `chunk_texts`, `summary_lines`);
  - `json.loads`, `json.dumps`, and the `json_utils` helpers `remove_think_tags`, `unwrap_markdown_json` and `sanitize_json_like_text`;
  - `int()`, `str()` of a value, `_split_into_chunks` and `get_prompt`.
- Each backend is a function of the version index and the request, so the model assumes the same request to the same version always gets the same answer. Timeouts, temperatures and token limits are not modelled.
- Database sessions, commits, FastAPI routing, authentication, ownership checks and logging are left out. The commit after the reset (line 74) and the per-row summary commits are not distinguished from the final state.
- An exception raised by the summariser during the scan is not modelled. The scan always completes.
- The `selected_version` relationship is modelled as the content it gives (`None` when no version is selected).
- Key order in the blueprint dictionary is not modelled, because the blueprint is a map. The dumped text is the `dumpsBlueprint` oracle.
- Relationship lists are entries of JSON values. An entry that is not an object is modelled as left unchanged, and the code agrees only when it is a string or a list that does not contain `character_from` or `character_to`. For any other such entry the code raises, and the raise is not modelled. A number or null makes the `in` test raise `TypeError`. A string or list that does contain either name makes `pop` with a key raise.
- Blueprint.Cleaned: a `relationships` value that is truthy but not a list is modelled as left unchanged. The code iterates it at lines 111-112 and does not leave it alone. A non-zero number or `true` makes the `for` raise `TypeError`. A string iterates its characters, and an object iterates its keys. A key that contains `character_from` or `character_to` makes `pop` raise. These raises are not modelled.
- `completed_chapters` and its section are left out. The section is commented out at line 185, so it never reaches the prompt.
- Whether the vector store is enabled, and a failed `VectorStoreService()` initialisation, are left out. The model of `select_chapter_version` starts once a store exists.
- Reindex.SyncChapterVectors: the embedding service always answers, with an embedding or with nothing, and `_split_into_chunks` always returns. In the code an exception from either (lines 512-520) leaves the loop early, before the delete and upsert at lines 543-545, even after earlier chunks were embedded, and then meets the `NameError` at line 579. The model does not capture that path; SyncWritesOrFails holds only for services that do not raise.
- Reindex.SyncReplacesChapter: both vector store writes, `delete_by_chapters` and `upsert_chunks` (lines 544-545), are assumed to succeed and to behave as `DeleteChapters` and `Upsert` define. In the code, `upsert_chunks` can raise after the delete has succeeded. The chapter then keeps no records at all, and the error meets the `NameError` at line 579. The model does not capture that path. "The chapter's records are exactly the new ones" holds only when both writes succeed.
- Only the embedding accounting of `select_chapter_version` is modelled. Its version lookup, its selection update and the dispatch of the `except` clauses at lines 579-625 are left out. That dispatch includes the 429, the 402 text test and the mirrored 500; only the finding below is modelled.
- `replace_chapter_versions` and `_load_project_schema` are not part of this model. The endpoint's result is the texts and metadata handed to `replace_chapter_versions`.
- The other endpoints of the router, the maintenance scripts and the frontend are left out.
- WriterConfig.ConfigStore.Update: models the pydantic rejection as the status 422 alone, without its detail body. The `description` column of a created record is not modelled.
- Python strings are sequences of characters with no Unicode normalisation. `str.isspace` is modelled as a fixed set of characters that includes the common Unicode spaces.

## Findings

| source | as written | input that shows it | evidently intended | confidence | as-written member | corrected member |
|---|---|---|---|---|---|---|
| backend/app/api/routers/writer.py:42-49 | `stripped[-limit:]` with `limit == 0` keeps the whole text, since `-0` is `0` | `limit = 0` and any chapter with a non-whitespace character | the last `limit` characters, so nothing for a zero limit | low: only the default 500 is ever passed; not executed | Context.TailExcerptAsWritten, Context.TailExcerptZeroLimitKeepsAll | Context.TailExcerpt |
| backend/app/api/routers/writer.py:554-579 | the 500 raised when no chunk was embedded is matched against `openai.RateLimitError`, and `openai` is never imported (lines 1-32), so the client gets a `NameError`, as it does for every other exception raised in the block | one chunk for which the embedding service returns nothing | the 500 "章节向量同步失败…" reaches the client | high: the name is not imported anywhere in the module; not executed | Reindex.SyncFailureAsWritten, Reindex.EveryErrorLost | Reindex.SyncFailureIntended, Reindex.NothingEmbeddedLosesDesignedError |
