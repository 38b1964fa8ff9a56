/**
 * Generating all versions of a chapter and turning each into stored text
 * (backend/app/api/routers/writer.py:352-419).
 *
 * `backend(idx)` is the backend as seen by version `idx`; a version that fails
 * in any way (an `HTTPException` or any other exception) is skipped, and the
 * request fails only when no version succeeds.
 */
module Versions {
  import opened Wrappers
  import opened Text
  import opened JsonValues
  import opened Normalizer
  import opened Ladder

  /** What every version is generated from: the two prompts, the backend of each version, the helpers. */
  datatype Job = Job(writerPrompt: string, promptInput: string, backend: nat -> LlmRequest -> LlmOutcome, tools: JsonTools)

  /** The value `_generate_single_version(idx)` returns, if it returns. */
  function VersionValue(job: Job, idx: nat): Option<Json> {
    ValueOf(VersionOutcome(Outcomes(job.backend(idx), job.writerPrompt, job.promptInput), job.tools))
  }

  function ValueOf(result: VersionResult): Option<Json> {
    match result
    case Generated(recovery) => Some(recovery.Value())
    case Failed(_) => None
  }

  /** Every version's value, by index. */
  function Values(job: Job): nat -> Option<Json> {
    (idx: nat) => VersionValue(job, idx)
  }

  /** The values present among the first `n`, in index order. */
  function Kept(values: nat -> Option<Json>, n: nat): (vs: seq<Json>)
    ensures |vs| <= n
    decreases n
  {
    if n == 0 then []
    else
      var earlier := Kept(values, n - 1);
      match values(n - 1)
      case Some(v) => earlier + [v]
      case None => earlier
  }

  /** The versions that succeed among the first `n`, in index order. */
  function Successes(job: Job, n: nat): seq<Json> {
    Kept(Values(job), n)
  }

  /** Line 380: every one of `count` versions failed. */
  function AllFailedError(count: int): HttpError {
    HttpError(500, "生成章节失败：所有 " + IntToString(count) + " 个版本都生成失败，请重试")
  }

  /** Line 389: no version was attempted at all. */
  const NoVersionError: HttpError := HttpError(500, "生成章节失败：未能成功生成任何版本")

  /** The indices among the first `n` whose value is present, in increasing order. */
  function PresentIndices(values: nat -> Option<Json>, n: nat): (ix: seq<nat>)
    decreases n
  {
    if n == 0 then [] else PresentIndices(values, n - 1) + (if values(n - 1).Some? then [n - 1] else [])
  }

  /**
   * What is kept is exactly the present values in index order: the k-th
   * kept value is the value at the k-th present index, the present indices
   * increase, and an index is among them exactly when its value is present.
   */
  lemma {:induction false} KeptExact(values: nat -> Option<Json>, n: nat)
    ensures |Kept(values, n)| == |PresentIndices(values, n)|
    ensures forall k :: 0 <= k < |PresentIndices(values, n)| ==>
      PresentIndices(values, n)[k] < n && values(PresentIndices(values, n)[k]) == Some(Kept(values, n)[k])
    ensures forall a, b :: 0 <= a < b < |PresentIndices(values, n)| ==> PresentIndices(values, n)[a] < PresentIndices(values, n)[b]
    ensures forall idx: nat :: idx in PresentIndices(values, n) <==> idx < n && values(idx).Some?
    decreases n
  {
    if n > 0 {
      KeptExact(values, n - 1);
      var ix := PresentIndices(values, n - 1);
      var vs := Kept(values, n - 1);
      var last := values(n - 1);
      assert PresentIndices(values, n) == ix + (if last.Some? then [n - 1] else []);
      assert Kept(values, n) == vs + (if last.Some? then [last.value] else []);
      forall a | 0 <= a < |ix|
        ensures ix[a] < n - 1
      {
      }
    }
  }

  /** Nothing is kept exactly when no value is present. */
  lemma KeptEmpty(values: nat -> Option<Json>, n: nat)
    ensures Kept(values, n) == [] <==> forall idx: nat :: idx < n ==> values(idx).None?
  {
    KeptExact(values, n);
    var ix := PresentIndices(values, n);
    if Kept(values, n) == [] {
      assert ix == [];
      forall idx: nat | idx < n
        ensures values(idx).None?
      {
        assert idx !in ix;
      }
    } else {
      assert ix[0] in ix;
      assert ix[0] < n && values(ix[0]).Some?;
    }
  }

  /** The indices of the versions that succeed among the first `n`. */
  function SucceededIndices(job: Job, n: nat): seq<nat> {
    PresentIndices(Values(job), n)
  }

  /** One more version considered. */
  lemma SuccessesStep(job: Job, n: nat)
    ensures Successes(job, n + 1) == Successes(job, n) + match VersionValue(job, n) case Some(v) => [v] case None => []
  {
    assert Values(job)(n) == VersionValue(job, n);
  }

  /**
   * The successes are, in index order, exactly the values of the versions
   * that were generated, each once; there are none exactly when every
   * version failed.
   */
  lemma SuccessesAreGenerated(job: Job, n: nat)
    ensures |Successes(job, n)| == |SucceededIndices(job, n)|
    ensures forall k :: 0 <= k < |SucceededIndices(job, n)| ==>
      SucceededIndices(job, n)[k] < n && VersionValue(job, SucceededIndices(job, n)[k]) == Some(Successes(job, n)[k])
    ensures forall a, b :: 0 <= a < b < |SucceededIndices(job, n)| ==> SucceededIndices(job, n)[a] < SucceededIndices(job, n)[b]
    ensures forall idx: nat :: idx in SucceededIndices(job, n) <==> idx < n && VersionValue(job, idx).Some?
    ensures Successes(job, n) == [] <==> forall idx: nat :: idx < n ==> VersionValue(job, idx).None?
  {
    KeptExact(Values(job), n);
    KeptEmpty(Values(job), n);
    assert forall idx: nat :: Values(job)(idx) == VersionValue(job, idx);
  }

  /**
   * Lines 344-372 for one index: the closure `_generate_single_version(idx)`
   * as the loop sees it, the recovered value or nothing when the version
   * raised.
   */
  method GenerateVersion(job: Job, idx: nat) returns (value: Option<Json>)
    ensures value == VersionValue(job, idx)
  {
    var result, attempts := GenerateSingleVersion(job.writerPrompt, job.promptInput, job.backend(idx), job.tools);
    value := ValueOf(result);
  }

  /**
   * Lines 352-390: versions `0 .. versionCount - 1` are generated in turn and
   * the successful ones kept in order. The request fails exactly when none
   * succeeded: with the count in the message when there was at least one
   * version (raised while handling the last one), with the generic message
   * otherwise.
   */
  method GenerateVersions(versionCount: int, job: Job)
    returns (rawVersions: seq<Json>, err: Option<HttpError>)
    ensures var n := if versionCount > 0 then versionCount else 0;
      && (err.None? ==> rawVersions == Successes(job, n) && rawVersions != [])
      && (err.Some? <==> Successes(job, n) == [])
      && (err.Some? && versionCount >= 1 ==> err.value == AllFailedError(versionCount))
      && (err.Some? && versionCount < 1 ==> err.value == NoVersionError)
  {
    rawVersions := [];
    var idx := 0;
    while idx < versionCount
      invariant 0 <= idx <= (if versionCount > 0 then versionCount else 0)
      invariant rawVersions == Successes(job, idx)
      invariant idx >= 1 && idx == versionCount ==> rawVersions != []
      decreases versionCount - idx
    {
      var value := GenerateVersion(job, idx);
      SuccessesStep(job, idx);
      if value.Some? {
        rawVersions := rawVersions + [value.value];
      } else if idx == versionCount - 1 && rawVersions == [] {
        err := Some(AllFailedError(versionCount));
        return;
      }
      idx := idx + 1;
    }
    assert idx == if versionCount > 0 then versionCount else 0;
    if rawVersions == [] {
      err := Some(NoVersionError);
      return;
    }
    err := None;
  }

  // ------------------------------------------------------------ extraction

  /**
   * `str(value)` in Python: a string is its own text; any other value is
   * rendered by `render`, which is not modelled.
   */
  function PyStr(v: Json, render: Json -> string): string {
    if v.Str? then v.s else render(v)
  }

  /**
   * Lines 401-416: the text stored for one version. For an object: its
   * `full_content` string, else its `content` string, else `str` of its
   * `chapter_content`, else the whole object dumped as JSON (`dumps`
   * stands for `json.dumps(..., ensure_ascii=False)`). Anything else is
   * stored as `str(variant)`.
   */
  function ExtractContent(variant: Json, dumps: Json -> string, render: Json -> string): (text: string)
    ensures variant.Object? && "full_content" in variant.fields && variant.fields["full_content"].Str? ==>
      text == variant.fields["full_content"].s
    ensures (variant.Object? && !("full_content" in variant.fields && variant.fields["full_content"].Str?)
             && "content" in variant.fields && variant.fields["content"].Str?) ==>
      text == variant.fields["content"].s
    ensures (variant.Object? && !("full_content" in variant.fields && variant.fields["full_content"].Str?)
             && !("content" in variant.fields && variant.fields["content"].Str?)
             && "chapter_content" in variant.fields) ==>
      text == PyStr(variant.fields["chapter_content"], render)
    ensures (variant.Object? && !("full_content" in variant.fields && variant.fields["full_content"].Str?)
             && !("content" in variant.fields && variant.fields["content"].Str?)
             && "chapter_content" !in variant.fields) ==>
      text == dumps(variant)
    ensures !variant.Object? ==> text == PyStr(variant, render)
    ensures variant.Str? ==> text == variant.s
  {
    match variant
    case Object(fields) =>
      if "full_content" in fields && fields["full_content"].Str? then fields["full_content"].s
      else if "content" in fields && fields["content"].Str? then fields["content"].s
      else if "chapter_content" in fields then PyStr(fields["chapter_content"], render)
      else dumps(variant)
    case _ => PyStr(variant, render)
  }

  /**
   * Lines 416, 419: the metadata stored beside the text is always an
   * object: the version itself, or the version wrapped under `raw`.
   */
  function MetadataOf(variant: Json): (m: Json)
    ensures m.Object?
    ensures variant.Object? ==> m == variant
    ensures !variant.Object? ==> m.Object? && m.fields.Keys == {"raw"} && m.fields["raw"] == variant
  {
    if variant.Object? then variant else Object(map["raw" := variant])
  }

  /**
   * Whatever the normaliser recovered, the stored text is the recovered
   * text itself, and a parsed reply's `full_content` string when it has one.
   */
  lemma ExtractRecoversText(r: Recovery, dumps: Json -> string, render: Json -> string)
    ensures (r.PlainText? || r.ClosedField? || r.TruncatedField? || r.Raw?) ==>
      ExtractContent(r.Value(), dumps, render) == r.text
    ensures ((r.Parsed? || r.Repaired?) && r.value.Object? && "full_content" in r.value.fields
             && r.value.fields["full_content"].Str?) ==>
      ExtractContent(r.Value(), dumps, render) == r.value.fields["full_content"].s
    ensures !(r.Parsed? || r.Repaired?) ==> MetadataOf(r.Value()) == r.Value()
  {
  }

  /** `contents` and `metadata` are the text and the metadata of each raw version, in order. */
  predicate Extracted(rawVersions: seq<Json>, contents: seq<string>, metadata: seq<Json>,
                      dumps: Json -> string, render: Json -> string) {
    && |contents| == |rawVersions| && |metadata| == |rawVersions|
    && forall i :: 0 <= i < |rawVersions| ==>
      contents[i] == ExtractContent(rawVersions[i], dumps, render) && metadata[i] == MetadataOf(rawVersions[i])
  }

  /** Lines 398-419: one text and one metadata entry per raw version, in order. */
  method ExtractVersions(rawVersions: seq<Json>, dumps: Json -> string, render: Json -> string)
    returns (contents: seq<string>, metadata: seq<Json>)
    ensures Extracted(rawVersions, contents, metadata, dumps, render)
  {
    contents := [];
    metadata := [];
    for i := 0 to |rawVersions|
      invariant |contents| == i && |metadata| == i
      invariant forall k :: 0 <= k < i ==>
        contents[k] == ExtractContent(rawVersions[k], dumps, render) && metadata[k] == MetadataOf(rawVersions[k])
    {
      var variant := rawVersions[i];
      contents := contents + [ExtractContent(variant, dumps, render)];
      metadata := metadata + [MetadataOf(variant)];
    }
  }
}
