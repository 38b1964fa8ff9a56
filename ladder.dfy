/**
 * One version of a chapter (`_generate_single_version`,
 * backend/app/api/routers/writer.py:197-342): up to four requests, each
 * asking for fewer words, then normalisation of the first reply.
 *
 * The backend is an oracle: `backend(request)` is the outcome of one chat
 * request (a reply, an `HTTPException`, or any other exception), for the
 * system prompt and the single user message the request carries.
 */
module Ladder {
  import opened Text
  import opened JsonValues
  import opened Normalizer

  /** Line 199: the word targets, one rung per attempt. */
  const TargetWordCounts: seq<nat> := [4500, 3500, 2500, 1500]

  datatype LlmOutcome =
    | Reply(text: string)
    | RaisedHttp(status: int, detail: string)
    | Raised(message: string)

  /** Why a version failed. */
  datatype Failure =
    | HttpFailure(error: HttpError)
    | OtherFailure(message: string)

  /** Lines 219-227: what the backend is sent. */
  datatype LlmRequest = LlmRequest(systemPrompt: string, userContent: string)

  /** One request made: the rung's word target and the request sent. */
  datatype Attempt = Attempt(targetWords: nat, request: LlmRequest)

  datatype VersionResult = Generated(recovery: Recovery) | Failed(cause: Failure)

  /** Line 312: only a 413 whose detail mentions `TOKEN_LIMIT_EXCEEDED` moves down the ladder. */
  predicate IsTokenLimit(o: LlmOutcome) {
    o.RaisedHttp? && o.status == 413 && Contains(o.detail, "TOKEN_LIMIT_EXCEEDED")
  }

  /** Line 214. */
  function RetryInstruction(targetWords: nat): string {
    "\n\n【重要提示】由于上次生成被截断，请将本章字数控制在 " + NatToString(targetWords) + " 字左右，确保内容完整。"
  }

  /** Lines 204-217: the user message of attempt `k`. */
  function UserContent(promptInput: string, k: nat): string
    requires k < |TargetWordCounts|
  {
    if k > 0 then promptInput + RetryInstruction(TargetWordCounts[k]) else promptInput
  }

  /** The request of attempt `k`. */
  function RequestAt(writerPrompt: string, promptInput: string, k: nat): LlmRequest
    requires k < |TargetWordCounts|
  {
    LlmRequest(writerPrompt, UserContent(promptInput, k))
  }

  /** Lines 330-333: the error once the last rung also hit the token limit. */
  const ExhaustedError: HttpError :=
    HttpError(500, "生成章节失败：即使降低字数要求至 " + NatToString(1500) + " 字仍超过token限制，请简化章节大纲或调整模型参数")

  /**
   * What the backend answers to each of the four requests of the ladder;
   * the ladder stops at the first that does not hit the token limit, so
   * only a prefix of these is ever asked for.
   */
  function Outcomes(backend: LlmRequest -> LlmOutcome, writerPrompt: string, promptInput: string): (os: seq<LlmOutcome>)
    ensures |os| == |TargetWordCounts|
  {
    seq(|TargetWordCounts|, k requires 0 <= k < |TargetWordCounts| => backend(RequestAt(writerPrompt, promptInput, k)))
  }

  /** The first outcome from `k` on that is not a token limit, or 4 if there is none. */
  function FirstDecisive(outcomes: seq<LlmOutcome>, k: nat): (r: nat)
    requires k <= |outcomes| == |TargetWordCounts|
    ensures k <= r <= |TargetWordCounts|
    ensures forall j :: k <= j < r ==> IsTokenLimit(outcomes[j])
    ensures r < |TargetWordCounts| ==> !IsTokenLimit(outcomes[r])
    decreases |TargetWordCounts| - k
  {
    if k == |TargetWordCounts| || !IsTokenLimit(outcomes[k]) then k else FirstDecisive(outcomes, k + 1)
  }

  /** How many requests the ladder makes: through the first decisive one, at most four. */
  function AttemptsMade(outcomes: seq<LlmOutcome>): (n: nat)
    requires |outcomes| == |TargetWordCounts|
    ensures 1 <= n <= |TargetWordCounts|
  {
    var d := FirstDecisive(outcomes, 0);
    if d < |TargetWordCounts| then d + 1 else |TargetWordCounts|
  }

  /** The requests made, in order. */
  function AttemptLog(writerPrompt: string, promptInput: string, n: nat): (log: seq<Attempt>)
    requires n <= |TargetWordCounts|
    ensures |log| == n
    ensures forall k :: 0 <= k < n ==> log[k].targetWords == TargetWordCounts[k] && log[k].request.systemPrompt == writerPrompt
    ensures log != [] ==> log[0].request.userContent == promptInput
    ensures forall k :: 0 < k < n ==> log[k].request.userContent == promptInput + RetryInstruction(TargetWordCounts[k])
  {
    seq(n, k requires 0 <= k < n => Attempt(TargetWordCounts[k], RequestAt(writerPrompt, promptInput, k)))
  }

  /** Lines 228-308: a reply, cleaned by the three helpers, then normalised. */
  function Recover(tools: JsonTools, reply: string): Recovery {
    Normalize(Sanitized(tools, reply), tools.loads)
  }

  /** What one decisive outcome turns into (lines 228-308, 336). */
  function Decide(o: LlmOutcome, tools: JsonTools): VersionResult
    requires !IsTokenLimit(o)
  {
    match o
    case Reply(text) => Generated(Recover(tools, text))
    case RaisedHttp(status, detail) => Failed(HttpFailure(HttpError(status, detail)))
    case Raised(message) => Failed(OtherFailure(message))
  }

  /** The result of `_generate_single_version`, given what the backend answers to each request. */
  function VersionOutcome(outcomes: seq<LlmOutcome>, tools: JsonTools): VersionResult
    requires |outcomes| == |TargetWordCounts|
  {
    var d := FirstDecisive(outcomes, 0);
    if d < |TargetWordCounts| then Decide(outcomes[d], tools) else Failed(HttpFailure(ExhaustedError))
  }

  /** The ladder ends with its definitive 500 whenever all four requests hit the token limit. */
  lemma ExhaustedWhenAllTokenLimit(outcomes: seq<LlmOutcome>, tools: JsonTools)
    requires |outcomes| == |TargetWordCounts|
    requires forall k :: 0 <= k < |TargetWordCounts| ==> IsTokenLimit(outcomes[k])
    ensures VersionOutcome(outcomes, tools) == Failed(HttpFailure(ExhaustedError))
    ensures AttemptsMade(outcomes) == |TargetWordCounts|
  {
    assert FirstDecisive(outcomes, 0) == |TargetWordCounts|;
  }

  /**
   * A version is generated exactly when some request got a reply and every
   * request before it hit the token limit; the reply is then that of the
   * first such request.
   */
  lemma GeneratedIffReplyAfterTokenLimits(outcomes: seq<LlmOutcome>, tools: JsonTools)
    requires |outcomes| == |TargetWordCounts|
    ensures VersionOutcome(outcomes, tools).Generated? <==>
      exists k :: 0 <= k < |TargetWordCounts| && outcomes[k].Reply? && forall j :: 0 <= j < k ==> IsTokenLimit(outcomes[j])
    ensures forall k :: (0 <= k < |TargetWordCounts| && outcomes[k].Reply? && forall j :: 0 <= j < k ==> IsTokenLimit(outcomes[j])) ==>
      VersionOutcome(outcomes, tools) == Generated(Recover(tools, outcomes[k].text))
  {
    var d := FirstDecisive(outcomes, 0);
    forall k | 0 <= k < |TargetWordCounts| && outcomes[k].Reply? && (forall j :: 0 <= j < k ==> IsTokenLimit(outcomes[j]))
      ensures k == d
    {
    }
    if VersionOutcome(outcomes, tools).Generated? {
      assert d < |TargetWordCounts| && outcomes[d].Reply?;
    }
  }

  /**
   * The last request made decides the version: every earlier one hit the
   * token limit; a reply is normalised, any other error is passed on, and a
   * token limit can only be the last request's outcome on the last rung,
   * where it becomes the definitive 500.
   */
  lemma LastAttemptDecides(outcomes: seq<LlmOutcome>, tools: JsonTools)
    requires |outcomes| == |TargetWordCounts|
    ensures var n := AttemptsMade(outcomes);
      forall k :: 0 <= k < n - 1 ==> IsTokenLimit(outcomes[k])
    ensures var n := AttemptsMade(outcomes);
      var last := outcomes[n - 1];
      var v := VersionOutcome(outcomes, tools);
      && (last.Reply? ==> v == Generated(Recover(tools, last.text)))
      && (last.Raised? ==> v == Failed(OtherFailure(last.message)))
      && (last.RaisedHttp? && !IsTokenLimit(last) ==> v == Failed(HttpFailure(HttpError(last.status, last.detail))))
      && (IsTokenLimit(last) ==> n == |TargetWordCounts| && v == Failed(HttpFailure(ExhaustedError)))
  {
    var d := FirstDecisive(outcomes, 0);
    if d < |TargetWordCounts| {
      assert AttemptsMade(outcomes) == d + 1 && !IsTokenLimit(outcomes[d]);
    } else {
      assert AttemptsMade(outcomes) == |TargetWordCounts| && IsTokenLimit(outcomes[d - 1]);
    }
  }

  /** The log of `n + 1` requests extends the log of `n` by the request of rung `n`. */
  lemma AttemptLogStep(writerPrompt: string, promptInput: string, n: nat)
    requires n < |TargetWordCounts|
    ensures AttemptLog(writerPrompt, promptInput, n + 1)
      == AttemptLog(writerPrompt, promptInput, n) + [Attempt(TargetWordCounts[n], RequestAt(writerPrompt, promptInput, n))]
  {
  }

  /**
   * What rung `k` decides once every rung before it hit the token limit: a
   * decisive outcome ends the ladder with `Decide`, a token limit on the
   * last rung ends it with the definitive 500, and one on an earlier rung
   * passes the decision on to rung `k + 1`.
   */
  lemma LadderStep(outcomes: seq<LlmOutcome>, tools: JsonTools, k: nat)
    requires |outcomes| == |TargetWordCounts| && k < |TargetWordCounts|
    requires FirstDecisive(outcomes, 0) == FirstDecisive(outcomes, k)
    ensures !IsTokenLimit(outcomes[k]) ==>
      AttemptsMade(outcomes) == k + 1 && VersionOutcome(outcomes, tools) == Decide(outcomes[k], tools)
    ensures IsTokenLimit(outcomes[k]) && k == |TargetWordCounts| - 1 ==>
      AttemptsMade(outcomes) == k + 1 && VersionOutcome(outcomes, tools) == Failed(HttpFailure(ExhaustedError))
    ensures IsTokenLimit(outcomes[k]) && k < |TargetWordCounts| - 1 ==>
      FirstDecisive(outcomes, 0) == FirstDecisive(outcomes, k + 1)
  {
  }

  /**
   * Lines 201-342: the requests follow the ladder in order and the result is
   * `VersionOutcome`. The fall-through after the loop (lines 339-342) is
   * unreachable: the last rung always returns or raises.
   */
  method GenerateSingleVersion(writerPrompt: string, promptInput: string, backend: LlmRequest -> LlmOutcome, tools: JsonTools)
    returns (result: VersionResult, attempts: seq<Attempt>)
    ensures attempts == AttemptLog(writerPrompt, promptInput, AttemptsMade(Outcomes(backend, writerPrompt, promptInput)))
    ensures result == VersionOutcome(Outcomes(backend, writerPrompt, promptInput), tools)
  {
    ghost var outcomes := Outcomes(backend, writerPrompt, promptInput);
    attempts := [];
    for retryAttempt := 0 to |TargetWordCounts|
      invariant retryAttempt < |TargetWordCounts|
      invariant attempts == AttemptLog(writerPrompt, promptInput, retryAttempt)
      invariant FirstDecisive(outcomes, 0) == FirstDecisive(outcomes, retryAttempt)
    {
      var targetWords := TargetWordCounts[retryAttempt];
      var currentUserContent;
      if retryAttempt > 0 {
        currentUserContent := promptInput + RetryInstruction(targetWords);
      } else {
        currentUserContent := promptInput;
      }
      var request := LlmRequest(writerPrompt, currentUserContent);
      assert request == RequestAt(writerPrompt, promptInput, retryAttempt);
      AttemptLogStep(writerPrompt, promptInput, retryAttempt);
      attempts := attempts + [Attempt(targetWords, request)];
      var response := backend(request);
      assert response == outcomes[retryAttempt];
      LadderStep(outcomes, tools, retryAttempt);
      match response
      case Reply(text) =>
        result := Generated(Recover(tools, text));
        return;
      case Raised(message) =>
        result := Failed(OtherFailure(message));
        return;
      case RaisedHttp(status, detail) =>
        if status == 413 && Contains(detail, "TOKEN_LIMIT_EXCEEDED") {
          if retryAttempt < |TargetWordCounts| - 1 {
            continue;
          }
          result := Failed(HttpFailure(ExhaustedError));
          return;
        }
        result := Failed(HttpFailure(HttpError(status, detail)));
        return;
    }
    assert false;
  }
}
