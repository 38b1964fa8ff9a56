/**
 * The user message a chapter is written from
 * (backend/app/api/routers/writer.py:149-195): the retrieval query and the
 * six titled sections, with placeholders for what is missing.
 */
module Prompt {
  import opened Wrappers
  import opened Text
  import opened Context

  // ------------------------------------------------------------- the goal

  /** Line 149: the outline's title, or `第{n}章` when it has none. */
  function OutlineTitle(title: Option<string>, chapterNumber: int): (r: string)
    ensures r != ""
    ensures !Blank(title) ==> r == title.value
    ensures Blank(title) ==> r == "第" + IntToString(chapterNumber) + "章"
  {
    if Blank(title) then "第" + IntToString(chapterNumber) + "章" else title.value
  }

  /** Line 150: the outline's summary, or `暂无摘要` when it has none. */
  function OutlineSummary(summary: Option<string>): (r: string)
    ensures r != ""
    ensures !Blank(summary) ==> r == summary.value
    ensures Blank(summary) ==> r == "暂无摘要"
  {
    if Blank(summary) then "暂无摘要" else summary.value
  }

  /** The non-empty parts, in order (the `if part` filter at line 154). */
  function NonEmpty(parts: seq<string>): (r: seq<string>)
    ensures |r| <= |parts|
    ensures forall i :: 0 <= i < |r| ==> r[i] != ""
    ensures forall p :: p in r <==> p in parts && p != ""
    decreases |parts|
  {
    if parts == [] then []
    else (if parts[0] == "" then [] else [parts[0]]) + NonEmpty(parts[1..])
  }

  /** The filter keeps the non-empty parts in order: one more part is kept at the end exactly when it is not empty. */
  lemma {:induction false} NonEmptyAppend(parts: seq<string>, part: string)
    ensures NonEmpty(parts + [part]) == NonEmpty(parts) + (if part == "" then [] else [part])
    decreases |parts|
  {
    if parts == [] {
      assert parts + [part] == [part];
      assert [part][1..] == [];
    } else {
      assert (parts + [part])[1..] == parts[1..] + [part];
      NonEmptyAppend(parts[1..], part);
    }
  }

  /** Lines 151-154. */
  function RagQuery(outlineTitle: string, outlineSummary: string, writingNotes: Option<string>): string {
    var parts := [outlineTitle, outlineSummary] + (if Blank(writingNotes) then [] else [writingNotes.value]);
    Join("\n", NonEmpty(parts))
  }

  /**
   * The query is the title and the summary on two lines, then the writing
   * notes when there are any. Title and summary are never empty (see
   * `OutlineTitle`, `OutlineSummary`), so neither is the query and the
   * fallback at line 157 is never used.
   */
  lemma RagQueryShape(outlineTitle: string, outlineSummary: string, writingNotes: Option<string>)
    requires outlineTitle != "" && outlineSummary != ""
    ensures RagQuery(outlineTitle, outlineSummary, writingNotes) ==
      outlineTitle + "\n" + outlineSummary + (if Blank(writingNotes) then "" else "\n" + writingNotes.value)
    ensures RagQuery(outlineTitle, outlineSummary, writingNotes) != ""
  {
    var t, s := outlineTitle, outlineSummary;
    assert [t, s][1..] == [s];
    assert [s][1..] == [];
    assert NonEmpty([s]) == [s];
    assert NonEmpty([t, s]) == [t] + NonEmpty([s]);
    if !Blank(writingNotes) {
      var n := writingNotes.value;
      assert [t, s] + [n] == [t, s, n];
      assert [t, s, n][1..] == [s, n];
      assert [s, n][1..] == [n];
      assert [n][1..] == [];
      assert NonEmpty([n]) == [n];
      assert NonEmpty([s, n]) == [s] + NonEmpty([n]);
      assert NonEmpty([t, s, n]) == [t] + NonEmpty([s, n]);
      assert Join("\n", [s, n]) == s + "\n" + n;
      assert Join("\n", [t, s, n]) == t + "\n" + Join("\n", [s, n]);
      assert NonEmpty([t, s, n]) == [t, s, n];
      assert RagQuery(t, s, writingNotes) == Join("\n", NonEmpty([t, s] + [n]));
    } else {
      assert [t, s] + [] == [t, s];
      assert Join("\n", [t, s]) == t + "\n" + s;
    }
  }

  /** Line 157: the text the retrieval is asked with. */
  function QueryText(ragQuery: string, title: Option<string>, summary: Option<string>): string {
    if ragQuery != "" then ragQuery
    else if !Blank(title) then title.value
    else if !Blank(summary) then summary.value
    else ""
  }

  // ------------------------------------------------------------ sections

  datatype Section = Section(title: string, content: string)

  /**
   * What retrieval returned: whether it found chunks and summaries (the
   * truth tests at lines 179-180) and the texts `chunk_texts()` and
   * `summary_lines()` give for them.
   */
  datatype Retrieved = Retrieved(hasChunks: bool, chunkTexts: seq<string>, hasSummaries: bool, summaryLines: seq<string>)

  /** Lines 176-195: the placeholders, then the six sections in order. */
  function Sections(blueprintText: string, prior: Prior, retrieved: Retrieved,
                    outlineTitle: string, outlineSummary: string, writingNotes: Option<string>): (secs: seq<Section>)
    ensures |secs| == 6
  {
    var previousSummary := if prior.summary == "" then "暂无可用摘要" else prior.summary;
    var previousTail := if prior.tail == "" then "暂无上一章结尾内容" else prior.tail;
    var chunksText := if retrieved.hasChunks then Join("\n\n", retrieved.chunkTexts) else "未检索到章节片段";
    var summariesText := if retrieved.hasSummaries then Join("\n", retrieved.summaryLines) else "未检索到章节摘要";
    var notes := if Blank(writingNotes) then "无额外写作指令" else writingNotes.value;
    [ Section("[世界蓝图](JSON)", blueprintText),
      Section("[上一章摘要]", previousSummary),
      Section("[上一章结尾]", previousTail),
      Section("[检索到的剧情上下文](Markdown)", chunksText),
      Section("[检索到的章节摘要]", summariesText),
      Section("[当前章节目标]", "标题：" + outlineTitle + "\n摘要：" + outlineSummary + "\n写作要求：" + notes) ]
  }

  /** The sections with content, in order (the `if content` filter at line 195). */
  function Present(secs: seq<Section>): (r: seq<Section>)
    ensures |r| <= |secs|
    ensures forall i :: 0 <= i < |r| ==> r[i].content != "" && r[i] in secs
    decreases |secs|
  {
    if secs == [] then [] else (if secs[0].content == "" then [] else [secs[0]]) + Present(secs[1..])
  }

  function Render(sec: Section): string {
    sec.title + "\n" + sec.content
  }

  function RenderAll(secs: seq<Section>): seq<string>
    ensures |RenderAll(secs)| == |secs|
  {
    seq(|secs|, i requires 0 <= i < |secs| => Render(secs[i]))
  }

  /** Line 195. */
  function PromptInput(secs: seq<Section>): string {
    Join("\n\n", RenderAll(Present(secs)))
  }

  /** A section with content adds one block after a blank line; an empty one changes nothing. */
  lemma {:induction false} PromptInputAppend(secs: seq<Section>, sec: Section)
    ensures sec.content == "" ==> PromptInput(secs + [sec]) == PromptInput(secs)
    ensures sec.content != "" && Present(secs) != [] ==>
      PromptInput(secs + [sec]) == PromptInput(secs) + "\n\n" + Render(sec)
    ensures sec.content != "" && Present(secs) == [] ==> PromptInput(secs + [sec]) == Render(sec)
    decreases |secs|
  {
    PresentAppend(secs, sec);
    var ps := Present(secs);
    if sec.content == "" {
      assert ps + [] == ps;
    } else {
      assert RenderAll(ps + [sec]) == RenderAll(ps) + [Render(sec)];
      JoinAppend("\n\n", RenderAll(ps), Render(sec));
    }
  }

  /** A section is kept exactly when it is one of the input's and has content. */
  lemma {:induction false} PresentExact(secs: seq<Section>)
    ensures forall sec :: sec in Present(secs) <==> sec in secs && sec.content != ""
    decreases |secs|
  {
    if secs != [] {
      PresentExact(secs[1..]);
      assert forall sec :: sec in secs <==> sec == secs[0] || sec in secs[1..];
    }
  }

  /** The sections with content are kept in order: one more section is kept at the end exactly when it has content. */
  lemma {:induction false} PresentAppend(secs: seq<Section>, sec: Section)
    ensures Present(secs + [sec]) == Present(secs) + (if sec.content == "" then [] else [sec])
    decreases |secs|
  {
    if secs == [] {
      assert secs + [sec] == [sec];
      assert [sec][1..] == [];
    } else {
      assert (secs + [sec])[1..] == secs[1..] + [sec];
      PresentAppend(secs[1..], sec);
    }
  }

  lemma {:induction false} JoinAppend(sep: string, parts: seq<string>, last: string)
    ensures parts == [] ==> Join(sep, parts + [last]) == last
    ensures parts != [] ==> Join(sep, parts + [last]) == Join(sep, parts) + sep + last
    decreases |parts|
  {
    if parts == [] {
      assert parts + [last] == [last];
    } else if |parts| == 1 {
      assert parts + [last] == [parts[0], last];
      assert [parts[0], last][1..] == [last];
    } else {
      assert (parts + [last])[1..] == parts[1..] + [last];
      JoinAppend(sep, parts[1..], last);
    }
  }

  /**
   * The four sections that never depend on retrieval are always in the
   * prompt (the blueprint's JSON text is never empty); a retrieval section
   * is left out only when retrieval reports chunks (summaries) whose texts
   * join to nothing: none at all, or a single empty one. When all six are present the prompt is each
   * `title\ncontent` block in the fixed order, separated by blank lines.
   */
  lemma SectionsPresent(blueprintText: string, prior: Prior, retrieved: Retrieved,
                        outlineTitle: string, outlineSummary: string, writingNotes: Option<string>)
    requires blueprintText != ""
    ensures var secs := Sections(blueprintText, prior, retrieved, outlineTitle, outlineSummary, writingNotes);
      && secs[0].content != "" && secs[1].content != "" && secs[2].content != "" && secs[5].content != ""
      && (secs[3].content == "" <==> retrieved.hasChunks && (retrieved.chunkTexts == [] || retrieved.chunkTexts == [""]))
      && (secs[4].content == "" <==> retrieved.hasSummaries && (retrieved.summaryLines == [] || retrieved.summaryLines == [""]))
    ensures var secs := Sections(blueprintText, prior, retrieved, outlineTitle, outlineSummary, writingNotes);
      (forall i :: 0 <= i < 6 ==> secs[i].content != "") ==>
      PromptInput(secs) == Render(secs[0]) + "\n\n" + Render(secs[1]) + "\n\n" + Render(secs[2]) + "\n\n"
                           + Render(secs[3]) + "\n\n" + Render(secs[4]) + "\n\n" + Render(secs[5])
  {
    var secs := Sections(blueprintText, prior, retrieved, outlineTitle, outlineSummary, writingNotes);
    JoinEmpty("\n\n", retrieved.chunkTexts);
    JoinEmpty("\n", retrieved.summaryLines);
    if forall i :: 0 <= i < 6 ==> secs[i].content != "" {
      var s0, s1, s2, s3, s4, s5 := secs[0], secs[1], secs[2], secs[3], secs[4], secs[5];
      assert secs == [s0, s1, s2, s3, s4, s5];
      assert [s0] == [] + [s0];
      PromptInputAppend([], s0);
      assert [s0, s1] == [s0] + [s1];
      PromptInputAppend([s0], s1);
      assert [s0, s1, s2] == [s0, s1] + [s2];
      PromptInputAppend([s0, s1], s2);
      assert [s0, s1, s2, s3] == [s0, s1, s2] + [s3];
      PromptInputAppend([s0, s1, s2], s3);
      assert [s0, s1, s2, s3, s4] == [s0, s1, s2, s3] + [s4];
      PromptInputAppend([s0, s1, s2, s3], s4);
      assert [s0, s1, s2, s3, s4, s5] == [s0, s1, s2, s3, s4] + [s5];
      PromptInputAppend([s0, s1, s2, s3, s4], s5);
      assert PromptInput([]) == "";
      assert Present([]) == [];
    }
  }

  /** A join is empty exactly when there is nothing to join or one empty part, for a non-empty separator. */
  lemma JoinEmpty(sep: string, parts: seq<string>)
    requires sep != ""
    ensures Join(sep, parts) == "" <==> parts == [] || parts == [""]
  {
    if |parts| == 1 {
      assert parts == [parts[0]];
    }
  }

  /**
   * With nothing written before and nothing retrieved, every placeholder
   * stands in for its section.
   */
  lemma PlaceholdersWhenNothingKnown(blueprintText: string, outlineTitle: string, outlineSummary: string)
    ensures var secs := Sections(blueprintText, NoPrior, Retrieved(false, [], false, []), outlineTitle, outlineSummary, None);
      && secs[1].content == "暂无可用摘要" && secs[2].content == "暂无上一章结尾内容"
      && secs[3].content == "未检索到章节片段" && secs[4].content == "未检索到章节摘要"
      && secs[5].content == "标题：" + outlineTitle + "\n摘要：" + outlineSummary + "\n写作要求：无额外写作指令"
  {
  }
}
