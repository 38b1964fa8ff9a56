/**
 * Normalisation and repair of one generation response
 * (`_generate_single_version`, backend/app/api/routers/writer.py:228-308).
 *
 * The response is cleaned by three helpers of `utils/json_utils` and then
 * parsed by `json.loads`; all four are parameters here (`JsonTools`).
 * Everything the router itself does with the text is modelled exactly:
 * the plain-text check, the quote and brace balancing, the two regular
 * expressions (leftmost match, the escape-aware string grammar) and the
 * literal unescaping.
 */
module Normalizer {
  import opened Wrappers
  import opened Text
  import opened JsonValues

  /** `remove_think_tags`, `unwrap_markdown_json`, `sanitize_json_like_text` and `json.loads`. */
  datatype JsonTools = JsonTools(
    removeThinkTags: string -> string,
    unwrapMarkdownJson: string -> string,
    sanitizeJsonLikeText: string -> string,
    loads: string -> Option<Json>)

  /** Lines 228-230: the text every later step works on. */
  function Sanitized(tools: JsonTools, response: string): string {
    tools.sanitizeJsonLikeText(tools.unwrapMarkdownJson(tools.removeThinkTags(response)))
  }

  /** Which step produced the version, and what it produced. */
  datatype Recovery =
    | Parsed(value: Json)          // strict parse (line 232)
    | Repaired(value: Json)        // parse after balancing (line 273)
    | PlainText(text: string)      // not a JSON object at all (line 259)
    | ClosedField(text: string)    // closed `content` string (line 289)
    | TruncatedField(text: string) // `content` string cut off at the end (line 302)
    | Raw(text: string)            // nothing recognised (line 308)
  {
    /** The Python value `_generate_single_version` returns. */
    function Value(): Json {
      match this
      case Parsed(v) => v
      case Repaired(v) => v
      case PlainText(t) => TextObject("full_content", t)
      case ClosedField(t) => TextObject("full_content", t)
      case TruncatedField(t) => TextObject("full_content", t)
      case Raw(t) => TextObject("content", t)
    }
  }

  // ---------------------------------------------------------------- repair

  /** Line 263: balancing is tried only on a non-empty text not ending in `}`. */
  predicate NeedsRepair(t: string) {
    t != "" && !EndsWith(t, "}")
  }

  /** Lines 265-269: close an odd quote, then add the missing closing braces. */
  function Repair(t: string): string {
    var quoted := Quoted(t);
    var openBraces := Count(quoted, '{') - Count(quoted, '}');
    quoted + Repeat('}', if openBraces > 0 then openBraces else 0)
  }

  /** The text with its missing closing quote, if any (the first step of `Repair`). */
  function Quoted(t: string): string {
    if Count(t, '"') % 2 == 1 then t + "\"" else t
  }

  /** The number of braces `Repair` appends after `Quoted(t)`. */
  function MissingBraces(t: string): nat {
    var n := Count(t, '{') - Count(t, '}');
    if n > 0 then n else 0
  }

  /** Closing the quote adds one quote and no brace. */
  lemma QuotedCounts(t: string)
    ensures Count(Quoted(t), '"') == Count(t, '"') + Count(t, '"') % 2
    ensures Count(Quoted(t), '{') == Count(t, '{') && Count(Quoted(t), '}') == Count(t, '}')
  {
    CountAppend(t, "\"", '"');
    CountAppend(t, "\"", '{');
    CountAppend(t, "\"", '}');
    assert Count("\"", '"') == 1 && Count("\"", '{') == 0 && Count("\"", '}') == 0;
  }

  /** `Repair` is the quoted text followed by the missing braces. */
  lemma RepairShape(t: string)
    ensures Repair(t) == Quoted(t) + Repeat('}', MissingBraces(t))
  {
    QuotedCounts(t);
  }

  /** Balancing adds the odd quote and exactly enough closing braces. */
  lemma RepairCounts(t: string)
    ensures Count(Repair(t), '"') == Count(t, '"') + Count(t, '"') % 2
    ensures Count(Repair(t), '{') == Count(t, '{')
    ensures Count(Repair(t), '}') == if Count(t, '{') > Count(t, '}') then Count(t, '{') else Count(t, '}')
  {
    var k := MissingBraces(t);
    RepairShape(t);
    QuotedCounts(t);
    CountAppend(Quoted(t), Repeat('}', k), '"');
    CountAppend(Quoted(t), Repeat('}', k), '{');
    CountAppend(Quoted(t), Repeat('}', k), '}');
    CountRepeat('}', '"', k);
    CountRepeat('}', '{', k);
    CountRepeat('}', '}', k);
  }

  /** The text comes first, then at most one quote, then only closing braces. */
  lemma RepairLayout(t: string)
    ensures StartsWith(Repair(t), t)
    ensures |Repair(t)| == |t| + Count(t, '"') % 2 + MissingBraces(t)
    ensures Count(t, '"') % 2 == 1 ==> Repair(t)[|t|] == '"'
    ensures forall j :: |t| + Count(t, '"') % 2 <= j < |Repair(t)| ==> Repair(t)[j] == '}'
  {
    var q := Quoted(t);
    var tail := Repeat('}', MissingBraces(t));
    RepairShape(t);
    assert |q| == |t| + Count(t, '"') % 2;
    assert q[..|t|] == t;
    assert Repair(t)[..|t|] == q[..|t|];
    forall j | |q| <= j < |Repair(t)|
      ensures Repair(t)[j] == '}'
    {
      assert Repair(t)[j] == tail[j - |q|];
    }
  }

  /**
   * Balancing keeps the text as a prefix, leaves an even number of quotes
   * and at least as many closing braces as opening ones; it appends at most
   * one quote, then exactly `max(0, opens - closes)` braces after it.
   */
  lemma RepairBalances(t: string)
    ensures StartsWith(Repair(t), t)
    ensures Count(Repair(t), '"') % 2 == 0
    ensures Count(Repair(t), '"') == Count(t, '"') + Count(t, '"') % 2
    ensures Count(Repair(t), '{') == Count(t, '{')
    ensures Count(Repair(t), '}') == if Count(t, '{') > Count(t, '}') then Count(t, '{') else Count(t, '}')
    ensures |Repair(t)| == |t| + Count(t, '"') % 2 + (if Count(t, '{') > Count(t, '}') then Count(t, '{') - Count(t, '}') else 0)
    ensures Count(t, '"') % 2 == 1 ==> Repair(t)[|t|] == '"'
    ensures forall j :: |t| + Count(t, '"') % 2 <= j < |Repair(t)| ==> Repair(t)[j] == '}'
  {
    RepairCounts(t);
    RepairLayout(t);
  }

  // ------------------------------------------------------ field extraction

  /**
   * The regex group `(?:[^"\\]|\\.)*`: a run of characters other than `"`
   * and `\`, and of `\` followed by any character.
   */
  predicate EscapedBody(c: string)
    decreases |c|
  {
    || c == []
    || (c[0] != '"' && c[0] != '\\' && EscapedBody(c[1..]))
    || (|c| >= 2 && c[0] == '\\' && EscapedBody(c[2..]))
  }

  /** Where `"(?:full_)?content"` ends if it matches at `p`. */
  function KeyEnd(s: string, p: nat): (r: Option<nat>)
    requires p <= |s|
    ensures r.Some? ==> p < r.value <= |s|
  {
    if StartsWith(s[p..], "\"full_content\"") then Some(p + 14)
    else if StartsWith(s[p..], "\"content\"") then Some(p + 9)
    else None
  }

  /**
   * Where the value of the field starts if `"(?:full_)?content"\s*:\s*"`
   * matches at `p`. Each `\s*` must take its whole run, because neither
   * `:` nor `"` is whitespace, so the match is unique.
   */
  function ValueStart(s: string, p: nat): (r: Option<nat>)
    requires p <= |s|
    ensures r.Some? ==> p < r.value <= |s| && s[r.value - 1] == '"'
  {
    match KeyEnd(s, p)
    case None => None
    case Some(k) =>
      var i := SkipSpaces(s, k);
      if i < |s| && s[i] == ':' then
        var j := SkipSpaces(s, i + 1);
        if j < |s| && s[j] == '"' then Some(j + 1) else None
      else None
  }

  /**
   * The greedy run of `(?:[^"\\]|\\.)` tokens from `q`: it stops at an
   * unescaped `"`, at a `\` that ends the text, or at the end.
   */
  function ScanEnd(s: string, q: nat): (r: nat)
    requires q <= |s|
    ensures q <= r <= |s|
    ensures EscapedBody(s[q..r])
    ensures r < |s| ==> s[r] == '"' || (s[r] == '\\' && r == |s| - 1)
    decreases |s| - q
  {
    if q == |s| || s[q] == '"' then q
    else if s[q] == '\\' then
      if q + 1 < |s| then
        var r := ScanEnd(s, q + 2);
        assert s[q..r][2..] == s[q + 2..r];
        r
      else q
    else
      var r := ScanEnd(s, q + 1);
      assert s[q..r][1..] == s[q + 1..r];
      r
  }

  /** Every way the group can stop right before a `"` is the way the scan stops. */
  lemma {:induction false} ScanEndReaches(s: string, q: nat, e: nat)
    requires q <= e < |s| && EscapedBody(s[q..e]) && s[e] == '"'
    ensures ScanEnd(s, q) == e
    decreases e - q
  {
    if q < e {
      var c := s[q..e];
      assert c[0] == s[q];
      if s[q] == '\\' {
        assert c[2..] == s[q + 2..e];
        ScanEndReaches(s, q + 2, e);
      } else {
        assert c[1..] == s[q + 1..e];
        ScanEndReaches(s, q + 1, e);
      }
    }
  }

  /** A match of either pattern: where it starts and where its captured group lies. */
  datatype FieldMatch = FieldMatch(start: nat, valueStart: nat, valueEnd: nat)

  /** Line 280 anchored at `p`: a value closed by an unescaped quote. */
  function ClosedAt(s: string, p: nat): (r: Option<FieldMatch>)
    requires p <= |s|
    ensures r.Some? ==>
      && r.value.start == p && ValueStart(s, p) == Some(r.value.valueStart)
      && r.value.valueStart <= r.value.valueEnd < |s| && s[r.value.valueEnd] == '"'
      && EscapedBody(s[r.value.valueStart..r.value.valueEnd])
  {
    match ValueStart(s, p)
    case None => None
    case Some(q) =>
      var e := ScanEnd(s, q);
      if e < |s| && s[e] == '"' then Some(FieldMatch(p, q, e)) else None
  }

  /**
   * The closed capture ends at the first unescaped quote after the key:
   * the pattern matches at `p` with its group ending at `e` exactly when
   * `ClosedAt` says so, and no other `e` is possible.
   */
  lemma ClosedAtComplete(s: string, p: nat, q: nat, e: nat)
    requires p <= |s| && ValueStart(s, p) == Some(q)
    requires q <= e < |s| && EscapedBody(s[q..e]) && s[e] == '"'
    ensures ClosedAt(s, p) == Some(FieldMatch(p, q, e))
  {
    ScanEndReaches(s, q, e);
  }

  /** `re.search` with the pattern of line 280, from position `p` on: the leftmost match. */
  function ClosedSearch(s: string, p: nat): (r: Option<FieldMatch>)
    requires p <= |s|
    ensures r.Some? ==> p <= r.value.start <= |s| && ClosedAt(s, r.value.start) == r
    ensures forall p' :: p <= p' <= |s| && (r.None? || p' < r.value.start) ==> ClosedAt(s, p').None?
    decreases |s| - p
  {
    if ClosedAt(s, p).Some? then ClosedAt(s, p)
    else if p == |s| then None
    else ClosedSearch(s, p + 1)
  }

  /** Line 294 anchored at `p`: `(.*)$` under DOTALL captures the rest of the text. */
  function TruncatedAt(s: string, p: nat): (r: Option<FieldMatch>)
    requires p <= |s|
    ensures r.Some? ==> r.value.start == p && ValueStart(s, p) == Some(r.value.valueStart) && r.value.valueEnd == |s|
  {
    match ValueStart(s, p)
    case None => None
    case Some(q) => Some(FieldMatch(p, q, |s|))
  }

  /** `re.search` with the pattern of line 294: the leftmost match. */
  function TruncatedSearch(s: string, p: nat): (r: Option<FieldMatch>)
    requires p <= |s|
    ensures r.Some? ==> p <= r.value.start <= |s| && TruncatedAt(s, r.value.start) == r
    ensures forall p' :: p <= p' <= |s| && (r.None? || p' < r.value.start) ==> TruncatedAt(s, p').None?
    decreases |s| - p
  {
    if TruncatedAt(s, p).Some? then TruncatedAt(s, p)
    else if p == |s| then None
    else TruncatedSearch(s, p + 1)
  }

  /** A closed match is also a truncated match, so both searches fail together only when no key is found. */
  lemma ClosedImpliesTruncated(s: string, p: nat)
    requires p <= |s|
    ensures ClosedSearch(s, p).Some? ==> TruncatedSearch(s, p).Some?
  {
    if ClosedSearch(s, p).Some? {
      var m := ClosedSearch(s, p).value;
      assert TruncatedAt(s, m.start).Some?;
    }
  }

  /** Characters `rstrip('"}]')` removes from a truncated capture (line 298). */
  const TrailingJunk: set<char> := {'"', '}', ']'}

  /**
   * Lines 287 and 300: the four literal replacements, applied one after the
   * other to the whole text.
   */
  function Unescape(t: string): string {
    Replace(Replace(Replace(Replace(t, "\\n", "\n"), "\\t", "\t"), "\\\"", "\""), "\\\\", "\\")
  }

  // --------------------------------------------------------- the pipeline

  /**
   * The text went through the strict parse, the plain-text check and the
   * balancing without producing a value: only the regular expressions are
   * left (lines 279-308).
   */
  predicate NeedsExtraction(s: string, loads: string -> Option<Json>) {
    && loads(s).None? && StartsWith(Strip(s), "{")
    && !(NeedsRepair(RStrip(s)) && loads(Repair(RStrip(s))).Some?)
  }

  /**
   * Lines 231-308 for one sanitized response. A total function: once a
   * response exists, some value always comes out and nothing is raised.
   * Each step is taken exactly when every earlier one produced nothing.
   */
  function Normalize(s: string, loads: string -> Option<Json>): (r: Recovery)
    ensures r.Parsed? <==> loads(s).Some?
    ensures r.Parsed? ==> r.value == loads(s).value
    ensures r.PlainText? <==> loads(s).None? && !StartsWith(Strip(s), "{")
    ensures r.Repaired? <==> loads(s).None? && StartsWith(Strip(s), "{") && NeedsRepair(RStrip(s)) && loads(Repair(RStrip(s))).Some?
    ensures r.Repaired? ==> r.value == loads(Repair(RStrip(s))).value
    ensures r.ClosedField? <==> NeedsExtraction(s, loads) && ClosedSearch(s, 0).Some?
    ensures r.ClosedField? ==> r.text == Unescape(s[ClosedSearch(s, 0).value.valueStart..ClosedSearch(s, 0).value.valueEnd])
    ensures r.TruncatedField? <==> NeedsExtraction(s, loads) && ClosedSearch(s, 0).None? && TruncatedSearch(s, 0).Some?
    ensures r.TruncatedField? ==> r.text == Unescape(RStripChars(s[TruncatedSearch(s, 0).value.valueStart..], TrailingJunk))
    ensures r.Raw? <==> NeedsExtraction(s, loads) && ClosedSearch(s, 0).None? && TruncatedSearch(s, 0).None?
    ensures r.PlainText? || r.Raw? ==> r.text == s
  {
    if loads(s).Some? then Parsed(loads(s).value)
    else if !StartsWith(Strip(s), "{") then PlainText(s)
    else
      var t := RStrip(s);
      if NeedsRepair(t) && loads(Repair(t)).Some? then Repaired(loads(Repair(t)).value)
      else
        match ClosedSearch(s, 0)
        case Some(m) => ClosedField(Unescape(s[m.valueStart..m.valueEnd]))
        case None =>
          match TruncatedSearch(s, 0)
          case Some(m) => TruncatedField(Unescape(RStripChars(s[m.valueStart..], TrailingJunk)))
          case None => Raw(s)
  }

  // ------------------------------------------------- what the unescape does

  /** JSON's escape of the four characters the unescape handles. */
  function EscapeChar(c: char): string {
    if c == '\\' then "\\\\"
    else if c == '"' then "\\\""
    else if c == '\n' then "\\n"
    else if c == '\t' then "\\t"
    else [c]
  }

  /** Apply a per-character encoding to a whole text. */
  function Encode(s: string, g: char -> string): string
    decreases |s|
  {
    if s == [] then "" else g(s[0]) + Encode(s[1..], g)
  }

  function Escape(s: string): string {
    Encode(s, EscapeChar)
  }

  /** `Replace` acts character by character on an encoding none of whose pieces ends in the pattern's first character. */
  lemma {:induction false} ReplaceEncode(s: string, g: char -> string, h: char -> string, pat: string, rep: string)
    requires |pat| == 2
    requires forall c :: c in s ==> g(c) != [] && g(c)[|g(c)| - 1] != pat[0] && Replace(g(c), pat, rep) == h(c)
    ensures Replace(Encode(s, g), pat, rep) == Encode(s, h)
    decreases |s|
  {
    if s != [] {
      assert s[0] in s;
      assert forall c :: c in s[1..] ==> c in s;
      ReplaceAppend(g(s[0]), Encode(s[1..], g), pat, rep);
      ReplaceEncode(s[1..], g, h, pat, rep);
    }
  }

  /** After the first replacement: newlines are back, quote and tab still escaped. */
  function AfterNewline(c: char): string {
    if c == '"' then "\\\"" else if c == '\t' then "\\t" else [c]
  }

  /** After the second replacement: only the quote is still escaped. */
  function AfterTab(c: char): string {
    if c == '"' then "\\\"" else [c]
  }

  function Identity(c: char): string {
    [c]
  }

  lemma {:induction false} EncodeIdentity(s: string)
    ensures Encode(s, Identity) == s
    decreases |s|
  {
    if s != [] {
      EncodeIdentity(s[1..]);
    }
  }

  /**
   * On text without a backslash the four replacements undo the JSON
   * escaping of backslash, quote, newline and tab: `Unescape(Escape(s)) == s`.
   * The other JSON escapes (`\r`, `\b`, `\f`, `\uXXXX`) are left in place.
   */
  lemma UnescapeInvertsEscape(s: string)
    requires '\\' !in s
    ensures Unescape(Escape(s)) == s
  {
    forall c | c in s
      ensures Replace(EscapeChar(c), "\\n", "\n") == AfterNewline(c)
    {
      assert c != '\\';
      if c == '"' || c == '\t' || c == '\n' {
        ReplaceStep(EscapeChar(c), "\\n", "\n");
        assert EscapeChar(c) == [EscapeChar(c)[0]] + EscapeChar(c)[1..];
      }
    }
    ReplaceEncode(s, EscapeChar, AfterNewline, "\\n", "\n");
    forall c | c in s
      ensures Replace(AfterNewline(c), "\\t", "\t") == AfterTab(c)
    {
      if c == '"' || c == '\t' {
        ReplaceStep(AfterNewline(c), "\\t", "\t");
        assert AfterNewline(c) == [AfterNewline(c)[0]] + AfterNewline(c)[1..];
      }
    }
    ReplaceEncode(s, AfterNewline, AfterTab, "\\t", "\t");
    forall c | c in s
      ensures Replace(AfterTab(c), "\\\"", "\"") == Identity(c)
    {
      if c == '"' {
        ReplaceStep(AfterTab(c), "\\\"", "\"");
      }
    }
    ReplaceEncode(s, AfterTab, Identity, "\\\"", "\"");
    EncodeIdentity(s);
    ReplaceAbsent(s, "\\\\", "\\");
  }

  /**
   * The replacements are not a JSON unescape once the text holds an escaped
   * backslash: the JSON text `\\n` stands for a backslash and an `n`, but
   * the first replacement already turns its last two characters into a
   * newline.
   */
  lemma UnescapeIsNotJsonUnescape()
    ensures Escape("\\n") == "\\\\n"
    ensures Unescape("\\\\n") == "\\\n"
    ensures Unescape(Escape("\\n")) != "\\n"
  {
    assert Encode("\\n", EscapeChar) == "\\\\" + Encode("n", EscapeChar);
    assert Encode("n", EscapeChar) == "n" + Encode("", EscapeChar);
    var t := "\\\\n";
    ReplaceStep(t, "\\n", "\n");
    ReplaceStep(t[1..], "\\n", "\n");
    var t1 := "\\\n";
    assert Replace(t, "\\n", "\n") == t1;
    ReplaceStep(t1, "\\t", "\t");
    ReplaceStep(t1, "\\\"", "\"");
    ReplaceStep(t1, "\\\\", "\\");
  }
}
