/**
 * The reply side of `extract_tables_with_mistral`: the prompt sent with a
 * page image, the removal of a Markdown code fence around the model's
 * answer, and the tables the caller gets back. The network call and
 * `json.loads` are left to the caller as a reply value and a decoder.
 */
module Mistral {
  import opened Wrappers
  import opened Strings
  import opened Tables

  const JsonFence := "```json"
  const Fence := "```"

  /** The prompt sent when no custom prompt is given. */
  const DefaultPrompt :=
    @"Extract all tables from this image.
For each table, return structured data in JSON format with:
- headers: list of column headers
- rows: list of rows, each row is a list of cell values

Return ONLY valid JSON in this format:
{
  ""tables"": [
    {
      ""headers"": [""col1"", ""col2"", ...],
      ""rows"": [
        [""val1"", ""val2"", ...],
        [""val1"", ""val2"", ...]
      ]
    }
  ]
}

If no tables found, return: {""tables"": []}
"

  /** A custom prompt wins when it is non-empty (Python truthiness); the prompt is never empty. */
  function ChoosePrompt(customPrompt: Option<string>): (prompt: string)
    ensures |prompt| > 0
    ensures customPrompt.Some? && customPrompt.value != "" ==> prompt == customPrompt.value
    ensures customPrompt.None? || customPrompt.value == "" ==> prompt == DefaultPrompt
  {
    if customPrompt.Some? && customPrompt.value != "" then customPrompt.value else DefaultPrompt
  }

  /** A "```json" fence is also a "```" fence. */
  lemma {:induction false} JsonFenceIsFence(s: string)
    requires Contains(s, JsonFence)
    ensures Contains(s, Fence)
  {
    var i := FindFirst(s, JsonFence).value;
    PrefixOccurs(s, JsonFence, Fence, i);
    ContainsAt(s, Fence, i);
  }

  /**
   * The answer with a Markdown code fence removed, as Python's
   * `split("```json")[1].split("```")[0].strip()` or, without a "```json",
   * `split("```")[1].split("```")[0].strip()`. Whenever the answer had a
   * fence, none is left; otherwise the answer is kept as it is.
   */
  function StripFence(answer: string): (r: string)
    ensures Contains(answer, Fence) ==> !Contains(r, Fence)
    ensures !Contains(answer, Fence) ==> r == answer
  {
    if Contains(answer, JsonFence) then
      JsonFenceIsFence(answer);
      var inner := Before(Split(answer, JsonFence)[1], Fence);
      TrimNoOccurrence(inner, IsSpace, Fence);
      Strip(inner)
    else if Contains(answer, Fence) then
      var inner := Before(Split(answer, Fence)[1], Fence);
      TrimNoOccurrence(inner, IsSpace, Fence);
      Strip(inner)
    else answer
  }

  /** Stripping twice is stripping once. */
  lemma {:induction false} StripFenceIdempotent(answer: string)
    ensures StripFence(StripFence(answer)) == StripFence(answer)
  {
    var r := StripFence(answer);
    if Contains(answer, Fence) {
      assert !Contains(r, Fence);
      if Contains(r, JsonFence) {
        JsonFenceIsFence(r);
      }
    }
  }

  /**
   * Without "```json", the result is the stripped text between the first
   * and the second "```" (or the end of the answer).
   */
  lemma {:induction false} StripFencePlain(answer: string)
    requires !Contains(answer, JsonFence) && Contains(answer, Fence)
    ensures var rest := After(answer, Fence);
      match FindFirst(rest, Fence)
      case None => StripFence(answer) == Strip(rest)
      case Some(k) => StripFence(answer) == Strip(rest[..k])
  {
    var rest := After(answer, Fence);
    SplitSecond(answer, Fence);
    BeforeIsPrefix(rest, Fence);
    var inner := Before(rest, Fence);
    BeforeIsPrefix(inner, Fence);
  }

  /**
   * With "```json", the result is the stripped text between the first
   * "```json" and the next "```" (or the end of the answer), unless that
   * "```" is part of a longer run of backticks directly followed by "json".
   */
  lemma {:induction false} StripFenceJson(answer: string)
    requires Contains(answer, JsonFence)
    ensures var rest := After(answer, JsonFence);
      match FindFirst(rest, Fence)
      case None => StripFence(answer) == Strip(rest)
      case Some(k) =>
        !OccursAt(rest, JsonFence, k + 1) && !OccursAt(rest, JsonFence, k + 2) ==>
        StripFence(answer) == Strip(rest[..k])
  {
    var rest := After(answer, JsonFence);
    SplitSecond(answer, JsonFence);
    match FindFirst(rest, Fence)
    case None =>
      NoFenceNoJsonFence(rest);
      BeforeIsPrefix(rest, JsonFence);
      BeforeIsPrefix(rest, Fence);
    case Some(k) =>
      if !OccursAt(rest, JsonFence, k + 1) && !OccursAt(rest, JsonFence, k + 2) {
        FenceBeforeJsonFence(rest, k);
      }
  }

  lemma {:induction false} NoFenceNoJsonFence(s: string)
    requires !Contains(s, Fence)
    ensures !Contains(s, JsonFence)
  {
    if Contains(s, JsonFence) {
      JsonFenceIsFence(s);
    }
  }

  /** Cutting at the first "```json" and then at the first "```" cuts at the first "```". */
  lemma {:induction false} FenceBeforeJsonFence(rest: string, k: nat)
    requires FindFirst(rest, Fence) == Some(k)
    requires !OccursAt(rest, JsonFence, k + 1) && !OccursAt(rest, JsonFence, k + 2)
    ensures Before(Before(rest, JsonFence), Fence) == rest[..k]
  {
    BeforeIsPrefix(rest, JsonFence);
    match FindFirst(rest, JsonFence)
    case None =>
      BeforeIsPrefix(rest, Fence);
    case Some(m) =>
      PrefixOccurs(rest, JsonFence, Fence, m);
      if k == m {
        CutAtFirstFence(rest, m);
      } else {
        CutAfterFirstFence(rest, k, m);
      }
  }

  lemma {:induction false} CutAtFirstFence(rest: string, m: nat)
    requires FindFirst(rest, Fence) == Some(m) && m <= |rest|
    ensures Before(rest[..m], Fence) == rest[..m]
  {
    NoOccurrenceInPrefix(rest, Fence, m);
    BeforeIsPrefix(rest[..m], Fence);
  }

  lemma {:induction false} CutAfterFirstFence(rest: string, k: nat, m: nat)
    requires FindFirst(rest, Fence) == Some(k) && k + |Fence| <= m <= |rest|
    ensures Before(rest[..m], Fence) == rest[..k]
  {
    FindFirstInPrefix(rest, Fence, k, m);
    BeforeIsPrefix(rest[..m], Fence);
    assert rest[..m][..k] == rest[..k];
  }

  /** What the API call produced for one page. */
  datatype Reply = RequestFailed | Answered(content: string)

  /**
   * `result.get("tables", [])` for the dictionary `extract_tables_with_mistral`
   * returns: `decode` stands for `json.loads` followed by the lookup of
   * "tables", `None` for a `JSONDecodeError`. A failed request and an
   * undecodable answer both give no tables; any tables come from decoding
   * the fence-free answer.
   */
  function PageTables(reply: Reply, decode: string -> Option<seq<Table>>): (tables: seq<Table>)
    ensures reply.RequestFailed? ==> tables == []
    ensures tables != [] ==> reply.Answered? && decode(StripFence(reply.content)) == Some(tables)
    ensures reply.Answered? && decode(StripFence(reply.content)).Some? ==> tables == decode(StripFence(reply.content)).value
    ensures reply.Answered? && decode(StripFence(reply.content)).None? ==> tables == []
  {
    match reply
    case RequestFailed => []
    case Answered(content) =>
      match decode(StripFence(content))
      case None => []
      case Some(tables) => tables
  }
}
