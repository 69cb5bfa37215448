/** `refineQueryWithGPT`: rewrite the user's text into search keywords with a
    chat-completion call, falling back to the text itself on any failure. */
module Refiner {
  import opened Wrappers
  import opened Text

  /** The request body sent to the completion endpoint. */
  datatype ChatRequest = ChatRequest(
    model: string,
    systemContent: string,
    userContent: string,
    temperature: real)

  const Model := "gpt-3.5-turbo"
  const SystemPersona := "너는 사용자의 자연어 질문을 검색 키워드로 바꿔주는 AI야."
  const PromptLead := "사용자가 말한 내용을 검색에 적합한 핵심 키워드로 바꿔줘:"
  const Temperature: real := 0.7

  /** The user turn: the fixed instruction, then the text in double quotes. */
  function Prompt(userText: string): string
  {
    PromptLead + "\"" + userText + "\""
  }

  function RefineRequest(userText: string): ChatRequest
  {
    ChatRequest(Model, SystemPersona, Prompt(userText), Temperature)
  }

  /** Recovers the quoted text from a user turn built by `Prompt`. */
  function QuotedText(prompt: string): Option<string>
  {
    var n := |PromptLead| + 1;
    if |prompt| >= n + 1 && prompt[..n] == PromptLead + "\"" && prompt[|prompt| - 1] == '"' then
      Some(prompt[n..|prompt| - 1])
    else
      None
  }

  /** The prompt carries the user's text verbatim: it can be read back. */
  lemma PromptRoundTrip(userText: string)
    ensures QuotedText(Prompt(userText)) == Some(userText)
  {
    var p := Prompt(userText);
    var n := |PromptLead| + 1;
    assert p[..n] == PromptLead + "\"";
    assert p[n..|p| - 1] == userText;
  }

  /** Different texts give different requests. */
  lemma RefineRequestInjective(u: string, v: string)
    requires RefineRequest(u) == RefineRequest(v)
    ensures u == v
  {
    PromptRoundTrip(u);
    PromptRoundTrip(v);
  }

  /** The refiner's result. `completion` is the outcome of the call:
      `Some(content)` when the response carried
      `data.choices[0].message.content` as a string, `None` when the call
      failed or the response had another shape (the `catch` branch). */
  function Refine(userText: string, completion: Option<string>): (r: string)
    ensures completion.None? ==> r == userText
    ensures completion.Some? ==> IsTrimmed(r) && exists a: nat :: IsCoreOf(completion.value, r, a)
  {
    match completion
    case Some(content) => Trim(content)
    case None => userText
  }

  /** A successful refinement is already trimmed, so refining the same
      content again changes nothing; a failure leaves trimmed input trimmed. */
  lemma RefineTrimmedInput(userText: string, completion: Option<string>)
    requires IsTrimmed(userText)
    ensures IsTrimmed(Refine(userText, completion))
    ensures completion.Some? ==> Refine(userText, Some(Refine(userText, completion))) == Refine(userText, completion)
  {
    if completion.Some? {
      TrimIdempotent(completion.value);
    }
  }
}
