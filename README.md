# Mention-to-search bot: the `/slack/events` handler

This project models the deterministic part of a small Slack bot. When the bot
is mentioned, it normalizes the message text. It asks a chat-completion service
to rewrite that text into search keywords, runs a web search, and posts the
first three results back to the channel. The HTTP server, the completion,
search and Slack API calls, and the environment configuration are left out, as
a thin shell around that logic. The outcome of each outbound call is a
parameter of the model.

Modules, leaf first:

- `Wrappers` (`wrappers.dfy`): `Option`, for JavaScript values that may be
  absent (for the event's `type` and `text`, also a value that is not a
  string).
- `Text` (`text.dfy`): `String.prototype.trim`. The whitespace predicate lists
  the WhiteSpace and LineTerminator characters of ECMA-262, sections 12.2
  and 12.3.
- `Mention` (`mention.dfy`): `text.replace(/<@[^>]+>/, '').trim()`. A
  quantified reference definition of a match, `IsMention`, sits beside the
  scanning functions that find the leftmost one.
- `Refiner` (`refiner.dfy`): `refineQueryWithGPT`. This covers the request it
  builds and its fallback rule. The completion call itself is an
  `Option<string>`.
- `Format` (`format.dfy`): truncation to three items and the numbered
  entries. Also `Array.prototype.join`, with the offset of every part proved,
  and the message text with its header and its no-results fallback.
- `Events` (`events.dfy`): `HandleEvent` maps a request body, the completion
  outcome, the search outcome and the post outcome to a `Handling`. A
  `Handling` records the completion request, the search query, the posted
  message, whether the `catch` ran, and the response.

Two points where the code does less than a reader might expect; the model
follows the code:

- A Slack events endpoint is expected to answer every mention event with
  status 200, so that Slack does not retry it. In the code,
  `event.text.replace` (server.js:51) runs before the `try`. So an
  `app_mention` event whose `text` is not a string throws. The rejected
  promise of the async handler then leaves the request without a response. The
  model has this as `NoAnswer` (`Events.MentionWithoutTextUnanswered`).
- Search results also carry a snippet, but the mention handler uses only
  `title` and `link`, so only those two are modelled.

## Model

| member | source | states |
|---|---|---|
| Text.Trim | server.js:51 | the result has no whitespace at either end and is the slice of the input left after removing a whitespace prefix and a whitespace suffix |
| Text.TrimUnique | server.js:51 | the contract of `Trim` determines its result: any trimmed slice with only whitespace around it is `Trim(s)` |
| Text.TrimOfTrimmed | server.js:51 | a string without whitespace at either end is left unchanged by trimming |
| Text.TrimIdempotent | server.js:51 | trimming twice is trimming once |
| Mention.CloseFrom | server.js:51 | finds the first `>` at or after a position, or reports there is none |
| Mention.MentionAt | server.js:51 | a match of `<@[^>]+>` starting at `i` is found exactly when the reference definition holds, and its end is the one the definition gives |
| Mention.FindMention | server.js:51 | returns the leftmost match at or after `from`; `None` exactly when no match starts there or later |
| Mention.StripFirstMention | server.js:51 | without a match the text is unchanged; otherwise exactly the leftmost match is removed and the text before and after it is kept in order |
| Mention.Normalize | server.js:51 | the normalized text has no leading or trailing whitespace, and text without a mention is only trimmed |
| Mention.MentionInSlice | server.js:51 | a match inside a slice is a match of the whole string at the shifted position |
| Mention.NoMentionInSlice | server.js:51 | a slice of a mention-free string is mention-free |
| Mention.NoMentionInCore | server.js:51 | removing surrounding whitespace from a mention-free string leaves it mention-free |
| Mention.NormalizeKeepsNoMention | server.js:51 | normalizing mention-free text yields mention-free text |
| Mention.NormalizeIdempotentWithoutMention | server.js:51 | on text without a mention, normalizing twice is normalizing once |
| Mention.StripExample | server.js:51 | `"<@U01> pizza "` loses its mention and nothing else |
| Mention.TrimExample | server.js:51 | `" pizza "` trims to `"pizza"` |
| Mention.NormalizeExample | server.js:51 | `"<@U01> pizza "` normalizes to `"pizza"` |
| Mention.StripTwoMentions | server.js:51 | of two mentions only the leftmost is removed |
| Mention.StripOneMention | server.js:51 | a lone mention is removed completely |
| Mention.NormalizeNotIdempotentWithTwoMentions | server.js:51 | with two mentions a second normalization changes the result, so idempotence holds only without a mention |
| Mention.BareMarkerIsNotMention | server.js:51 | `<@>` with nothing between `@` and `>` is not a mention and survives normalization |
| Refiner.Prompt | server.js:23 | the definition is the user turn, the fixed instruction followed by the quoted text; `Refiner.PromptRoundTrip` states its property |
| Refiner.RefineRequest | server.js:24-30 | the definition is the request body: model, system persona, prompt and temperature 0.7; `Refiner.RefineRequestInjective` states its property |
| Refiner.PromptRoundTrip | server.js:23 | the user text can be read back from the prompt: the prompt quotes it verbatim |
| Refiner.RefineRequestInjective | server.js:23-30 | different user texts give different completion requests |
| Refiner.Refine | server.js:21-43 | on any failure the result is the input unchanged; on success it is the completion content with surrounding whitespace removed |
| Refiner.RefineTrimmedInput | server.js:38-41 | a trimmed input gives a trimmed result either way, and refining with an already refined content changes nothing |
| Format.Shown | server.js:65 | at most three items, taken from the front of the upstream list in order; all of them when there are fewer; a missing list is empty |
| Format.DigitChar | server.js:66 | the character for a digit is a decimal digit denoting it |
| Format.Decimal | server.js:66 | the rendering of an entry number is a non-empty string of decimal digits, with a leading `0` only for zero |
| Format.DecimalRoundTrip | server.js:66 | those digits denote the number |
| Format.Entry | server.js:66 | every entry is non-empty and starts with a digit |
| Format.Entries | server.js:66 | one entry per shown item |
| Format.JoinPart | server.js:66 | every part of a join appears unchanged at its offset |
| Format.JoinSeparator | server.js:66 | exactly one separator lies between two consecutive parts |
| Format.JoinLength | server.js:66 | the joined string ends with its last part |
| Format.Interpolate | server.js:66 | the definition renders a present field as itself and an absent one as `undefined`, as a template literal does |
| Format.Join | server.js:66 | the definition is `Array.prototype.join`; `Format.JoinPart`, `Format.JoinSeparator` and `Format.JoinLength` characterise it |
| Format.Formatted | server.js:65-66 | the definition joins the shown entries with a blank line; `Format.FormattedEntry`, `Format.FormattedSeparator` and `Format.FormattedEmptyIff` state its properties |
| Format.Body | server.js:72 | the body under the header is never empty and is either the fallback or the formatted list (the fallback replaces an empty formatted list); `Format.FallbackIffNoItems` says which |
| Format.Header | server.js:70 | the header embeds the refined query verbatim after `📍 *"` |
| Format.MessageText | server.js:70-72 | the message is the header, a blank line, then the body |
| Format.FormattedEntry | server.js:65-66 | entry `k` of the formatted list is `(k+1) + ". *" + title + "*\n" + link` for the `k`-th upstream item, at the offset the earlier entries leave |
| Format.FormattedSeparator | server.js:66 | consecutive entries are separated by `"\n\n"` |
| Format.FormattedEmptyIff | server.js:66 | the formatted list is empty exactly when no item is shown, and otherwise starts with `1` |
| Format.FallbackIffNoItems | server.js:72 | the body is the fallback `검색 결과가 없습니다.` exactly when the item list is missing or empty; otherwise it is the formatted list |
| Format.MessageStartsWithHeader | server.js:70-72 | the message starts with the header that quotes the refined query, then a blank line, then the fallback exactly when there are no items |
| Events.HandleEvent | server.js:45-88 | only a `url_verification` body is answered with a challenge; only a mention event whose text is not a string gets no answer; a post and a `catch` only happen after a search for a refined query; the lemmas below state each path |
| Events.UrlVerificationEchoes | server.js:48 | a `url_verification` body is answered with its `challenge`, status 200, and no outbound call |
| Events.OtherRequestsAcknowledged | server.js:85-86 | a body that is neither a handshake nor an `app_mention` event gets an empty 200 and no outbound call |
| Events.MentionAcknowledged | server.js:50-84 | a mention with text gets an empty 200 whatever the upstream calls do; the search is for the refined normalized text; a message is posted to the event's channel exactly when the search returned, and its text is `MessageText` of the refined query and the returned items, so it starts with the header and the entry and fallback lemmas apply to it; the `catch` runs exactly when the search or the post failed |
| Events.ResponseIndependentOfUpstream | server.js:45-88 | the response depends only on the request body, never on the completion, search or post outcome |
| Events.MentionWithoutTextUnanswered | server.js:51 | a mention event whose text is not a string gets no response, because the exception is raised outside the `try` |

## Left out

- HTTP transport: the Express app, CORS, body parsing, the `/` route, and `app.listen` with its port default (server.js:17-19, 90-92).
- The completion, search and `chat.postMessage` calls (server.js:24-36, 57-63, 68-78). Each is an abstract outcome: `Option<string>` for the completion content, `SearchOutcome` for the search, a boolean for the post. That boolean says whether the axios call to `chat.postMessage` resolved; Slack reports errors such as an unknown channel with status 200 and `ok: false`, axios resolves on those, and the `catch` does not run, so such a post counts as resolved.
- The search request parameters and the authorization headers, which carry credentials read from the environment (server.js:15, 33, 59-60, 75).
- `console.error` logging (server.js:40, 82). The model records only whether the `catch` of the search block ran.
- Async sequencing: the calls run one after another, with no concurrency to model.
- String encoding: JavaScript strings are UTF-16 code units and the model's are Unicode characters. They differ only for characters outside the Basic Multilingual Plane, which neither the regular expression nor `trim` treats specially.
- Field values that are present but neither a string nor absent, such as a numeric `title`. Also `items` elements that are `null`, which make the `map` throw into the `catch`. `SearchFailed` covers every exception in the `try` before the post, but absent fields are rendered as `undefined` and no other conversion is modelled.
- What Express does with an async handler whose promise is rejected. `NoAnswer` stands for "no response from this handler", whichever Express version is used. With Express 4 the rejection is unhandled, and on Node 15 or later the default unhandled-rejection mode ends the whole process, not only this request; the model does not capture that.
