/** The `POST /slack/events` handler as a function from the request body and
    the outcomes of its outbound calls to what it sends and how it answers. */
module Events {
  import opened Wrappers
  import opened Mention
  import opened Refiner
  import opened Format

  /** The `event` field of the request body. A field that is absent is
      `None`; so is a `type` or `text` that is not a string, since the code
      compares the one with a string and calls a string method on the other. */
  datatype SlackEvent = SlackEvent(
    eventType: Option<string>,
    text: Option<string>,
    channel: Option<string>)

  /** The request body `{type, challenge, event}`; an `event` that is absent or
      falsy is `None`. */
  datatype RequestBody = RequestBody(
    bodyType: Option<string>,
    challenge: Option<string>,
    event: Option<SlackEvent>)

  /** Outcome of the search call: a failure (transport error, or a response
      whose `items` cannot be sliced), or the response's `items` field. */
  datatype SearchOutcome = SearchFailed | SearchReturned(items: Option<seq<SearchItem>>)

  /** What the handler answers. `EchoChallenge` is the JSON object
      `{challenge}` (an absent challenge serializes as `{}`); `EmptyOk` is
      status 200 with an empty body; `NoAnswer` is an exception thrown outside
      the `try`, which leaves the request without a response. */
  datatype Response = EchoChallenge(challenge: Option<string>) | EmptyOk | NoAnswer

  /** The `chat.postMessage` body. */
  datatype PostMessage = PostMessage(channel: Option<string>, text: string)

  /** Everything the handler does: the completion request it sends, the query
      it searches for, the message it posts, whether the `catch` of the search
      block ran, and its response. */
  datatype Handling = Handling(
    completionRequest: Option<ChatRequest>,
    searchQuery: Option<string>,
    posted: Option<PostMessage>,
    caught: bool,
    response: Response)

  /** The HTTP status of a response, if one is sent. */
  function Status(r: Response): Option<nat>
  {
    match r
    case EchoChallenge(_) => Some(200)
    case EmptyOk => Some(200)
    case NoAnswer => None
  }

  predicate IsUrlVerification(body: RequestBody) {
    body.bodyType == Some("url_verification")
  }

  predicate IsAppMention(body: RequestBody) {
    body.event.Some? && body.event.value.eventType == Some("app_mention")
  }

  /** The handler. `completion` is the outcome of the refiner's call,
      `search` that of the search call, and `postOk` whether the axios call
      to `chat.postMessage` resolved. (Slack reports errors such as an unknown
      channel with status 200 and `ok: false`; axios resolves on those, so the
      `catch` does not run for them.) */
  function HandleEvent(body: RequestBody, completion: Option<string>,
                       search: SearchOutcome, postOk: bool): (h: Handling)
    ensures h.response.EchoChallenge? <==> IsUrlVerification(body)
    ensures h.response == NoAnswer <==>
              !IsUrlVerification(body) && IsAppMention(body) && body.event.value.text.None?
    ensures h.posted.Some? ==> h.completionRequest.Some? && h.searchQuery.Some?
    ensures h.caught ==> h.searchQuery.Some?
  {
    if IsUrlVerification(body) then
      Handling(None, None, None, false, EchoChallenge(body.challenge))
    else if IsAppMention(body) then
      var e := body.event.value;
      match e.text
      case None =>
        // `event.text.replace` throws before the `try` block
        Handling(None, None, None, false, NoAnswer)
      case Some(t) =>
        var rawText := Normalize(t);
        var refined := Refine(rawText, completion);
        match search
        case SearchFailed =>
          Handling(Some(RefineRequest(rawText)), Some(refined), None, true, EmptyOk)
        case SearchReturned(items) =>
          var msg := PostMessage(e.channel, MessageText(refined, items));
          Handling(Some(RefineRequest(rawText)), Some(refined), Some(msg), !postOk, EmptyOk)
    else
      Handling(None, None, None, false, EmptyOk)
  }

  /** A URL-verification handshake echoes the challenge with status 200 and
      makes no outbound call. */
  lemma UrlVerificationEchoes(body: RequestBody, completion: Option<string>,
                              search: SearchOutcome, postOk: bool)
    requires IsUrlVerification(body)
    ensures var h := HandleEvent(body, completion, search, postOk);
            && h.response == EchoChallenge(body.challenge)
            && Status(h.response) == Some(200)
            && h.completionRequest.None? && h.searchQuery.None? && h.posted.None?
  {
  }

  /** Any other request that is not a mention event is acknowledged with an
      empty 200 and makes no outbound call. */
  lemma OtherRequestsAcknowledged(body: RequestBody, completion: Option<string>,
                                  search: SearchOutcome, postOk: bool)
    requires !IsUrlVerification(body) && !IsAppMention(body)
    ensures var h := HandleEvent(body, completion, search, postOk);
            && h.response == EmptyOk && Status(h.response) == Some(200)
            && h.completionRequest.None? && h.searchQuery.None? && h.posted.None?
  {
  }

  /** A mention event with text is acknowledged with an empty 200 whatever the
      completion, search and post calls do; the search uses the refined
      normalized text, and a message is posted exactly when the search
      returned, beginning with the header that quotes the refined query. */
  lemma MentionAcknowledged(body: RequestBody, completion: Option<string>,
                            search: SearchOutcome, postOk: bool)
    requires !IsUrlVerification(body) && IsAppMention(body)
    requires body.event.value.text.Some?
    ensures var h := HandleEvent(body, completion, search, postOk);
            var rawText := Normalize(body.event.value.text.value);
            var refined := Refine(rawText, completion);
            && h.response == EmptyOk && Status(h.response) == Some(200)
            && h.completionRequest == Some(RefineRequest(rawText))
            && h.searchQuery == Some(refined)
            && (h.posted.Some? <==> search.SearchReturned?)
            && (h.posted.Some? ==>
                  && h.posted.value.channel == body.event.value.channel
                  && h.posted.value.text == MessageText(refined, search.items)
                  && |Header(refined)| < |h.posted.value.text|
                  && h.posted.value.text[..|Header(refined)|] == Header(refined))
            && (h.caught <==> search.SearchFailed? || !postOk)
  {
    if search.SearchReturned? {
      MessageStartsWithHeader(Refine(Normalize(body.event.value.text.value), completion), search.items);
    }
  }

  /** Which response is sent depends only on the request body, never on the
      outcome of the outbound calls. */
  lemma ResponseIndependentOfUpstream(body: RequestBody,
                                      c1: Option<string>, s1: SearchOutcome, p1: bool,
                                      c2: Option<string>, s2: SearchOutcome, p2: bool)
    ensures HandleEvent(body, c1, s1, p1).response == HandleEvent(body, c2, s2, p2).response
  {
  }

  /** A mention event whose text is not a string gets no response at all: the
      exception happens before the `try` block. */
  lemma MentionWithoutTextUnanswered(body: RequestBody, completion: Option<string>,
                                     search: SearchOutcome, postOk: bool)
    requires !IsUrlVerification(body) && IsAppMention(body)
    requires body.event.value.text.None?
    ensures var h := HandleEvent(body, completion, search, postOk);
            h.response == NoAnswer && Status(h.response).None?
            && h.completionRequest.None? && h.searchQuery.None? && h.posted.None?
  {
  }
}
