/** The `POST` handler of app/api/retrieve/route.ts: it validates the query,
    asks the vector index for `topK` passages (five unless the body says
    otherwise) and returns the matches as passages, with defaults for the id,
    the text and the score but the metadata copied as it is. Every exception
    becomes a 500 response. The index is a parameter, and the handler's
    result records whether it was called and with what. */
module RetrieveRoute {
  import opened Types
  import opened Text
  import opened JsValues
  import opened Pinecone

  const QueryRequired := "Query is required"
  const RetrieveFailed := "Failed to retrieve context"
  const NoContent := "No content available"

  /** The `topK` used when the body has none. */
  const DefaultTopK: int := 5

  /** The request body, read as in the generate handler: a JSON value that
      is not an object reads as one with neither field. */
  datatype Request =
    | Unparsable
    | NullBody
    | Body(query: Option<Json>, topK: Option<Json>)

  /** The metadata fields as the match holds them; `None` is a field that
      is absent and left out of the response. */
  datatype RawMetadata = RawMetadata(title: Option<Json>, section: Option<Json>, page: Option<Json>)

  /** A passage as this handler returns it: the text is not coerced to a
      string. */
  datatype RawContext = RawContext(id: string, text: Json, score: real, metadata: RawMetadata)

  datatype Response =
    | Failure(status: int, error: string)
    | Success(context: seq<RawContext>)

  /** The index call the handler made, if any. */
  datatype Outcome = Outcome(response: Response, asked: Option<(string, Json)>)

  /** The passage the handler makes of match `index`. */
  function ToRawContext(index: nat, m: Match): (c: RawContext)
    ensures c.id == (if m.id != "" then m.id else "context-" + NatToString(index))
    ensures Truthy(MetadataField(m, "text")) ==> c.text == MetadataField(m, "text").value
    ensures !Truthy(MetadataField(m, "text")) ==> c.text == JStr(NoContent)
    ensures c.score == (if m.score.Some? then m.score.value else 0.0)
    ensures c.metadata.title == MetadataField(m, "title")
    ensures c.metadata.section == MetadataField(m, "section")
    ensures c.metadata.page == MetadataField(m, "page")
  {
    RawContext(
      if m.id != "" then m.id else "context-" + NatToString(index),
      if Truthy(MetadataField(m, "text")) then MetadataField(m, "text").value else JStr(NoContent),
      if m.score.Some? then m.score.value else 0.0,
      RawMetadata(MetadataField(m, "title"), MetadataField(m, "section"), MetadataField(m, "page")))
  }

  /** `matches.map(...)`: one passage per match, in the same order. */
  function ToRawContexts(matches: seq<Match>): (r: seq<RawContext>)
    ensures |r| == |matches|
    ensures forall i :: 0 <= i < |matches| ==> r[i] == ToRawContext(i, matches[i])
  {
    seq(|matches|, i requires 0 <= i < |matches| => ToRawContext(i, matches[i]))
  }

  /** `topK = 5`: the default replaces only a missing value; `null` and
      every other value are passed on unchanged. */
  function EffectiveTopK(topK: Option<Json>): (r: Json)
    ensures topK.None? ==> r == JNum(DefaultTopK)
    ensures topK.Some? ==> r == topK.value
  {
    if topK.Some? then topK.value else JNum(DefaultTopK)
  }

  /** The handler. */
  function Post(request: Request, index: Index): (out: Outcome)
    // A missing or falsy query is a 400 and the index is not asked.
    ensures request.Body? && !Truthy(request.query) ==>
      out == Outcome(Failure(400, QueryRequired), None)
    // A body that cannot be read is a 500, not a 400.
    ensures !request.Body? ==> out == Outcome(Failure(500, RetrieveFailed), None)
    // With a truthy query every failure is the one 500: the 400 is only ever
    // the answer to a falsy query.
    ensures request.Body? && Truthy(request.query) && out.response.Failure? ==>
      out.response == Failure(500, RetrieveFailed)
    // The index is asked with the query text and the effective topK.
    ensures out.asked.Some? ==>
      && request.Body? && request.query.Some? && request.query.value.JStr?
      && out.asked.value == (request.query.value.s, EffectiveTopK(request.topK))
    // On success the passages are the index's matches, mapped one by one.
    ensures out.response.Success? ==>
      && out.asked.Some?
      && index(out.asked.value.0, out.asked.value.1).Some?
      && out.response.context == ToRawContexts(index(out.asked.value.0, out.asked.value.1).value)
  {
    match request
    case Unparsable => Outcome(Failure(500, RetrieveFailed), None)
    case NullBody => Outcome(Failure(500, RetrieveFailed), None)
    case Body(query, topK) =>
      if !Truthy(query) then Outcome(Failure(400, QueryRequired), None)
      else if !query.value.JStr? then
        // The embedding of a non-string query throws before the index is consulted.
        Outcome(Failure(500, RetrieveFailed), None)
      else
        var k := EffectiveTopK(topK);
        var asked := Some((query.value.s, k));
        match QueryPinecone(query.value, k, index)
        case None => Outcome(Failure(500, RetrieveFailed), asked)
        case Some(matches) => Outcome(Success(ToRawContexts(matches)), asked)
  }

  /** A string query is answered with exactly as many passages as the index
      returned matches, or with the 500 when the index fails. */
  lemma AnsweredQuery(query: string, topK: Option<Json>, index: Index)
    requires query != ""
    ensures var out := Post(Body(Some(JStr(query)), topK), index);
      var answer := index(query, EffectiveTopK(topK));
      && out.asked == Some((query, EffectiveTopK(topK)))
      && (answer.None? ==> out.response == Failure(500, RetrieveFailed))
      && (answer.Some? ==> out.response.Success? && |out.response.context| == |answer.value|)
  {
  }
}
