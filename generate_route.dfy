/** The `POST` handler of app/api/generate/route.ts: it validates the query,
    asks the vector index for five passages, maps the matches to passages
    with JavaScript coercions and defaults, has the model answer, and returns
    the answer with the passages it was based on. Every exception becomes a
    500 response. The two services are parameters, and the handler's result
    records which of them it called and with what. */
module GenerateRoute {
  import opened Types
  import opened Text
  import opened JsValues
  import opened Pinecone
  import Gemini

  const QueryRequired := "Query is required"
  const GenerateFailed := "Failed to generate response"
  const NoContent := "No content available"

  /** How many passages the handler asks for. */
  const TopK: int := 5

  /** The request body: not JSON at all, the JSON `null` (whose
      destructuring throws), or a value with the two fields the handler
      reads, each possibly absent. A JSON value that is not an object reads
      as one with neither field. */
  datatype Request =
    | Unparsable
    | NullBody
    | Body(query: Option<Json>, conversationHistory: Option<seq<Message>>)

  datatype Response =
    | Failure(status: int, error: string)
    | Success(response: string, sources: seq<RetrievedContext>)

  /** A call the handler made to a service. */
  datatype Call =
    | IndexQuery(text: string, topK: Json)
    | Generation(query: string, contexts: seq<RetrievedContext>, history: seq<Message>)

  datatype Outcome = Outcome(response: Response, calls: seq<Call>)

  /** `match.id || \`context-${index}\``. */
  function ContextId(index: nat, m: Match): (r: string)
    ensures m.id != "" ==> r == m.id
    ensures m.id == "" ==> r == "context-" + NatToString(index)
  {
    if m.id != "" then m.id else "context-" + NatToString(index)
  }

  /** `String(field || fallback)`. */
  function StringOr(field: Option<Json>, fallback: string): (r: string)
    ensures !Truthy(field) ==> r == fallback
    ensures Truthy(field) ==> r == ToJsString(field.value)
    ensures field.Some? && field.value.JStr? && field.value.s != "" ==> r == field.value.s
  {
    if Truthy(field) then ToJsString(field.value) else fallback
  }

  /** `Number(field) || 0`: NaN and 0 both become 0. */
  function NumberOrZero(field: Option<Json>): (r: int)
    ensures field.None? ==> r == 0
    ensures field.Some? && field.value.JNum? ==> r == field.value.n
    // NaN reads as 0; any number `Number` reads, a numeric string's included, is kept.
    ensures ToJsNumber(field).None? ==> r == 0
    ensures ToJsNumber(field).Some? ==> r == ToJsNumber(field).value
  {
    match ToJsNumber(field)
    case Some(n) => n
    case None => 0
  }

  /** `match.score || 0`. */
  function ScoreOrZero(score: Option<real>): real
  {
    if score.Some? then score.value else 0.0
  }

  /** The passage the handler makes of match `index`: every field has a
      default, and the metadata fields are coerced to strings and a number. */
  function ToContext(index: nat, m: Match): (c: RetrievedContext)
    ensures c.id == (if m.id != "" then m.id else "context-" + NatToString(index))
    ensures !Truthy(MetadataField(m, "text")) ==> c.text == NoContent
    ensures Truthy(MetadataField(m, "text")) ==> c.text == ToJsString(MetadataField(m, "text").value)
    ensures m.score.None? ==> c.score == 0.0
    ensures m.score.Some? ==> c.score == m.score.value
    ensures c.metadata.Some? && c.metadata.value.title.Some? && c.metadata.value.section.Some?
      && c.metadata.value.page.Some?
    ensures !Truthy(MetadataField(m, "title")) ==> c.metadata.value.title == Some("")
    ensures Truthy(MetadataField(m, "title")) ==>
      c.metadata.value.title == Some(ToJsString(MetadataField(m, "title").value))
    ensures !Truthy(MetadataField(m, "section")) ==> c.metadata.value.section == Some("")
    ensures Truthy(MetadataField(m, "section")) ==>
      c.metadata.value.section == Some(ToJsString(MetadataField(m, "section").value))
    ensures MetadataField(m, "page").None? ==> c.metadata.value.page == Some(0)
    ensures c.metadata.value.page == Some(NumberOrZero(MetadataField(m, "page")))
  {
    RetrievedContext(
      ContextId(index, m),
      StringOr(MetadataField(m, "text"), NoContent),
      ScoreOrZero(m.score),
      Some(ContextMetadata(
        Some(StringOr(MetadataField(m, "title"), "")),
        Some(StringOr(MetadataField(m, "section"), "")),
        Some(NumberOrZero(MetadataField(m, "page"))))))
  }

  /** `matches.map(...)`: one passage per match, in the same order. */
  function ToContexts(matches: seq<Match>): (r: seq<RetrievedContext>)
    ensures |r| == |matches|
    ensures forall i :: 0 <= i < |matches| ==> r[i] == ToContext(i, matches[i])
  {
    seq(|matches|, i requires 0 <= i < |matches| => ToContext(i, matches[i]))
  }

  /** The handler. */
  function Post(request: Request, index: Index, model: Gemini.Model): (out: Outcome)
    // A body that is not JSON, or is `null`, throws: a 500 and no service is called.
    ensures !request.Body? ==> out == Outcome(Failure(500, GenerateFailed), [])
    // A missing or falsy query is a 400 and no service is called.
    ensures request.Body? && !Truthy(request.query) ==>
      out == Outcome(Failure(400, QueryRequired), [])
    // With a truthy query every failure is the one 500: the 400 is only ever
    // the answer to a falsy query.
    ensures request.Body? && Truthy(request.query) && out.response.Failure? ==>
      out.response == Failure(500, GenerateFailed)
    // The index is asked for five passages of the query text, before anything else.
    ensures |out.calls| > 0 ==>
      && request.Body? && request.query.Some? && request.query.value.JStr?
      && out.calls[0] == IndexQuery(request.query.value.s, JNum(TopK))
    // The model is consulted only when the index answered.
    ensures |out.calls| <= 2
    ensures |out.calls| == 2 ==> index(out.calls[0].text, JNum(TopK)).Some?
    // On success the sources are exactly the passages the answer was generated from,
    // and the history defaults to none.
    ensures out.response.Success? ==>
      && |out.calls| == 2
      && out.calls[1] == Generation(out.calls[0].text, out.response.sources,
           if request.conversationHistory.Some? then request.conversationHistory.value else [])
      && out.response.sources == ToContexts(index(out.calls[0].text, JNum(TopK)).value)
      && Gemini.GenerateResponse(out.calls[0].text, out.response.sources, out.calls[1].history, model)
         == Ok(out.response.response)
  {
    match request
    case Unparsable => Outcome(Failure(500, GenerateFailed), [])
    case NullBody => Outcome(Failure(500, GenerateFailed), [])
    case Body(query, history) =>
      if !Truthy(query) then Outcome(Failure(400, QueryRequired), [])
      else if !query.value.JStr? then
        // The embedding of a non-string query throws before the index is consulted.
        assert QueryPinecone(query.value, JNum(TopK), index).None?;
        Outcome(Failure(500, GenerateFailed), [])
      else
        var text := query.value.s;
        var asked := [IndexQuery(text, JNum(TopK))];
        match QueryPinecone(query.value, JNum(TopK), index)
        case None => Outcome(Failure(500, GenerateFailed), asked)
        case Some(matches) =>
          var contexts := ToContexts(matches);
          var turns := if history.Some? then history.value else [];
          var calls := asked + [Generation(text, contexts, turns)];
          match Gemini.GenerateResponse(text, contexts, turns, model)
          case Err(_) => Outcome(Failure(500, GenerateFailed), calls)
          case Ok(answer) => Outcome(Success(answer, contexts), calls)
  }

  /** A non-empty string query is sent to the index; when the index
      answers, the model is asked with the passages made of the matches and
      the request's history, and the request succeeds exactly when the
      model does, with the model's answer and those passages. */
  lemma AnsweredQuery(query: string, history: Option<seq<Message>>, index: Index, model: Gemini.Model)
    requires query != ""
    ensures var out := Post(Body(Some(JStr(query)), history), index, model);
      var answer := index(query, JNum(TopK));
      var turns := if history.Some? then history.value else [];
      && |out.calls| >= 1
      && out.calls[0] == IndexQuery(query, JNum(TopK))
      && (answer.Some? ==>
        var generated := Gemini.GenerateResponse(query, ToContexts(answer.value), turns, model);
        && |out.calls| == 2
        && out.calls[1] == Generation(query, ToContexts(answer.value), turns)
        && (out.response.Success? <==> generated.Ok?)
        && (generated.Ok? ==> out.response == Success(generated.value, ToContexts(answer.value))))
  {
  }

  /** A failing index call means the model is never consulted. */
  lemma IndexFailureSkipsGeneration(request: Request, index: Index, model: Gemini.Model)
    requires request.Body? && request.query.Some? && request.query.value.JStr?
    requires request.query.value.s != ""
    requires index(request.query.value.s, JNum(TopK)).None?
    ensures Post(request, index, model) == Outcome(Failure(500, GenerateFailed), [IndexQuery(request.query.value.s, JNum(TopK))])
  {
  }

  /** Passages whose match has no id get `context-<position>` ids, which
      differ from one another. */
  lemma DefaultIdsDistinct(matches: seq<Match>, i: nat, j: nat)
    requires i < j < |matches| && matches[i].id == "" && matches[j].id == ""
    ensures ToContexts(matches)[i].id != ToContexts(matches)[j].id
  {
    var a := "context-" + NatToString(i);
    var b := "context-" + NatToString(j);
    if a == b {
      assert a[8..] == NatToString(i) && b[8..] == NatToString(j);
      NatToStringInjective(i, j);
    }
  }

  /** A page number stored as its decimal text reads as that number. */
  lemma NumericPageReadsAsNumber(n: nat)
    ensures NumberOrZero(Some(JStr(NatToString(n)))) == n
  {
    NatToStringRoundTrip(n);
  }

  /** The pages the seeding script stores are texts `page_<n>`, which
      `Number` does not read: every such page becomes 0. */
  lemma SeededPageReadsAsZero(n: nat)
    ensures NumberOrZero(Some(JStr("page_" + NatToString(n)))) == 0
  {
    var s := "page_" + NatToString(n);
    assert s[0] == 'p' && s[|s| - 1] == NatToString(n)[|NatToString(n)| - 1];
    assert IsDigit(s[|s| - 1]);
    TrimOfTrimmed(s, Js);
    assert !AllDigits(s) && !AllDigits(s[1..]) by {
      assert !IsDigit(s[0]) && s[1..][3] == s[4] == '_';
    }
  }
}
