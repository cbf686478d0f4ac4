/** The conversation state of the home page (app/page.tsx): the message
    list, whether a reply is awaited, the id of the stored session and
    whether someone is signed in. Each handler is a method; a handler that
    awaits a request is split at the await, the first half returning the
    request it sends and a second method taking the outcome. Message ids
    come from the clock and are parameters here. */
module HomePage {
  import opened Types
  import opened Slices
  import GenerateRoute
  import Gemini

  /** How many earlier messages are sent with a question. */
  const HistoryLength: nat := 6

  /** How many characters of the first question a session title keeps. */
  const TitleLength: nat := 50

  const Apology := "I apologize, but I encountered an error while processing your request. Please try again later."
  const NewChatTitle := "New Chat"

  /** The body of the `POST /api/generate` request. */
  datatype GenerateRequest = GenerateRequest(query: string, conversationHistory: seq<Message>)

  /** The request a save sends, if any. */
  datatype SaveRequest =
    | NoSave
    | Put(sessionId: string, title: string, messages: seq<Message>)
    | Post(title: string, messages: seq<Message>)

  /** What loading a stored session gave: nothing (a failed response or an
      exception), or the session with its message list, possibly absent. */
  datatype Loaded = NotLoaded | LoadedSession(messages: Option<seq<Message>>)

  /** The assistant message added once the generate request is over.
      `None` is a request that threw; a handler response that is not a
      success is not `ok`, and both give the apology. */
  function ReplyMessage(id: string, outcome: Option<GenerateRoute.Response>): (m: Message)
    ensures m.role == Assistant && m.id == id
    ensures outcome.Some? && outcome.value.Success? ==>
      m.content == outcome.value.response && m.sources == Some(outcome.value.sources)
    ensures !(outcome.Some? && outcome.value.Success?) ==> m.content == Apology && m.sources == None
  {
    if outcome.Some? && outcome.value.Success? then
      Message(id, Assistant, outcome.value.response, Some(outcome.value.sources))
    else Message(id, Assistant, Apology, None)
  }

  /** `messages.find(m => m.role === 'user')`, as a position. */
  function FirstUserMessage(ms: seq<Message>): (r: Option<nat>)
    ensures r.Some? ==> r.value < |ms| && ms[r.value].role == User
    ensures r.Some? ==> forall j :: 0 <= j < r.value ==> ms[j].role != User
    ensures r.None? ==> forall j :: 0 <= j < |ms| ==> ms[j].role != User
  {
    if ms == [] then None
    else if ms[0].role == User then Some(0)
    else
      match FirstUserMessage(ms[1..])
      case None => None
      case Some(i) => Some(i + 1)
  }

  /** `s.substring(0, 50)`. */
  function TitlePrefix(s: string): (r: string)
    ensures |r| <= TitleLength && r <= s
    ensures |s| <= TitleLength ==> r == s
  {
    s[..Min(TitleLength, |s|)]
  }

  /** The title expression as written: `find(...)?.content.substring(0, 50)
      + '...' || 'New Chat'`. With no user message the optional chain gives
      `undefined`, which the concatenation turns into the text
      `"undefined"`; the result is never empty, so the fallback is never
      taken. */
  function TitleAsWritten(ms: seq<Message>): string
  {
    var first := match FirstUserMessage(ms)
      case Some(i) => TitlePrefix(ms[i].content)
      case None => "undefined";
    var title := first + "...";
    if title != "" then title else NewChatTitle
  }

  /** The fallback of the title is dead code, and a conversation without a
      question of the user is titled `undefined...`. */
  lemma TitleFallbackUnreachable(ms: seq<Message>)
    ensures TitleAsWritten(ms) != NewChatTitle
    ensures FirstUserMessage(ms).None? ==> TitleAsWritten(ms) == "undefined..."
  {
    var t := TitleAsWritten(ms);
    assert t[|t| - 1] == '.';
    assert NewChatTitle[|NewChatTitle| - 1] == 't';
  }

  /** The session title: the first 50 characters of the first question of
      the user followed by `...`, or `New Chat` when there is none. */
  function SessionTitle(ms: seq<Message>): (r: string)
    ensures FirstUserMessage(ms).None? ==> r == NewChatTitle
    ensures FirstUserMessage(ms).Some? ==>
      var content := ms[FirstUserMessage(ms).value].content;
      && |r| == Min(TitleLength, |content|) + 3
      && r[..|r| - 3] <= content && r[|r| - 3..] == "..."
  {
    match FirstUserMessage(ms)
    case Some(i) =>
      var content := ms[i].content;
      var r := TitlePrefix(content) + "...";
      assert r[..|r| - 3] == TitlePrefix(content);
      r
    case None => NewChatTitle
  }

  /** The corrected title differs from the written one only for a
      conversation without a question of the user. */
  lemma TitlesAgreeWithQuestion(ms: seq<Message>)
    ensures FirstUserMessage(ms).Some? <==> SessionTitle(ms) == TitleAsWritten(ms)
  {
    if FirstUserMessage(ms).None? {
      TitleFallbackUnreachable(ms);
    }
  }

  /** The history a question is sent with is all the prompt uses: the model
      sees the same turns as it would with the whole conversation. */
  lemma SentHistoryIsEnough(ms: seq<Message>)
    ensures Gemini.HistoryText(TakeLast(ms, HistoryLength)) == Gemini.HistoryText(ms)
  {
    TakeLastIdempotent(ms, HistoryLength);
    assert TakeLast(TakeLast(ms, HistoryLength), Gemini.HistoryTurns) == TakeLast(ms, Gemini.HistoryTurns);
    var a := Gemini.HistoryLines(TakeLast(ms, HistoryLength));
    var b := Gemini.HistoryLines(ms);
    assert |a| == |b|;
    forall j | 0 <= j < |a| ensures a[j] == b[j] {
      var recent := TakeLast(ms, HistoryLength);
      assert recent[|recent| - |a| + j] == ms[|ms| - |b| + j];
    }
  }

  class Home {
    var messages: seq<Message>
    var isLoading: bool
    var currentSessionId: Option<string>
    var signedIn: bool

    /** The page as first rendered: no messages, nothing pending, no
        session and no one signed in until the session check answers. */
    constructor()
      ensures messages == [] && !isLoading && currentSessionId == None && !signedIn
    {
      messages := [];
      isLoading := false;
      currentSessionId := None;
      signedIn := false;
    }

    /** The authentication listener: `setUser(session?.user ?? null)`. */
    method AuthChanged(user: bool)
      modifies this
      ensures signedIn == user
      ensures messages == old(messages) && isLoading == old(isLoading)
      ensures currentSessionId == old(currentSessionId)
    {
      signedIn := user;
    }

    /** `handleSendMessage` up to the request: the question is appended and
        the page waits; the request carries the question and the last six
        messages from before it. */
    method SendMessage(content: string, id: string) returns (request: GenerateRequest)
      modifies this
      ensures messages == old(messages) + [Message(id, User, content, None)]
      ensures isLoading
      ensures request == GenerateRequest(content, TakeLast(old(messages), HistoryLength))
      ensures currentSessionId == old(currentSessionId) && signedIn == old(signedIn)
    {
      request := GenerateRequest(content, TakeLast(messages, HistoryLength));
      messages := messages + [Message(id, User, content, None)];
      isLoading := true;
    }

    /** `handleSendMessage` after the request: exactly one assistant
        message is appended, the answer or the apology, and the page stops
        waiting whatever happened. */
    method CompleteSend(outcome: Option<GenerateRoute.Response>, id: string)
      modifies this
      ensures messages == old(messages) + [ReplyMessage(id, outcome)]
      ensures !isLoading
      ensures currentSessionId == old(currentSessionId) && signedIn == old(signedIn)
    {
      messages := messages + [ReplyMessage(id, outcome)];
      isLoading := false;
    }

    /** `handleRegenerate`: with at least two messages of which the one
        before last is a question, the last message is dropped and that
        question is sent again, so it appears twice in a row. The history
        sent is taken from the messages before the drop. Otherwise nothing
        happens. */
    method Regenerate(id: string) returns (request: Option<GenerateRequest>)
      modifies this
      ensures var n := |old(messages)|;
        n >= 2 && old(messages)[n - 2].role == User ==>
          && request == Some(GenerateRequest(old(messages)[n - 2].content, TakeLast(old(messages), HistoryLength)))
          && messages == old(messages)[..n - 1] + [Message(id, User, old(messages)[n - 2].content, None)]
          && messages[n - 2].role == User && messages[n - 1].role == User
          && messages[n - 2].content == messages[n - 1].content
          && isLoading
      ensures var n := |old(messages)|;
        !(n >= 2 && old(messages)[n - 2].role == User) ==>
          request == None && messages == old(messages) && isLoading == old(isLoading)
      ensures currentSessionId == old(currentSessionId) && signedIn == old(signedIn)
    {
      if |messages| >= 2 && messages[|messages| - 2].role == User {
        var question := messages[|messages| - 2];
        var snapshot := messages;
        messages := messages[..|messages| - 1];
        request := Some(GenerateRequest(question.content, TakeLast(snapshot, HistoryLength)));
        messages := messages + [Message(id, User, question.content, None)];
        isLoading := true;
      } else {
        request := None;
      }
    }

    /** `handleSessionSelect`: a loaded session replaces the messages, an
        absent list reading as none, and becomes the current session; a
        failed load changes nothing. */
    method SelectSession(sessionId: string, loaded: Loaded)
      modifies this
      ensures loaded.LoadedSession? ==>
        && messages == (if loaded.messages.Some? then loaded.messages.value else [])
        && currentSessionId == Some(sessionId)
      ensures loaded.NotLoaded? ==> messages == old(messages) && currentSessionId == old(currentSessionId)
      ensures isLoading == old(isLoading) && signedIn == old(signedIn)
    {
      if loaded.LoadedSession? {
        messages := if loaded.messages.Some? then loaded.messages.value else [];
        currentSessionId := Some(sessionId);
      }
    }

    /** `handleNewChat`. */
    method NewChat()
      modifies this
      ensures messages == [] && currentSessionId == None
      ensures isLoading == old(isLoading) && signedIn == old(signedIn)
    {
      messages := [];
      currentSessionId := None;
    }

    /** `handleLogout`, once the sign-out is done; the signed-in flag falls
        when the authentication listener hears of it. */
    method Logout()
      modifies this
      ensures messages == [] && currentSessionId == None
      ensures isLoading == old(isLoading) && signedIn == old(signedIn)
    {
      messages := [];
      currentSessionId := None;
    }

    /** `handleSaveSession` up to the request: nothing without a signed-in
        user or without messages, an update of the current session when its
        id is truthy (present and not empty), and a creation otherwise. */
    method SaveSession() returns (request: SaveRequest)
      ensures !signedIn || messages == [] ==> request == NoSave
      ensures signedIn && messages != [] && currentSessionId.Some? && currentSessionId.value != "" ==>
        request == Put(currentSessionId.value, SessionTitle(messages), messages)
      ensures signedIn && messages != [] && (currentSessionId.None? || currentSessionId.value == "") ==>
        request == Post(SessionTitle(messages), messages)
    {
      if !signedIn || messages == [] {
        return NoSave;
      }
      var title := SessionTitle(messages);
      if currentSessionId.Some? && currentSessionId.value != "" {
        request := Put(currentSessionId.value, title, messages);
      } else {
        request := Post(title, messages);
      }
    }

    /** `handleSaveSession` after a creation: an `ok` response's session id
        becomes the current one; any other outcome changes nothing. */
    method SessionCreated(created: Option<string>)
      modifies this
      ensures created.Some? ==> currentSessionId == created
      ensures created.None? ==> currentSessionId == old(currentSessionId)
      ensures messages == old(messages) && isLoading == old(isLoading) && signedIn == old(signedIn)
    {
      if created.Some? {
        currentSessionId := created;
      }
    }
  }
}
