/** The answer generator of lib/gemini.ts: it numbers the retrieved passages,
    keeps the last six turns of the conversation, decides whether the
    passages are relevant enough to ground the answer, composes one of two
    prompt templates and hands the prompt to the generative model. The model
    is a parameter: a function from the prompt to its reply, `None` when the
    call fails. */
module Gemini {
  import opened Types
  import opened Text
  import opened Slices

  /** A passage grounds the answer only when its score is strictly above this. */
  const RelevanceThreshold: real := 0.1

  /** How many trailing turns of the conversation the prompt shows. */
  const HistoryTurns: nat := 6

  /** The one error a failed model call is reported as. */
  const GenerationFailure := "Failed to generate response from AI model"

  /** The opening both templates share. */
  const Greeting := "You are Health Vector, an AI medical encyclopedia assistant. "

  const GroundedIntro := Greeting + "Based on the following medical information, provide a comprehensive and helpful response to the user's query.\n\nRetrieved Medical Information:\n"

  const QueryLabel := "\n\nUser Query: "

  const GroundedInstructions := "\n\nPlease provide:\n1. A clear and informative response based on the medical information\n2. General overview and definition (if applicable)\n3. Common causes or risk factors (if applicable)\n4. General prevention tips (if applicable)\n\nFormat your response with proper headings and bullet points for readability. Use **bold** for important headings and terms.\n\nImportant Safety Guidelines:\n- Always maintain a helpful, professional tone. Only include medical disclaimers for actual medical content, not for greetings.\n- Remind users to consult healthcare professionals for personalized advice\n- Do not provide specific medical diagnoses or treatment recommendations\n- Focus on educational and informational content only\n\nPrevious conversation context:\n"

  const UngroundedIntro := Greeting + "The user has asked: "

  const UngroundedInstructions := "\n\nIf this is a general greeting (like \"hello\", \"hi\", etc.) or casual conversation, respond naturally and friendly, then guide them to ask health-related questions.\n\nIf this appears to be a medical query but no specific information was found in the database:\n1. Provide general health information you know about the topic\n2. Use proper medical terminology and structure\n3. Include relevant health advice\n\nIf it's clearly not a medical query, respond helpfully and redirect them to health topics.\n\nFormat your response professionally with proper structure. Use **bold** for headings.\n\nPrevious conversation context:\n"

  const UngroundedClosing := "\n\nFocus on:\n\U{2022} **General overview and definition**\n\U{2022} **Common causes or risk factors** \n\U{2022} **General prevention tips**\n\U{2022} **When to seek medical attention**\n\nAlways end with a reminder to consult healthcare professionals for medical advice, diagnosis, or treatment."

  /** The generative model: the reply to a prompt, or `None` when the call
      throws. */
  type Model = string -> Option<string>

  /** The middle piece of a three-piece text starts where the first ends. */
  lemma PieceAt(before: string, piece: string, after: string)
    ensures OccursAt(before + piece + after, piece, |before|)
  {
    assert (before + piece + after)[|before|..|before| + |piece|] == piece;
  }

  // ----- the context block -----

  /** Passage `index` (counted from 0) is shown as `[index + 1] text`. */
  function ContextLine(index: nat, ctx: RetrievedContext): (r: string)
    ensures |r| > |ctx.text| && r[0] == '[' && OccursAt(r, ctx.text, |r| - |ctx.text|)
    ensures OccursAt(r, NatToString(index + 1), 1)
    ensures OccursAt(r, "] ", 1 + |NatToString(index + 1)|)
    ensures |r| == 1 + |NatToString(index + 1)| + 2 + |ctx.text|
  {
    var number := NatToString(index + 1);
    var r := "[" + number + ("] " + ctx.text);
    PieceAt("[", number, "] " + ctx.text);
    PieceAt("[" + number, "] ", ctx.text);
    PieceAt("[" + number + "] ", ctx.text, "");
    r
  }

  function ContextLines(ctxs: seq<RetrievedContext>): (r: seq<string>)
    ensures |r| == |ctxs|
    ensures forall i :: 0 <= i < |ctxs| ==> r[i] == ContextLine(i, ctxs[i])
  {
    seq(|ctxs|, i requires 0 <= i < |ctxs| => ContextLine(i, ctxs[i]))
  }

  /** The numbered passages separated by blank lines. */
  function ContextText(ctxs: seq<RetrievedContext>): string
  {
    Join(ContextLines(ctxs), "\n\n")
  }

  /** The context block grows by one blank line and one numbered passage per
      passage appended; no passages give an empty block. */
  lemma ContextTextAppend(ctxs: seq<RetrievedContext>, c: RetrievedContext)
    ensures ContextText([]) == ""
    ensures ContextText(ctxs + [c]) ==
      if ctxs == [] then ContextLine(0, c)
      else ContextText(ctxs) + "\n\n" + ContextLine(|ctxs|, c)
  {
    var lines := ContextLines(ctxs + [c]);
    assert lines[..|lines| - 1] == ContextLines(ctxs);
  }

  /** Every passage, with its number, occurs in the context block. */
  lemma ContextTextShowsPassage(ctxs: seq<RetrievedContext>, i: nat)
    requires i < |ctxs|
    ensures Contains(ContextText(ctxs), ContextLine(i, ctxs[i]))
  {
    JoinContainsPart(ContextLines(ctxs), "\n\n", i);
  }

  // ----- the history block -----

  /** `User: content` or `Assistant: content`. */
  function HistoryLine(m: Message): (r: string)
    ensures |r| >= 6 && (m.role == User <==> r[..6] == "User: ")
    ensures m.role != User ==> |r| >= 11 && r[..11] == "Assistant: "
    ensures OccursAt(r, m.content, |r| - |m.content|)
    ensures |r| == (if m.role == User then 6 else 11) + |m.content|
  {
    var prefix := (if m.role == User then "User" else "Assistant") + ": ";
    var r := prefix + m.content;
    PieceAt(prefix, m.content, "");
    assert r[0] == prefix[0] && r[..6] == prefix[..6] && r[..|prefix|] == prefix;
    r
  }

  /** The lines of the last six turns, oldest first. */
  function HistoryLines(history: seq<Message>): (r: seq<string>)
    ensures |r| == Min(HistoryTurns, |history|)
    ensures forall j :: 0 <= j < |r| ==> r[j] == HistoryLine(history[|history| - |r| + j])
  {
    var recent := TakeLast(history, HistoryTurns);
    seq(|recent|, j requires 0 <= j < |recent| => HistoryLine(recent[j]))
  }

  /** The history lines separated by single line breaks. */
  function HistoryText(history: seq<Message>): string
  {
    Join(HistoryLines(history), "\n")
  }

  /** Turns older than the last six never reach the prompt. */
  lemma HistoryForgetsOlderTurns(older: seq<Message>, recent: seq<Message>)
    requires |recent| >= HistoryTurns
    ensures HistoryText(older + recent) == HistoryText(recent)
  {
    TakeLastDropsOlder(older, recent, HistoryTurns);
    assert HistoryLines(older + recent) == HistoryLines(recent);
  }

  /** Each of the last six turns is shown in the history block. */
  lemma HistoryTextShowsRecentTurn(history: seq<Message>, j: nat)
    requires |history| - HistoryTurns <= j < |history|
    ensures Contains(HistoryText(history), HistoryLine(history[j]))
  {
    var lines := HistoryLines(history);
    var k := j - (|history| - |lines|);
    assert lines[k] == HistoryLine(history[j]);
    JoinContainsPart(lines, "\n", k);
  }

  // ----- the relevance gate -----

  /** Some passage scores above the threshold. */
  predicate SomeScoreAbove(ctxs: seq<RetrievedContext>)
    decreases |ctxs|
  {
    |ctxs| > 0 && (ctxs[0].score > RelevanceThreshold || SomeScoreAbove(ctxs[1..]))
  }

  /** `hasRelevantContext`: there are passages and one of them is relevant. */
  predicate HasRelevantContext(ctxs: seq<RetrievedContext>)
  {
    |ctxs| > 0 && SomeScoreAbove(ctxs)
  }

  /** The gate opens exactly when some passage scores strictly above 0.1. */
  lemma {:induction false} GateIff(ctxs: seq<RetrievedContext>)
    ensures HasRelevantContext(ctxs) <==>
      exists i :: 0 <= i < |ctxs| && ctxs[i].score > RelevanceThreshold
    decreases |ctxs|
  {
    if |ctxs| > 0 {
      GateIff(ctxs[1..]);
      if exists i :: 0 <= i < |ctxs| && ctxs[i].score > RelevanceThreshold {
        var i :| 0 <= i < |ctxs| && ctxs[i].score > RelevanceThreshold;
        if i > 0 {
          assert ctxs[1..][i - 1] == ctxs[i];
        }
      }
      if SomeScoreAbove(ctxs[1..]) {
        var i :| 0 <= i < |ctxs[1..]| && ctxs[1..][i].score > RelevanceThreshold;
        assert ctxs[i + 1] == ctxs[1..][i];
      }
    }
  }

  // ----- the prompt -----

  function GroundedPrompt(query: string, contextText: string, historyText: string): string
  {
    GroundedIntro + contextText + QueryLabel + query + GroundedInstructions + historyText
  }

  /** The query between double quotes, as the template shows it. */
  function Quoted(query: string): (r: string)
    ensures |r| == |query| + 2 && r[0] == '"' && r[|r| - 1] == '"'
    ensures OccursAt(r, query, 1)
  {
    var r := "\"" + query + "\"";
    assert r[1..1 + |query|] == query;
    r
  }

  function UngroundedPrompt(query: string, historyText: string): string
  {
    UngroundedIntro + Quoted(query) + UngroundedInstructions + historyText + UngroundedClosing
  }

  /** The prompt sent to the model: the grounded template when the gate is
      open, the general-knowledge template otherwise. The two introductions
      part at their 62nd character, so the prompt shows which one was
      chosen. */
  function Prompt(query: string, ctxs: seq<RetrievedContext>, history: seq<Message>): (r: string)
    ensures HasRelevantContext(ctxs) ==> OccursAt(r, GroundedIntro, 0)
    ensures !HasRelevantContext(ctxs) ==> OccursAt(r, UngroundedIntro, 0)
  {
    if HasRelevantContext(ctxs) then
      var c, h := ContextText(ctxs), HistoryText(history);
      FirstOfSix(GroundedIntro, c, QueryLabel, query, GroundedInstructions, h);
      GroundedPrompt(query, c, h)
    else
      var h := HistoryText(history);
      FirstOfFive(UngroundedIntro, Quoted(query), UngroundedInstructions, h, UngroundedClosing);
      UngroundedPrompt(query, h)
  }

  lemma FirstOfSix(a: string, b: string, c: string, d: string, e: string, f: string)
    ensures OccursAt(a + b + c + d + e + f, a, 0)
  {
    assert (a + b + c + d + e + f)[..|a|] == a;
  }

  lemma FirstOfFive(a: string, b: string, c: string, d: string, e: string)
    ensures OccursAt(a + b + c + d + e, a, 0)
  {
    assert (a + b + c + d + e)[..|a|] == a;
  }

  /** The layout of a grounded prompt `p`: the context block `c` right
      after the introduction, the query after its prefix right after the
      context block, and the history block `h` at the very end. */
  predicate GroundedLayout(p: string, c: string, query: string, h: string)
  {
    && OccursAt(p, c, |GroundedIntro|)
    && OccursAt(p, QueryLabel + query, |GroundedIntro| + |c|)
    && OccursAt(p, h, |p| - |h|)
  }

  /** A grounded prompt shows, in this order, the context block right after
      the introduction, the query after its prefix, and the history block at
      the very end. */
  lemma GroundedPromptLayout(query: string, ctxs: seq<RetrievedContext>, history: seq<Message>)
    requires HasRelevantContext(ctxs)
    ensures GroundedLayout(Prompt(query, ctxs, history), ContextText(ctxs), query, HistoryText(history))
  {
    PromptWhenGrounded(query, ctxs, history);
    GroundedTemplateLayout(query, ContextText(ctxs), HistoryText(history));
  }

  lemma PromptWhenGrounded(query: string, ctxs: seq<RetrievedContext>, history: seq<Message>)
    requires HasRelevantContext(ctxs)
    ensures Prompt(query, ctxs, history) == GroundedPrompt(query, ContextText(ctxs), HistoryText(history))
  {
  }

  lemma GroundedTemplateLayout(query: string, c: string, h: string)
    ensures GroundedLayout(GroundedPrompt(query, c, h), c, query, h)
  {
    SixPieces(GroundedIntro, c, QueryLabel, query, GroundedInstructions, h);
  }

  /** When the gate is open, every retrieved passage reaches the model:
      passages are numbered, never filtered by score. */
  lemma GroundedPromptShowsEveryPassage(query: string, ctxs: seq<RetrievedContext>, history: seq<Message>, i: nat)
    requires HasRelevantContext(ctxs) && i < |ctxs|
    ensures Contains(Prompt(query, ctxs, history), ContextLine(i, ctxs[i]))
  {
    ContextTextShowsPassage(ctxs, i);
    SecondOfSixContains(GroundedIntro, ContextText(ctxs), QueryLabel, query, GroundedInstructions,
      HistoryText(history), ContextLine(i, ctxs[i]));
  }

  /** An ungrounded prompt quotes the query and shows the history block. */
  lemma UngroundedPromptLayout(query: string, ctxs: seq<RetrievedContext>, history: seq<Message>)
    requires !HasRelevantContext(ctxs)
    ensures var p := Prompt(query, ctxs, history);
      OccursAt(p, Quoted(query), |UngroundedIntro|)
      && OccursAt(p, HistoryText(history), |UngroundedIntro| + |Quoted(query)| + |UngroundedInstructions|)
  {
    UngroundedTemplateLayout(query, HistoryText(history));
  }

  lemma UngroundedTemplateLayout(query: string, h: string)
    ensures var p := UngroundedPrompt(query, h);
      OccursAt(p, Quoted(query), |UngroundedIntro|)
      && OccursAt(p, h, |UngroundedIntro| + |Quoted(query)| + |UngroundedInstructions|)
  {
    FivePieces(UngroundedIntro, Quoted(query), UngroundedInstructions, h, UngroundedClosing);
  }

  /** Where the pieces of a six-piece text lie. */
  lemma SixPieces(a: string, b: string, c: string, d: string, e: string, f: string)
    ensures var s := a + b + c + d + e + f;
      OccursAt(s, b, |a|) && OccursAt(s, c + d, |a| + |b|) && OccursAt(s, f, |s| - |f|)
  {
    var s := a + b + c + d + e + f;
    assert s[|a|..|a| + |b|] == b;
    assert s[|a| + |b|..|a| + |b| + |c + d|] == c + d;
    assert s[|s| - |f|..] == f;
  }

  /** What the second of six pieces contains, the whole text contains. */
  lemma SecondOfSixContains(a: string, b: string, c: string, d: string, e: string, f: string, t: string)
    requires Contains(b, t)
    ensures Contains(a + b + c + d + e + f, t)
  {
    ContainsWithin(b, t, a, c + d + e + f);
    assert a + b + (c + d + e + f) == a + b + c + d + e + f;
  }

  /** Where the second and fourth pieces of a five-piece text lie. */
  lemma FivePieces(a: string, b: string, c: string, d: string, e: string)
    ensures var s := a + b + c + d + e;
      OccursAt(s, b, |a|) && OccursAt(s, d, |a| + |b| + |c|)
  {
    var s := a + b + c + d + e;
    assert s[|a|..|a| + |b|] == b;
    assert s[|a| + |b| + |c|..|a| + |b| + |c| + |d|] == d;
  }

  /** Without a relevant passage the prompt does not depend on the passages
      at all: neither their text nor their number reaches the model. */
  lemma UngroundedIgnoresPassages(query: string, ctxs1: seq<RetrievedContext>, ctxs2: seq<RetrievedContext>, history: seq<Message>)
    requires !HasRelevantContext(ctxs1) && !HasRelevantContext(ctxs2)
    ensures Prompt(query, ctxs1, history) == Prompt(query, ctxs2, history)
  {
  }

  /** Low-scoring passages are as good as none. */
  lemma LowScoresAreNoPassages(query: string, ctxs: seq<RetrievedContext>, history: seq<Message>)
    requires forall i :: 0 <= i < |ctxs| ==> ctxs[i].score <= RelevanceThreshold
    ensures Prompt(query, ctxs, history) == Prompt(query, [], history)
  {
    GateIff(ctxs);
  }

  // ----- generation -----

  /** `generateResponse`: the model's reply to the prompt; a failing model
      call is reported with one fixed message whatever its cause. */
  function GenerateResponse(query: string, ctxs: seq<RetrievedContext>, history: seq<Message>, model: Model): (r: Result<string>)
    ensures r.Ok? <==> model(Prompt(query, ctxs, history)).Some?
    ensures r.Ok? ==> r.value == model(Prompt(query, ctxs, history)).value
    ensures r.Err? ==> r.error == GenerationFailure
  {
    match model(Prompt(query, ctxs, history))
    case Some(text) => Ok(text)
    case None => Err(GenerationFailure)
  }
}
