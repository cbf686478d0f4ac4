# Health Vector medical chatbot: a Dafny model of its core

Health Vector is a retrieval-augmented medical chatbot. A seeding script cuts
the pages of a medical PDF into overlapping word chunks and stores them in a
vector index. A question typed in the chat page is posted to the generate
handler. That handler asks the index for five passages and has a language
model answer from a prompt that holds the passages (when one of them scores
above 0.1) and the last six turns of the conversation. The answer is shown as
HTML by a small Markdown-like formatter. This project models those parts and
proves what they promise.

| file | module | what it models |
|---|---|---|
| types.dfy | Types | messages, passages and their metadata (lib/types.ts) |
| text.dfy | Text | `split`, `join`, `trim`/`strip`, `str.split()`, number printing |
| slices.dfy | Slices | `slice(-n)` and fixed-stride windows of a sequence |
| js_values.dfy | JsValues | JSON request values and JavaScript truthiness, `String`, `Number` |
| pinecone.dfy | Pinecone | index matches and the query, with the index as a parameter |
| gemini.dfy | Gemini | the prompt builder and the model call (lib/gemini.ts) |
| chat_message.dfy | ChatMessage | the message formatter (components/ChatMessage.tsx) |
| generate_route.dfy | GenerateRoute | `POST /api/generate` |
| retrieve_route.dfy | RetrieveRoute | `POST /api/retrieve` |
| seed_db.dfy | SeedDb | page cleaning, chunking, vector ids and batching (seed_db.py) |
| chat_page.dfy | HomePage | the chat page state as a class (app/page.tsx) |
| chat_input.dfy | ChatInputBox | the question box as a class (components/ChatInput.tsx) |

The outside services are parameters:
- the vector index is a function from the query text and `topK` to the matches, or to `None` when the call throws;
- the language model is a function from the prompt to its reply, or to `None`;
- the inline bold, italic and heading substitutions of the formatter are a function on strings.

The handlers return the calls they made, so "the model is not consulted" can be stated. Handlers of the page that await a request are split at the await. The first method returns the request; a second method takes the outcome.

## Model

| member | source | states |
|---|---|---|
| Text.Split | components/ChatMessage.tsx:16 | splitting on a non-empty separator gives at least one part |
| Text.SplitLeftmost | components/ChatMessage.tsx:16 | the cuts are made leftmost first: with several parts the first part ends at the first occurrence of the separator and the rest is the split of what follows it; a single part is the whole text, which then holds no occurrence |
| Text.SplitPartsAvoidSeparator | components/ChatMessage.tsx:16 | no part of a split contains the separator: every occurrence of it was cut |
| Text.JoinSplit | components/ChatMessage.tsx:27 | joining the parts of a split with the separator gives the text back |
| Text.Trim | components/ChatInput.tsx:35 | the result has no white space at either end and is empty exactly when the text is all white space |
| Text.TrimBetween | components/ChatInput.tsx:35 | `Trim`: the result is the piece of the text between a run of leading and a run of trailing white space |
| Text.ReplaceCharJoinsSplit | components/ChatMessage.tsx:25 | replacing a character by any text is cutting the text at that character and joining the pieces with the replacement |
| Text.SplitAfterPart | components/ChatMessage.tsx:27 | a text without the separator before the one that follows it is the first part, and the rest is the split of what follows |
| Text.ReplaceChar | seed_db.py:45 | a text without the character is unchanged; the character is gone when the replacement lacks it; a one-character replacement keeps the length and changes exactly the positions holding the character |
| Text.TrimOfTrimmed | components/ChatInput.tsx:35-36 | a non-empty text without white space at its ends is its own trim |
| Text.SplitWords | seed_db.py:51 | `str.split()` gives no words exactly when the text is all white space |
| Text.SplitWordsAreWords | seed_db.py:51 | every word of `str.split()` is non-empty and free of white space |
| Text.SplitWordsScans | seed_db.py:51 | the words of `str.split()` are exactly those read one character at a time: white space belongs to no word, and a non-space character joins the word of the next character when that is a non-space too, and is a word of its own otherwise |
| Text.NatToStringInjective | seed_db.py:47 | distinct numbers print differently, so numbered ids differ |
| Slices.TakeLast | lib/gemini.ts:20 | `slice(-n)` keeps the last min(n, length) elements, in order |
| Slices.TakeLastDropsOlder | app/page.tsx:72 | elements before the last n never survive `slice(-n)` |
| Slices.WindowsPartition | seed_db.py:73-74 | slices of a fixed size taken at that stride concatenate back to the whole list |
| JsValues.ToJsString | app/api/generate/route.ts:22 | `String` of a string is that string |
| JsValues.StringToNumber | app/api/generate/route.ts:27 | an all-space text reads as 0 and a text of ASCII digits reads as its decimal value |
| JsValues.ToJsNumber | app/api/generate/route.ts:27 | `Number` of a number is that number and of `undefined` is NaN |
| Pinecone.MetadataField | app/api/generate/route.ts:22-27 | `match.metadata?.[key]` is present exactly when the metadata holds the key |
| Pinecone.QueryPinecone | lib/pinecone.ts:50-69 | a string query is answered by the index; any other query fails before reaching it |
| Gemini.ContextLine | lib/gemini.ts:15 | a passage line is `[`, its 1-based number, `] ` and the passage text, and nothing else |
| Gemini.ContextLines | lib/gemini.ts:14-15 | one line per passage, in order, numbered by position |
| Gemini.ContextTextAppend | lib/gemini.ts:14-16 | `ContextText`: no passages give an empty block; one more passage adds a blank line and its line |
| Gemini.ContextTextShowsPassage | lib/gemini.ts:14-16 | `ContextText`: the line of every passage occurs in the context block |
| Gemini.HistoryLine | lib/gemini.ts:21 | a turn line is `User: ` for user messages and `Assistant: ` otherwise, followed by the content and nothing else |
| Gemini.HistoryLines | lib/gemini.ts:19-21 | the lines of the last min(6, n) messages, in order |
| Gemini.HistoryForgetsOlderTurns | lib/gemini.ts:19-22 | `HistoryText`: turns older than the last six do not change the history block |
| Gemini.HistoryTextShowsRecentTurn | lib/gemini.ts:19-22 | `HistoryText`: each of the last six turns occurs in the history block |
| Gemini.GateIff | lib/gemini.ts:24 | `HasRelevantContext`: the prompt is grounded exactly when some passage scores strictly above 0.1 |
| Gemini.Quoted | lib/gemini.ts:50 | the query between double quotes |
| Gemini.Prompt | lib/gemini.ts:24-72 | when the gate is open the prompt opens with the grounded introduction, otherwise with the general-knowledge one |
| Gemini.GroundedPromptLayout | lib/gemini.ts:26-49 | a grounded prompt has the context block right after its introduction, then `User Query: ` and the query, and ends with the history block |
| Gemini.GroundedPromptShowsEveryPassage | lib/gemini.ts:26-30 | a grounded prompt shows every passage, whatever its score |
| Gemini.UngroundedPromptLayout | lib/gemini.ts:50-64 | an ungrounded prompt quotes the query after its introduction and shows the history block after its instructions |
| Gemini.UngroundedIgnoresPassages | lib/gemini.ts:24-26 | when no passage passes the gate, the passages do not affect the prompt |
| Gemini.LowScoresAreNoPassages | lib/gemini.ts:24-26 | passages that all score 0.1 or less give the prompt of no passages |
| Gemini.GenerateResponse | lib/gemini.ts:74-81 | success exactly when the model answers, with its reply; otherwise the error "Failed to generate response from AI model" |
| ChatMessage.ClassifyTrimmed | components/ChatMessage.tsx:34-54 | a trimmed line is a bullet item exactly when it starts with `* ` or `- `; otherwise it is a numbered item exactly when it starts with digits and `. `; it is plain exactly when neither test matches; the item text is what follows the marker |
| ChatMessage.BlankIsPlain | components/ChatMessage.tsx:61 | a line that trims to nothing is never a list item |
| ChatMessage.Step | components/ChatMessage.tsx:32-64 | after a list line the blocks end with a list, and a line adds at most one block |
| ChatMessage.Group | components/ChatMessage.tsx:32-65 | the lines group into at most as many blocks, ending with a list after a final list line |
| ChatMessage.ItemParts | components/ChatMessage.tsx:44 | one `<li>` element per item, in order |
| ChatMessage.ReadLine | components/ChatMessage.tsx:32-64 | one line of the loop: afterwards a list is open exactly when the line is a list item, and the written parts and held-back plain lines are those of the blocks read so far, the line included |
| ChatMessage.FormatParagraph | components/ChatMessage.tsx:27-75 | the loop with its list and paragraph buffers renders exactly `Render` of the lines, the grouped blocks, with each list closed by its own end tag (the corrected `</ol>` for numbered lists) |
| ChatMessage.FormattedParagraphs | components/ChatMessage.tsx:16-18 | one rendering per `\n\n`-separated paragraph, in order, each the grouped rendering of that paragraph's lines |
| ChatMessage.FormatMessage | components/ChatMessage.tsx:15-77 | the message is the concatenation of its paragraphs' corrected renderings, numbered lists closed by `</ol>` |
| ChatMessage.EmptyMessageShowsNothing | components/ChatMessage.tsx:15-77 | an empty message is one paragraph that renders to nothing |
| ChatMessage.ParagraphLinesRoundTrip | components/ChatMessage.tsx:19-27 | `ParagraphLines`: the lines of a paragraph hold no line break and join back into the substituted paragraph |
| ChatMessage.ParagraphLinesAreLines | components/ChatMessage.tsx:19-27 | when the substituted paragraph holds no `<br>` of its own, its lines are exactly its line-break-separated lines, in order |
| ChatMessage.SplitJoinBr | components/ChatMessage.tsx:25-27 | pieces without `<br>`, joined by `<br>`, are cut back into the same pieces |
| ChatMessage.GroupKeepsContent | components/ChatMessage.tsx:32-65 | grouping loses, reorders and adds nothing: the blocks show the item texts and non-blank lines in order |
| ChatMessage.PlainLineGroup | components/ChatMessage.tsx:56-63 | a blank plain line adds nothing; a non-blank one after a list line, after a list or at the start opens a paragraph of its own, and otherwise joins the paragraph the blocks end with |
| ChatMessage.GroupWellFormed | components/ChatMessage.tsx:32-73 | no block is empty and no two paragraphs are adjacent |
| ChatMessage.ConsecutiveItemsFormOneList | components/ChatMessage.tsx:34-55 | a run of list lines at the start of a paragraph or after a line that is not a list item forms one list, of the kind of its first line and holding all the run's items, after the blocks before it, which it leaves unchanged |
| ChatMessage.ListTags | components/ChatMessage.tsx:40-68 | balanced end tags match the opening tag; the written `</ul>` matches only for bullet lists |
| ChatMessage.NumberedExampleKind | components/ChatMessage.tsx:45-54 | `1. x` is a numbered item with text `x` |
| ChatMessage.OneNumberedItem | components/ChatMessage.tsx:45-55 | a single numbered line forms one ordered list |
| ChatMessage.NumberedListClosedWithUl | components/ChatMessage.tsx:51-68 | `RenderAsWritten` against `Render`: as written, an `<ol>` list is closed by `</ul>`; the corrected rendering closes it by `</ol>` |
| ChatMessage.AsWrittenAgreesWithoutNumberedLists | components/ChatMessage.tsx:57-69 | without numbered lists the written and corrected renderings agree |
| GenerateRoute.ContextId | app/api/generate/route.ts:21 | the match id, or `context-<position>` when it is empty |
| GenerateRoute.StringOr | app/api/generate/route.ts:22-26 | a field that is not `Truthy` gives the fallback; a truthy field gives `String` of it, so a non-empty string is kept as it is |
| GenerateRoute.NumberOrZero | app/api/generate/route.ts:27 | an absent page and a NaN are 0; any value `Number` reads, a numeric string included, is kept as that number |
| GenerateRoute.ToContext | app/api/generate/route.ts:20-29 | each passage field is kept or gets its default: the match id or `context-<i>`; `String` of a truthy text, else `No content available`; the score or 0 (`ScoreOrZero`); `String` of a truthy title and section, else empty; the page as `NumberOrZero` reads it |
| GenerateRoute.NumericPageReadsAsNumber | app/api/generate/route.ts:27 | a page stored as its decimal text reads as that number |
| GenerateRoute.ToContexts | app/api/generate/route.ts:20 | one passage per match, in order |
| GenerateRoute.Post | app/api/generate/route.ts:6-51 | a body that is not JSON or is `null` is the 500 with no call; a falsy query is a 400 with no call; with a truthy query every failure is the one 500, so a 400 answers only a falsy query; the index is asked for five passages first; the model only after the index answered; a success returns the model's answer with exactly the passages it was given, history defaulting to none |
| GenerateRoute.AnsweredQuery | app/api/generate/route.ts:17-42 | a non-empty string query is sent to the index first; when the index answers, the model is asked with the passages of its matches and the request's history, and the request succeeds exactly when the model does, returning its answer and those passages |
| GenerateRoute.IndexFailureSkipsGeneration | app/api/generate/route.ts:18-36 | a failing index call is a 500 and the model is never called |
| GenerateRoute.DefaultIdsDistinct | app/api/generate/route.ts:21 | passages given default ids have distinct ids |
| GenerateRoute.SeededPageReadsAsZero | app/api/generate/route.ts:27 | the `page_<n>` page values the seeding script stores read as page 0 |
| RetrieveRoute.ToRawContext | app/api/retrieve/route.ts:19-28 | defaults for id, text and score; metadata copied without coercion |
| RetrieveRoute.ToRawContexts | app/api/retrieve/route.ts:19 | one passage per match, in order |
| RetrieveRoute.EffectiveTopK | app/api/retrieve/route.ts:6 | a missing `topK` is 5; any given value, `null` included, is passed on |
| RetrieveRoute.Post | app/api/retrieve/route.ts:4-42 | a falsy query is a 400 without asking the index; with a truthy query every failure is the one 500, so a 400 answers only a falsy query; the index is asked with the query and the effective `topK`; a success returns its matches mapped one by one |
| RetrieveRoute.AnsweredQuery | app/api/retrieve/route.ts:16-33 | a string query is answered with as many passages as the index returned, or with the 500 |
| SeedDb.JoinEach | seed_db.py:56 | each window of words joined with single spaces, one string per window |
| SeedDb.ChunkText | seed_db.py:50-58 | the loop produces `Chunks`, the windows of `max_words` words every `max_words - overlap` words, joined with spaces |
| SeedDb.ChunkAt | seed_db.py:54-57 | `WordWindows`: chunk k holds the words from k·(max_words − overlap) on, at most `max_words` and at least one |
| SeedDb.ChunkCount | seed_db.py:53-57 | there are ceil(n / (max_words − overlap)) chunks of n words |
| SeedDb.BlankTextHasNoChunks | seed_db.py:51-58 | a text of white space only has no chunks |
| SeedDb.ChunksCover | seed_db.py:53-57 | every word lies in some chunk |
| SeedDb.ChunksOverlap | seed_db.py:55-57 | consecutive chunks share their boundary words |
| SeedDb.CleanPage | seed_db.py:45 | a cleaned page has no line breaks and no white space at its ends, and is empty exactly when the page is all white space |
| SeedDb.CleanPageBetween | seed_db.py:45 | `CleanPage`: the result is the page between a run of leading and a run of trailing white space, each line break turned into a space |
| SeedDb.CleanPages | seed_db.py:44-45 | every page cleaned, in page order |
| SeedDb.ExtractPageTexts | seed_db.py:43-47 | the loop keeps the non-empty cleaned pages under `page_<number>` ids |
| SeedDb.KeptPagesIncrease | seed_db.py:44-47 | kept page numbers lie between 1 and the page count and strictly increase |
| SeedDb.KeptPagesComplete | seed_db.py:46-47 | a page is kept exactly when its cleaned text is not empty |
| SeedDb.KeptTextsAreKeptPages | seed_db.py:44-47 | entry k of the list is kept page k with its id and text |
| SeedDb.PageTextsAreKeptPages | seed_db.py:43-47 | the list holds exactly the pages with text, in page order, each non-empty and without line breaks |
| SeedDb.PageIdInjective | seed_db.py:47 | `PageId`: distinct page numbers give distinct page ids |
| SeedDb.PageVectors | seed_db.py:62-69 | one vector per chunk with id `<page>_chunk_<i>` and metadata page and chunk text |
| SeedDb.AppendPageVectors | seed_db.py:63-69 | the inner loop appends exactly the vectors of the page |
| SeedDb.BuildVectors | seed_db.py:60-69 | the nested loops produce the vectors of every page, page after page |
| SeedDb.ChunkIdInjective | seed_db.py:66 | `ChunkId`: a chunk id determines its page number and chunk index |
| SeedDb.VectorsNamed | seed_db.py:60-69 | every vector names a page of the list and a chunk position |
| SeedDb.PageVectorIdsDistinct | seed_db.py:63-66 | the vectors of one page have distinct ids |
| SeedDb.EarlierPageIdsDiffer | seed_db.py:61-66 | vectors of an earlier and a later page have different ids |
| SeedDb.VectorIdsDistinct | seed_db.py:60-69 | with increasing page numbers no two vectors share an id |
| SeedDb.DocumentVectorIdsDistinct | seed_db.py:43-69 | the vector ids of a whole run are distinct |
| SeedDb.UpsertBatches | seed_db.py:72-76 | the batch loop takes consecutive slices of 100 vectors |
| SeedDb.BatchesPartition | seed_db.py:72-74 | the batches concatenate to the vector list, each holding 1 to 100 vectors and all but the last exactly 100 |
| HomePage.ReplyMessage | app/page.tsx:82-98 | an assistant reply: the answer and its sources on success, the apology without sources otherwise |
| HomePage.FirstUserMessage | app/page.tsx:142 | the position of the first user message, or none when there is none |
| HomePage.TitlePrefix | app/page.tsx:142 | `substring(0, 50)`: a prefix of at most 50 characters, the whole text when shorter |
| HomePage.TitleFallbackUnreachable | app/page.tsx:142 | `TitleAsWritten`: as written the title is never `New Chat`, and it is `undefined...` without a user message |
| HomePage.SessionTitle | app/page.tsx:142 | the first 50 characters of the first question followed by `...`, or `New Chat` when there is none |
| HomePage.TitlesAgreeWithQuestion | app/page.tsx:142 | the written and the corrected titles agree exactly when there is a user message |
| HomePage.SentHistoryIsEnough | app/page.tsx:72 | the six messages sent give the model the same history as the whole conversation would |
| HomePage.Home.constructor | app/page.tsx:21-25 | an empty conversation, not waiting, without session or user |
| HomePage.Home.AuthChanged | app/page.tsx:33-40 | the signed-in flag follows the authentication listener and nothing else changes |
| HomePage.Home.SendMessage | app/page.tsx:53-73 | exactly one user message is appended, the page waits, and the request holds the question and the last six messages from before it |
| HomePage.Home.CompleteSend | app/page.tsx:76-102 | exactly one assistant message is appended and the page stops waiting in every outcome |
| HomePage.Home.Regenerate | app/page.tsx:127-136 | with two or more messages and a question before the last, the last is dropped and the question resent, so it appears twice in a row; otherwise nothing changes |
| HomePage.Home.SelectSession | app/page.tsx:109-120 | a loaded session replaces the messages and becomes current; a failed load changes nothing |
| HomePage.Home.NewChat | app/page.tsx:122-125 | no messages and no session |
| HomePage.Home.Logout | app/page.tsx:190-194 | no messages and no session |
| HomePage.Home.SaveSession | app/page.tsx:138-167 | no request without a user or messages; an update of the current session when its id is truthy (present and not empty), or else a creation, titled with the corrected `SessionTitle`: the first question's prefix, or `New Chat` when there is no question |
| HomePage.Home.SessionCreated | app/page.tsx:169-172 | a created session's id becomes the current one |
| ChatInputBox.SubmittedText | components/ChatInput.tsx:35-36 | something is sent exactly when the box is enabled and holds more than white space, and it is the trimmed text |
| ChatInputBox.SendButtonDisabled | components/ChatInput.tsx:77 | the button is disabled exactly when the box is disabled or holds only white space |
| ChatInputBox.ButtonMatchesSubmit | components/ChatInput.tsx:35-77 | the button is disabled exactly when a submit would send nothing |
| ChatInputBox.SubmittedTextIsTrimmed | components/ChatInput.tsx:35-36 | a sent question is non-empty, has no white space at its ends, and would be sent unchanged again |
| ChatInputBox.ChatInput.constructor | components/ChatInput.tsx:31 | the box starts empty |
| ChatInputBox.ChatInput.Type | components/ChatInput.tsx:56-60 | an enabled box holds what was typed, and the prop is kept |
| ChatInputBox.ChatInput.SetDisabled | components/ChatInput.tsx:24-31 | a new `disabled` prop takes effect and the typed text is kept |
| ChatInputBox.ChatInput.Submit | components/ChatInput.tsx:33-39 | sends the trimmed text and clears the box, or sends nothing and keeps the text |
| ChatInputBox.ChatInput.QuickQuestion | components/ChatInput.tsx:41-43 | a quick question is sent as it is, with no trim and no disabled check (the component never renders the buttons that call it) |

## Left out

- The query embedding of lib/pinecone.ts (`createSimpleEmbedding`) is floating-point arithmetic. It and the index client are folded into the index parameter.
- The Gemini SDK call and the environment variables are the model parameter.
- The bold, italic and heading regular expressions of the formatter are the `inline` parameter. HTML escaping is not modelled; the source does none.
- PDF reading, the tokenizer and the embedding model, index creation and the upsert call of seed_db.py are not modelled. The batches are the output. The progress print is not modelled.
- Timers, the auto-save debounce, scrolling, `Date.now()` message ids and timestamps are not modelled. Ids are parameters. React's batching of state updates is not modelled: each method applies its updates at once.
- Sidebar, AuthModal, Footer and the other display-only components are not part of this model.
- JsValues.ToJsNumber: JSON numbers are integers here, so fractional page numbers and `String` of a fractional number are not modelled.
- JsValues.StringToNumber: reads an optional sign and ASCII digits after trimming. Decimal points, exponents, hexadecimal and `Infinity` read as NaN instead of their JavaScript values.
- GenerateRoute.Post: a `conversationHistory` that is not an array of messages is not modelled. A JSON body that is not an object reads as one without fields. JSON serialisation of the answer and the sources is taken as the identity.
- RetrieveRoute.Post: the `topK` is passed on to the index parameter unchecked; what the real index does with a malformed value is part of that parameter.
- SeedDb.ChunkText: requires `overlap < max_words`. Otherwise the Python loop never ends; the script only uses 400 and 40.
- HomePage.TitlePrefix: counts characters, not UTF-16 code units.
- HomePage.Home.SaveSession: uses the corrected title, so a conversation without a user message is saved as `New Chat`, not as the written `undefined...` (see Findings; `TitleAsWritten` is the written title).
- ChatMessage.FormatMessage: renders with the corrected end tag `</ol>` for numbered lists, not the written `</ul>` (see Findings; `RenderAsWritten` is the written rendering).
- ChatMessage.FormatParagraph: closes numbered lists with the corrected `</ol>`, not the written `</ul>`, for the same reason.
- HomePage.Home.Logout: the signed-in flag is cleared by the authentication listener (`AuthChanged`), not by the logout handler.

## Findings

| source | as written | input that shows it | evidently intended | confidence | as-written member | corrected member |
|---|---|---|---|---|---|---|
| components/ChatMessage.tsx:58-68 | every list is closed with `</ul>`, also one opened with `<ol>` | a paragraph `1. Rest` renders as `<ol …><li …>Rest</li></ul>` | a numbered list is closed with `</ol>` | high, not executed | ChatMessage.NumberedListClosedWithUl | ChatMessage.FormatParagraph |
| app/page.tsx:142 | the title is the first question's prefix plus `...`, falling back to `New Chat` only when that is empty, which it never is | a loaded session holding only assistant messages is saved with the title `undefined...` | `New Chat` when there is no user message | medium, not executed | HomePage.TitleFallbackUnreachable | HomePage.SessionTitle |
