# PowerChat `/ask` service: a Dafny model

PowerChat is a one-endpoint HTTP service (`POST /ask`). It wraps a user's
question in a fixed prompt about the PowerCast electricity-demand
forecasting platform, sends it to a generative language model and returns
the model's text. This project models the deterministic text handling in
`chatapi.py` and proves its properties:

- **`PyStr`** (`pystr.dfy`) holds the three Python string operations the
  service uses: `str.lower()`, `str.strip()` and the substring test `k in s`.
  Each computed function has an independent reference meaning, and lemmas
  connect the two. `Contains` is a left-to-right scan with `IsSubstring` as
  its reference. `Strip` is `TrimEnd(TrimStart(s))`, and `IsStripOf` is its
  reference: a slice of the input with only whitespace cut away, and no
  whitespace left at either end.
- **`Relevance`** (`relevance.dfy`) holds `RELEVANT_KEYWORDS` and `is_relevant`.
  It also holds a corrected checker, `IsRelevantFolded`, for the finding below.
- **`Prompt`** (`prompt.dfy`) holds `PROBLEM_CONTEXT` and the `build_prompt`
  template, split into constants around their slots. The source file has
  CRLF line endings, and Python reads them as `"\n"` inside its string
  literals, so the constants use `"\n"`. `BuildPrompt(q)` is `Prefix + q + Suffix`.
- **`Handler`** (`handler.dfy`) holds `ask_powercast_bot` and the `ask` route.
  The language model is a parameter `gen: string -> string`. Each result also
  records the prompts passed to `gen`, in order (`modelCalls`). Its length
  counts the model calls, so "the model was never called" is
  `modelCalls == []`. A missing `question` field is `None`. The JSON reply is
  `Error(code, message)` or `Answer(text)`, and `Status` gives the HTTP code
  (200 for an answer, Flask's default).

Every member is a pure function, so calling `BuildPrompt` twice on the same
question gives the same prompt by definition. No separate lemma is needed
for that.

`RELEVANT_KEYWORDS` (chatapi.py:23-24) lists "AI", "PowerCast" and "India",
but chatapi.py:30 lowers only the question, so those three entries can never
match. The model follows the code and records this under "Findings". The
source never consults `is_relevant` when answering. Its gated alternative
exists only as a comment (chatapi.py:92-93). The model likewise never
consults it, and `Handler.AskIgnoresRelevance` shows that every question that
is not blank reaches the model, whether `is_relevant` accepts it or not.

## Model

| member | source | states |
|---|---|---|
| `PyStr.LowerChar` | chatapi.py:30 | ASCII case mapping of one character: upper-case letters move up by 32, nothing else changes, and the result is never upper-case |
| `PyStr.LowerHasNoUpper` | chatapi.py:30 | `q.lower()` has the length of `q` and no upper-case letter left |
| `PyStr.LowerIdempotent` | chatapi.py:30 | lowering a lowered string changes nothing |
| `PyStr.LowerNoUpper` | chatapi.py:30 | a string without upper-case letters is its own lowering |
| `PyStr.LowerSlice` | chatapi.py:30 | lowering commutes with slicing |
| `PyStr.ContainsIsSubstring` | chatapi.py:30 | the scan for `kw in text` succeeds exactly when `kw` occurs at some position of `text` (both directions) |
| `PyStr.ContainsEmpty` | chatapi.py:30 | `"" in s` always holds; a non-empty pattern is never in `""` |
| `PyStr.ContainsAt` | chatapi.py:30 | one occurrence at a known position makes `kw in text` true |
| `PyStr.UpperNeverInLower` | chatapi.py:30 | a pattern with an upper-case letter is never found in a lowered text |
| `PyStr.ContainsLower` | chatapi.py:30 | an occurrence survives lowering both text and pattern |
| `PyStr.TrimStart` | chatapi.py:85 | leading strip: drops only whitespace, and the result does not start with whitespace |
| `PyStr.TrimEnd` | chatapi.py:85 | trailing strip: drops only whitespace, and the result does not end with whitespace |
| `PyStr.StripSpec` | chatapi.py:85 | `s.strip()` is a slice of `s`, with only whitespace cut away around it and no whitespace at either end |
| `PyStr.StripUnique` | chatapi.py:85 | any string meeting that description is `s.strip()`, so the description is complete |
| `PyStr.SpaceOutside` | chatapi.py:85 | index form of a trim: everything outside the kept slice is whitespace |
| `PyStr.StripNoEdgeSpace` | chatapi.py:78 | stripping leaves a string without whitespace at its ends unchanged |
| `PyStr.StripIdempotent` | chatapi.py:85 | stripping twice is stripping once |
| `PyStr.StripPadded` | chatapi.py:78 | whitespace padding around a string without edge whitespace is exactly what strip removes |
| `PyStr.StripEmptyIff` | chatapi.py:85-87 | `s.strip()` is empty exactly when `s` is all whitespace (both directions) |
| `Relevance.AnyInSpec` | chatapi.py:30 | the `any(...)` scan over the keyword list holds exactly when some listed keyword is in the text |
| `Relevance.IsRelevantSpec` | chatapi.py:23-30 | `is_relevant(q)` holds exactly when some entry of `RELEVANT_KEYWORDS` is a substring of `q.lower()` |
| `Relevance.UpperKeywordNeverMatches` | chatapi.py:23-30 | a listed keyword with a capital letter never matches |
| `Relevance.LowercaseKeywordsCharacterised` | chatapi.py:23-24 | exactly "AI", "PowerCast" and "India" have capitals; the lower-case list holds exactly the listed keywords without capitals |
| `Relevance.KeywordPositions` | chatapi.py:23-24 | the all-lowercase list is `RELEVANT_KEYWORDS` with positions 5, 8 and 18 removed, in the same order |
| `Relevance.IsRelevantLowercaseKeywords` | chatapi.py:23-30 | `is_relevant` gives the same verdict using only the 16 all-lowercase keywords; "AI", "PowerCast", "India" never match |
| `Relevance.IsRelevantCaseInsensitive` | chatapi.py:30 | `is_relevant(q) == is_relevant(q.lower())` |
| `Relevance.ShortQuestionNotRelevant` | chatapi.py:23-30 | every keyword has at least two letters, so no question shorter than two characters is relevant |
| `Relevance.EmptyNotRelevant` | chatapi.py:23-30 | `is_relevant("")` is false |
| `Relevance.TwoLetterQuestion` | chatapi.py:23-30 | a two-character question is relevant exactly when it lowers to "hi" |
| `Relevance.ContainsHiIsRelevant` | chatapi.py:24-30 | any question whose lowering contains "hi" is relevant |
| `Relevance.HiInsideWord` | chatapi.py:24-30 | "hi" matches inside ordinary words: "Tell me about this movie" is relevant |
| `Relevance.NoKeywordInitialNotRelevant` | chatapi.py:23-30 | a question none of whose lowered letters begins a matchable keyword is not relevant |
| `Relevance.QuizQuestionNotRelevant` | chatapi.py:23-30 | the off-topic question "Quiz on TV?" is not relevant |
| `Relevance.KeywordAINotRelevant` | chatapi.py:23-30 | as written: the question "AI", which contains the listed keyword "AI", is not relevant |
| `Relevance.FoldedSpec` | chatapi.py:30 | corrected checker: relevant exactly when some keyword occurs in the question with case ignored on both sides |
| `Relevance.FoldedFindsEveryKeyword` | chatapi.py:23-30 | corrected checker: a question containing any listed keyword verbatim is relevant |
| `Relevance.FoldedExtendsIsRelevant` | chatapi.py:23-30 | corrected checker accepts every question the original accepts |
| `Relevance.FoldedAcceptsAI` | chatapi.py:23-30 | corrected checker accepts the question "AI" |
| `Prompt.RefusalHasNoEdgeSpace` | chatapi.py:71 | the refusal sentence has no whitespace at its ends |
| `Prompt.SlotLayout` | chatapi.py:32-72 | any `pre + q + suf` has the summed length, and `pre`, `q` and `suf` can be sliced back out at their offsets |
| `Prompt.PromptLayout` | chatapi.py:32-72 | the prompt is the fixed prefix, then the question, then the fixed suffix; its length is their sum, and each part sits at its offset |
| `Prompt.QuestionInPrompt` | chatapi.py:67-68 | the question is a substring of its prompt |
| `Prompt.ContextInPrompt` | chatapi.py:37-38 | the prompt holds `PROBLEM_CONTEXT` verbatim, right after the opening lines |
| `Prompt.RefusalInPrompt` | chatapi.py:70-71 | the prompt holds the refusal sentence verbatim, in the closing instruction |
| `Prompt.PromptCarries` | chatapi.py:32-72 | every prompt contains its question, `PROBLEM_CONTEXT` and the refusal sentence |
| `Prompt.BuildPromptInjective` | chatapi.py:32-72 | different questions give different prompts |
| `Handler.AskPowercastBot` | chatapi.py:74-78 | one model call on `build_prompt(question)`; the answer is the model's text with only surrounding whitespace stripped |
| `Handler.Ask` | chatapi.py:83-95 | error 400 "No question provided." with no model call exactly when the field is missing or all whitespace; otherwise one call on the prompt of the stripped question, and the stripped reply with status 200 |
| `Handler.AskCallsModelOnlyToAnswer` | chatapi.py:83-95 | the model is called once when the request is answered and never otherwise |
| `Handler.AnsweredPromptContents` | chatapi.py:85-95 | an answered request sends the prompt of the stripped question, which contains that question, the context and the refusal sentence, and returns the stripped reply |
| `Handler.AskDependsOnStrippedQuestion` | chatapi.py:85-91 | two questions with the same stripped form send the same prompt and, for one fixed `gen`, get the same response |
| `Handler.AskTrimmedQuestion` | chatapi.py:85-91 | a question with no edge whitespace is sent to the model unchanged |
| `Handler.AskIgnoresRelevance` | chatapi.py:85-93 | every question that is not all whitespace is answered, with one model call on the prompt of its stripped form; nothing about `is_relevant` is required |
| `Handler.IrrelevantQuestionReachesModel` | chatapi.py:91-93 | the question "Quiz on TV?" is rejected by `is_relevant` and still reaches the model |
| `Handler.RelevantQuestionReachesModel` | chatapi.py:91-93 | the question "Tell me about this movie" is accepted by `is_relevant` and reaches the model in the same way |
| `Handler.ScenarioAnswered` | chatapi.py:85-95 | "What is PowerCast?" with a model returning a padded fixed reply gives exactly that reply, trimmed |
| `Handler.ScenarioEmptyQuestion` | chatapi.py:85-88 | an empty question gets error 400 and no model call |
| `Handler.ScenarioMissingQuestion` | chatapi.py:85-88 | a body without `question` gets error 400 and no model call |
| `Handler.ScenarioBlankQuestion` | chatapi.py:85-88 | a whitespace-only question gets error 400 and no model call |
| `Handler.ScenarioOffTopic` | chatapi.py:76-95 | an off-topic question with a model returning the refusal sentence gets exactly that sentence as its answer |

## Findings

| source | as written | input that shows it | evidently intended | confidence | as-written member | corrected member |
|---|---|---|---|---|---|---|
| chatapi.py:23-30 | keywords are compared with the lowered question, but "AI", "PowerCast" and "India" contain capitals, so they can never match | question "AI" (itself a listed keyword): `is_relevant` returns false | compare case-insensitively, lowering the keywords as well | high; not executed | `Relevance.KeywordAINotRelevant` | `Relevance.FoldedFindsEveryKeyword` |

`IsRelevantFolded` is the corrected checker. The request handler uses
neither checker, because the source never consults relevance on the
request path.

## Left out

- Flask application, routing, CORS and `app.run` (chatapi.py:1-8, 82, 100-101): web-framework plumbing.
- `load_dotenv`, `os.getenv`, `genai.configure` and the model object (chatapi.py:10-14): environment and SDK setup.
- The network call `model.generate_content` (chatapi.py:77) is the parameter `gen`. Its failures, latency and exceptions are not modelled, and `response.text` is taken to be a string. The reply is taken to be a fixed function of the prompt, whereas the real model samples: two requests with the same prompt may get different replies from it. Lemmas that compare two exchanges, such as `Handler.AskDependsOnStrippedQuestion`, hold for one fixed `gen`.
- Request bodies that are not JSON objects, and a `question` that is not a string (chatapi.py:84-85): these fail inside the framework and are not logic of this code.
- `jsonify` serialisation: a reply is the `Response` value, not JSON bytes.
- PyStr.LowerChar: maps only ASCII `A`-`Z`, not Python's full Unicode `str.lower()` (which, for example, maps some characters to two).
- PyStr.IsSpace: uses the whitespace set of Python's `str.isspace()`, written out as a fixed character list. It is not derived from the Unicode database.
