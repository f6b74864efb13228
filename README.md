# Zając Kurewiusz: the session, the generator and the transcript, in Dafny

This project models the core of a choice-driven text adventure. The game master's
narration comes from a remote language model. The player picks one of the offered
continuations. The transcript of narration (`story`) and picks (`choice`) grows
with every turn. Four parts of the program are modelled:

- **The generation service** (`generateStorySegment`), in module `GeminiService`.
  Without an API key it serves an offline segment: a clause quoting the last choice
  when there is a choice entry with non-empty text, one of three insults, and three
  fixed choices. With a key it does five things:
  - renders the transcript into a prompt;
  - sends that prompt to the model;
  - strips markdown code fences from the reply and parses it;
  - validates the reply, replacing an empty choice list with the restart choice `"Od nowa"`;
  - classifies every failure, in order. A message mentioning JSON is answered with an
    apology segment. Everything else is rethrown with one of four fixed messages.

  The model call and `JSON.parse` are parameters (`remote`, `parse`). The method
  `GenerateStorySegment` follows the source's try/catch step by step. Where the
  source overwrites the parsed object's empty `choices` with `["Od nowa"]`, the
  method replaces a local copy of the choice list and builds the segment from it.
  Nothing else holds the parsed object, so the returned segment is the same.
- **The session** (`App.tsx`), in module `App`. It is a class with the page's four
  state fields (`gameState`, `log`, `choices`, `error`) and a record of the one
  generation in flight. `startGame` and `handleChoice` enter `Loading` and hand the
  service the log. `Complete` applies the service's outcome. `StartGameAndWait` and
  `HandleChoiceAndWait` run one action end to end. The invariant `Valid` proves that
  story and choice entries alternate from a story, and that while `Playing` the log
  ends with a story. `Controls` says which buttons each phase renders.
- **The transcript export** (`formatLog`), in module `LogActions`. It uses the same
  role names as the prompt (module `Transcript`).
- **The summary panel's figures** (`SessionSummary.tsx`), in module `SessionSummary`.
  This covers the counting loop, the empty-log early return and the missing-timestamp
  text.

Module `Strings` models the JavaScript string operations the code calls: `trim`,
`toLowerCase` as far as the keyword tests need it, `includes` and `join("\n")`. The two
`replace` calls that strip the fences are `GeminiService.StripOpenFence` and
`GeminiService.StripCloseFence`. `SplitLines` (`split("\n")`) and `CountChar` are proof
helpers that the code never calls: the lemmas use them to read the export and the
prompt back line by line. Module `Types` holds the records of `types.ts`.

Facts about the code that the model keeps:
- Both the prompt and the export use the role names "Mistrz Gry" and "Gracz".
- Rate-limit errors (`quota`, `429`) and network errors (`network`, `ENOTFOUND`) are
  rethrown with their own fixed messages, so for the session they are fatal.
- The offline segment is a prefix quoting the last choice (empty when there is no
  choice entry or its text is empty) plus one of three insults,
  with the fixed choices `["W lewo", "W prawo", "Od nowa"]`.
- While `Playing`, the choices are whatever the service returned. The service always
  returns at least one.

## Model

| member | source | states |
|---|---|---|
| GeminiService.GenerateStorySegment | services/geminiService.ts:33-135 | Without a key: exactly the offline prefix plus the drawn insult, with choices `W lewo`, `W prawo`, `Od nowa`. With a key: the prompt of this log goes to the model. A rejected call is classified. A parse error is classified by its message. A `null` reply is classified by the TypeError of reading a field of it, which gives the generic message. A reply with a missing or empty story, or non-array choices, gets the apology with `["Od nowa"]`. A valid reply is returned unchanged, except that empty choices become `["Od nowa"]`. Every returned segment has a non-empty story and at least one choice. Every rejection is an `Error` with one of the four fixed messages |
| GeminiService.LastChoice | services/geminiService.ts:43 | The result is the text of a choice entry with only story entries after it, so it is the most recent choice. `None` means every entry is a story |
| GeminiService.OfflinePrefix | services/geminiService.ts:43-44 | The prefix is empty exactly when there is no choice entry or the last one's text is empty. Otherwise it starts with `Po wyborze: "`. Characterised further by the two `OfflinePrefix…` lemma rows |
| GeminiService.Offline | services/geminiService.ts:37-48 | The offline segment starts with the prefix, ends with the drawn insult, and offers `W lewo`, `W prawo`, `Od nowa` |
| GeminiService.OfflinePrefixQuotesLastChoice | services/geminiService.ts:43-44 | For the index of the last choice entry, the prefix is `Po wyborze: "<text>" — `, or empty when that text is empty |
| GeminiService.OfflinePrefixWithoutChoice | services/geminiService.ts:43-44 | With no choice entry in the log, the prefix is empty |
| GeminiService.Prompt | services/geminiService.ts:57-62 | Every prompt ends with `\n\nWygeneruj następny fragment.` and, for a non-empty log, starts with the first entry's line. Characterised further by the three `Prompt…` lemma rows |
| GeminiService.PromptOfEmptyLog | services/geminiService.ts:57-62 | An empty log's prompt is exactly `\n\nWygeneruj następny fragment.` |
| GeminiService.PromptIsExportPlusInstruction | services/geminiService.ts:57-62 | For a non-empty log, the prompt is the transcript export followed by `\n\nWygeneruj następny fragment.` |
| GeminiService.PromptLines | services/geminiService.ts:57-62 | Split at newlines, the prompt is each entry's `Mistrz Gry: `/`Gracz: ` line in log order, then a blank line, then the instruction. This holds when the entries' texts have no newlines of their own |
| Strings.Trim | services/geminiService.ts:88-89 | The result is the infix left after removing only white space at both ends. It starts and ends with a non-space. An already trimmed text is unchanged |
| GeminiService.TrimAround | services/geminiService.ts:88-89 | Any white space around a text that starts and ends with a non-space is removed exactly |
| GeminiService.StripOpenFence | services/geminiService.ts:90 | The result is a suffix of the text. It is unchanged without a leading `` ```json ``, and otherwise shorter by 7 characters, or by 8 when the fence is followed by a newline |
| GeminiService.StripCloseFence | services/geminiService.ts:91 | The result is a prefix of the text. It is unchanged without a trailing `` ``` ``, and otherwise shorter by 3 characters, or by 4 when a newline precedes the fence |
| GeminiService.StripFences | services/geminiService.ts:88-91 | The cleaned reply is an infix of the trimmed reply, starting where the opening fence ends. Characterised further by the fence lemma rows |
| GeminiService.UnfencedIsOnlyTrimmed | services/geminiService.ts:88-91 | A reply without an opening `` ```json `` and without a closing `` ``` `` is returned trimmed and otherwise unchanged |
| GeminiService.StripOpenFenceOf | services/geminiService.ts:90 | One leading `` ```json `` is removed, and its newline with it when there is one |
| GeminiService.StripCloseFenceOf | services/geminiService.ts:91 | One trailing `` ``` `` is removed, and the newline before it when there is one |
| GeminiService.FencedRoundTrip | services/geminiService.ts:88-91 | Cleaning a fenced reply with white space around it gives back exactly the text between the fences. That text may itself contain fences, since only one fence is removed at each end. Without a newline next to a fence, the text must not start or end with a newline, because the fence would take it |
| GeminiService.Classify | services/geminiService.ts:103-135 | The result is the apology segment exactly when the thrown value is an `Error` whose lower-cased message contains `json`. Otherwise the result is a rejection with one of the four fixed messages. A value that is not an `Error` gets the generic message |
| GeminiService.FirstMatchIsEarliest | services/geminiService.ts:106-134 | In the ordered classification table, the first rule that fires decides the outcome, whatever later rules say |
| GeminiService.FirstMatchNone | services/geminiService.ts:132-134 | When no rule fires, the outcome is the generic rejection |
| GeminiService.ClassifyIsFirstMatch | services/geminiService.ts:106-134 | The catch block equals the table json, then `API key`/`401`, then quota/`429`, then network/`ENOTFOUND`, read first-match |
| GeminiService.InvalidStructureIsRecoverable | services/geminiService.ts:94-95 | The validation error's own message mentions JSON, so a malformed reply is answered with the apology and `["Od nowa"]` and is never thrown |
| GeminiService.NullReplyIsGeneric | services/geminiService.ts:93-94 | The TypeError of reading `story` from `null` contains none of the keywords, so it is rethrown with the generic message |
| GeminiService.JsonBeatsKeyError | services/geminiService.ts:106-118 | Every `Error` message whose lower case contains `json` and which also contains `401` gets the apology, not the key error: the JSON test comes first |
| Transcript.Speaker | services/geminiService.ts:60 | The role name is non-empty, has no newline, and starts with `M` for a story (`Mistrz Gry`) and `G` for a choice (`Gracz`) |
| Transcript.RenderEntry | components/LogActions.tsx:16-18 | A line starts with the role name and `: `, and ends with the entry's text. The prompt builds the same line at services/geminiService.ts:59-61 |
| LogActions.FormatLog | components/LogActions.tsx:10-20 | The export is the placeholder `Brak zapisanej historii walki z losem.` exactly when the log is empty. Otherwise it starts with the first entry's line |
| LogActions.FormatLogLines | components/LogActions.tsx:15-19 | Split at newlines, a non-empty export is exactly one `<role>: <text>` line per entry, in log order. This holds when the texts have no newlines of their own |
| LogActions.FormatLogNewlines | components/LogActions.tsx:15-19 | n ≥ 1 entries without newlines of their own export with exactly n − 1 newlines |
| LogActions.FormatLogEndsWithLastLine | components/LogActions.tsx:15-19 | The export ends with the last entry's line, so it has no trailing newline unless the last text ends with one |
| SessionSummary.NumStories | components/SessionSummary.tsx:26-27 | The number of story entries is at most the log length. Characterised by the `Counts…` lemma rows |
| SessionSummary.NumChoices | components/SessionSummary.tsx:28-29 | The number of other entries, which the source counts as choices, is at most the log length. Characterised by the `Counts…` lemma rows |
| SessionSummary.CountEntries | components/SessionSummary.tsx:23-35 | The loop's story counter is the number of story entries, and its choice counter is the number of all other entries |
| SessionSummary.CountsAppend | components/SessionSummary.tsx:26-30 | Appending one entry adds 1 to exactly one of the two counts, chosen by the entry's kind |
| SessionSummary.CountsCoverLog | components/SessionSummary.tsx:37 | `storyCount + choiceCount` is the log length |
| SessionSummary.CountsAreMultiplicities | components/SessionSummary.tsx:24-34 | The two counts are how often each kind occurs among the entries' kinds |
| SessionSummary.AlternatingCounts | components/SessionSummary.tsx:24-34 | In an alternating log, the stories are the larger half and the choices the smaller half |
| SessionSummary.Summarize | components/SessionSummary.tsx:37-41 | The panel renders nothing exactly for an empty log. Otherwise its figures are the two counts and the log length |
| SessionSummary.FormatTimestamp | components/SessionSummary.tsx:10-16 | `null` and `0` show as `brak zapisu`. Any other time goes to the locale formatter |
| App.ErrorText | App.tsx:26 | An `Error`'s own message is shown; any other thrown value shows `Wystąpił nieznany, chujowy błąd.`. `handleChoice` shows the same at App.tsx:52 |
| App.ActionOf | App.tsx:57-120 | The start and retry buttons start the game (App.tsx:66, 110). A choice button picks its own text (components/ChoiceBox.tsx:20). The enabled insult button picks `Spierdalaj, gnoju.` (App.tsx:82). Only the disabled insult button does nothing |
| App.ChoiceButtons | components/ChoiceBox.tsx:17-26 | One choice button per offered choice, in the same order |
| App.Session.constructor | App.tsx:10-13 | The session starts in `Start` with an empty log, no choices and no error |
| App.Session.StartGame | App.tsx:15-21 | The log, choices and error are cleared, the state becomes `Loading`, and the service is asked about the empty log |
| App.Session.HandleChoice | App.tsx:31-45 | For any choice except the restart choice, the service gets the old log plus the appended choice entry. The choices are cleared and the state becomes `Loading`. `"Od nowa"` ends in the same state as `StartGame`, with the log cleared rather than extended |
| App.Session.Complete | App.tsx:20-54 | A segment after `startGame` leaves the log as exactly one story entry. After a pick, the earlier entries and the choice stay and one story entry is appended. The choices become the segment's, and the state becomes `Playing`. A rejection sets `Error` and records the thrown message, or the fixed default for values that are not `Error`s. The log is kept, so after a pick it still ends with the choice entry, and the choices stay empty |
| App.Session.StartGameAndWait | App.tsx:15-29 | `startGame` end to end: `Playing` with one story entry and at least one choice, or `Error` with an empty log and one of the service's four messages. Without a key, always `Playing` with the offline choices |
| App.Session.HandleChoiceAndWait | App.tsx:31-55 | `handleChoice` end to end. A non-restart pick keeps the old log and the appended choice entry, and adds one story entry only on success. `Playing` offers at least one choice. `Error` shows one of the service's four messages, never the default. Without a key, always `Playing` with the offline choices |
| App.Session.PlayingShape | App.tsx:22 | While `Playing`, the log is non-empty, starts and ends with a story, strictly alternates, and has one more story than choices |
| App.Session.Controls | App.tsx:57-120 | `Loading` renders no controls. Every control that picks a choice is in `Playing`. Starting is offered exactly in `Start` and `Error`. The insult button is enabled exactly when choices are offered. There is a button for a text exactly when it is an offered choice in `Playing` |
| App.ChoiceButtonsMembers | components/ChoiceBox.tsx:17-26 | There is a choice button for a text exactly when that text is offered |

## Left out

- The Gemini SDK client, the model call and its configuration (system instruction, schema, temperature) are left out as a foreign call. So are the text-as-property-or-function normalisation and the `API_KEY` environment lookup. The call is the parameter `remote`, applied to the prompt, and the lookup is the flag `hasApiKey`. A reply whose text is not a string makes `.trim()` throw a TypeError; it is taken to arrive as a rejected call.
- `JSON.parse` is a library call. It is the parameter `parse`, applied to the cleaned text, which yields a value or a syntax error with its message.
- GeminiService.GenerateStorySegment: a parsed value is seen only through its `story` and `choices` fields. `story` is a string, or `None` for a missing or falsy non-string value (`undefined`, `null`, `0`, `false`), which fails the check as the source's `!parsed.story` does. `choices` is an array of strings or not an array. A truthy non-string `story` (such as `5`) or an array with non-string items passes the source's check and is returned as it is; the model's `parse` never yields such a value, so the method makes no promise about it. For `null`, the TypeError message is V8's wording. It contains none of the keywords, so any engine's wording gives the same generic rejection.
- `Math.random()` is the parameter `draw` (an index below 3). `Date.now()` is the parameters `now`, `nowPick` and `nowReply`.
- Strings.ToLower maps only A–Z and U+212A KELVIN SIGN and leaves every other character as it is. The model uses lower-casing only to test for the keywords `json`, `quota` and `network`. The only other character whose lower case contains an ASCII letter is U+0130, and it gives `i`, which none of these keywords contains. So the tests come out as JavaScript's.
- Strings.IsSpace lists ECMAScript's white space and line terminators with the space separators of Unicode 15. Strings are sequences of code points, not UTF-16 units; nothing here depends on lengths.
- `console.error` is left out as logging.
- React rendering, animations, the loading spinner's timer, the story window's scrolling, and the header and choice-box markup are presentation. `Controls` keeps only which buttons exist and what they do.
- The clipboard copy, the Blob download and their status messages in `LogActions` are browser I/O. The clear-saved button calls a callback prop whose code is not part of this model.
- `toLocaleString('pl-PL')` is the parameter `localeFormat` of `FormatTimestamp`. A `NaN` timestamp is also falsy in the source, but timestamps here are integers.
- Saving, resuming and clearing a saved session have no code in the modelled files. Only the props `hasSavedSession`, `lastSavedAt` and `isPreview` appear, and they are not modelled.
- App.Session.HandleChoice: the model runs the React state updates in sequence, with at most one generation in flight. So it does not model interleaved callbacks or the `log` value that `handleChoice` captured when it was created.
