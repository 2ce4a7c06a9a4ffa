# History quiz backend: the quiz cache, reply decoding and scoring

This project models the core of the quiz server (`server.js`) in Dafny. It
covers:

- `/api/generate-quiz`. The request must carry a truthy `difficulty` and
  `category`. The handler then looks up `quiz_cache` rows. Both mandatory
  fields always filter, and each optional field (`period`,
  `geographical_sphere`, `ID_Name`, `moment`, `episode`) filters only when it
  is truthy. When at least five rows match, the handler serves the quiz of
  one of them, picked at random. Otherwise it asks the language model and
  decodes the reply tolerantly, then appends the new quiz to the cache and
  returns it.
- The tolerant decoding. The raw reply is parsed first. Only if that fails is
  the text trimmed and stripped of markdown code fences. It is then narrowed
  to the region the pattern `\[\s*{[\s\S]*}\s*]` matches, and parsed again.
- `/api/submit-answers`. Every listed field but `time_taken` must be truthy.
  Each question is marked with `answers[idx] === question.answer`. The
  handler builds one correction per question and a running count of correct
  answers, then stores the score row.

Modules:

- `Js` holds JSON values, JavaScript truthiness, `===` on parsed values, and
  property access.
- `ReplyCleaning` holds `trim`, the two global replacements, a model of the
  regular-expression engine's search for the array pattern, and the
  raw-then-cleaned parse.
- `QuizCache` holds the request and row records, the filter the query is
  built from, and the lookup, newest first. The `CacheTable` class has a
  `rows` sequence that `Insert` extends.
- `QuizHandler` holds the generate-quiz handler over a `CacheTable`.
- `Scoring` holds the marking loop and the submit-answers handler.

Some parts are parameters. JSON.parse is a function `string -> Option<Json>`,
where `None` means it throws. The provider call is a `ProviderReply` value.
A failed cache lookup, a failed cache insert and a failed score insert are
booleans. `Math.random` becomes a nondeterministic choice of an index among
the rows found.

`answers[idx] === question.answer` compares two values built by JSON.parse.
Arrays and objects are compared by reference, so two of them are never
identical. The generation prompt (server.js:97-110) asks for `answer` to
always be an array. For such a question no submission is ever marked
correct; `Scoring.ArrayAnswerNeverCorrect` states this. The model keeps the
comparison as written.

The array pattern does not look for a balanced array: it runs from the first
`[ws{` to the last `}ws]` after it. Take a reply that fails the raw parse and
whose cleaned text is an object that contains an array of objects, such as
`{"questions": [{...}]}`. The pattern narrows it to the inner array, and the
handler stores and returns that array, not the object.

## Model

| member | source | states |
|---|---|---|
| Js.Truthy | server.js:51 | a value is falsy exactly when it is undefined, null, false, 0 or the empty string; every array and object is truthy |
| Js.StrictEquals | server.js:225 | two parsed values are `===` exactly when they are equal and not an array or an object |
| Js.MemberSpec | server.js:225-232 | a property read finds a value exactly when some member has that key, and the value it returns is the one held by the last member with that key, as JSON.parse keeps the last of repeated keys |
| Js.DecimalStringValue | server.js:225 | the key `answers[idx]` reads on an object is a non-empty string of decimal digits that denotes idx, with no leading zero unless idx is 0 |
| Js.DecimalStringInjective | server.js:225 | two different indices read two different keys |
| ReplyCleaning.TrimStart | server.js:149 | the result is a suffix of the input and does not start with white space |
| ReplyCleaning.TrimStartRemovesSpace | server.js:149 | everything trimming removes from the start is white space |
| ReplyCleaning.TrimEnd | server.js:152 | the result is a prefix of the input and does not end with white space |
| ReplyCleaning.TrimEndRemovesSpace | server.js:152 | everything trimming removes from the end is white space |
| ReplyCleaning.Trim | server.js:149 | the result of `trim` has no white space at either end and is no longer than its input |
| ReplyCleaning.TrimIsSlice | server.js:149 | `trim` yields a contiguous slice of its input |
| ReplyCleaning.TrimOfTrimmed | server.js:149 | `trim` leaves a text without white space at its ends unchanged |
| ReplyCleaning.StripTagged | server.js:152 | the first replacement `replace(/```(?:json)?/g, '')` never lengthens the text |
| ReplyCleaning.StripBare | server.js:152 | the second replacement `replace(/```/g, '')` never lengthens the text |
| ReplyCleaning.StripTaggedLeavesNoFence | server.js:152 | after `replace(/```(?:json)?/g, '')` no three consecutive backticks remain |
| ReplyCleaning.SecondReplaceIsNoOp | server.js:152 | the following `replace(/```/g, '')` never changes the text |
| ReplyCleaning.StripTaggedKeepsPrefix | server.js:152 | text without fences that is followed by a character other than a backtick passes the first replacement unchanged |
| ReplyCleaning.StripFences | server.js:149-152 | the fence-stripped text is trimmed and no longer than the reply |
| ReplyCleaning.StripFencesSpec | server.js:149-152 | the fence-stripped text contains no ``` and is trimmed |
| ReplyCleaning.StripFencesKeepsClean | server.js:149-152 | a trimmed text without fences is a fixed point of fence stripping |
| ReplyCleaning.StripFencesIdempotent | server.js:149-152 | stripping fences twice is the same as stripping them once |
| ReplyCleaning.SkipSpace | server.js:155 | `\s*` stops at the first character that is not white space, or at the end of the text |
| ReplyCleaning.LastClose | server.js:155 | the greedy `[\s\S]*` backtracks from the end: the position found is the last one in range where `}ws]` matches, and none is found exactly when no position in range matches |
| ReplyCleaning.ArrayMatch | server.js:155 | a match is a `[ws{ ... }ws]` region of the text, non-empty and within its bounds |
| ReplyCleaning.MatchFrom | server.js:155 | a match found from position p starts at or after p, is a `[ws{ ... }ws]` region, and has no later `}ws]` |
| ReplyCleaning.MatchFromNone | server.js:155-156 | the search from p fails exactly when no `}ws]` follows any `[ws{` at or after p |
| ReplyCleaning.MatchFromLeftmost | server.js:155 | the match starts at the first `[ws{` at or after p |
| ReplyCleaning.ArrayMatchSpec | server.js:155-156 | a match runs from the leftmost `[ws{` of the text to the last `}ws]` after it, begins with `[` and ends with `]`; there is no match exactly when no `}ws]` follows a `[ws{` |
| ReplyCleaning.WholeArrayMatch | server.js:155-157 | a text that is one `[ws{ ... }ws]` from its first to its last character is matched whole |
| ReplyCleaning.Narrowed | server.js:155-158 | narrowing never lengthens the text, and either leaves it unchanged or yields a text of at least two characters that begins with `[` and ends with `]` |
| ReplyCleaning.NarrowedSpec | server.js:155-158 | narrowing yields the `[ ... ]` region of the match when there is one and the text unchanged otherwise, and brings in no fence |
| ReplyCleaning.SpanMatchesItself | server.js:155-157 | the region a match selects, taken on its own, is matched whole |
| ReplyCleaning.NarrowedIsClean | server.js:149-158 | a trimmed fence-free text, once narrowed, is left unchanged by fence stripping and by narrowing again |
| ReplyCleaning.Cleaned | server.js:149-158 | the text of the second parse is trimmed and no longer than the reply |
| ReplyCleaning.CleanedSpec | server.js:149-158 | the cleaned text has no fences; on a match it is exactly the matched `[ ... ]` region of the fence-stripped text, otherwise that text unchanged |
| ReplyCleaning.CleanContent | server.js:149-158 | the step-by-step reassignment of `cleanedContent` yields the cleaned text |
| ReplyCleaning.CleanedIdempotent | server.js:149-158 | cleaning an already cleaned text changes nothing |
| ReplyCleaning.Normalized | server.js:142-166 | decoding fails exactly when both the raw parse and the parse of the cleaned text fail; otherwise its value is one of those two parses |
| ReplyCleaning.NormalizeReply | server.js:140-167 | the raw parse wins when it succeeds; only when it fails is the cleaned text parsed, and that parse's failure is the failure of the whole decoding |
| ReplyCleaning.FencedArrayRecovered | server.js:142-161 | a `[ { ... } ]` reply wrapped in a ```json fence is cleaned to exactly the array text, so the second parse sees that text |
| QuizCache.FilterFor | server.js:56-66 | every filter of the query is an equality on a column whose request field is truthy, with that field's value, and every column whose field is truthy has such a filter |
| QuizCache.BuildFilter | server.js:56-66 | the query's filters: both mandatory columns, then one equality for each truthy optional field, in source order |
| QuizCache.SatisfiesNarrow | server.js:62-66 | an optional field's filter holds exactly when the field is falsy or the row's column holds the field's value |
| QuizCache.FilterMeaning | server.js:56-66 | a row satisfies the built filters exactly when it matches the request: equal mandatory columns, equal optional columns where the request's field is truthy, and `mode` ignored |
| QuizCache.MatchesByColumn | server.js:56-66 | for a request with both mandatory fields, a row matches exactly when every column whose request field is truthy holds that field's value |
| QuizCache.SelectedMembers | server.js:68-69 | the lookup returns no more rows than the table holds, and exactly the table's rows that satisfy every filter |
| QuizCache.SelectedAppend | server.js:68-69 | a row appended to the table comes first in the newest-first lookup when it satisfies the filters, and changes nothing otherwise |
| QuizCache.CacheHitsMembers | server.js:56-69 | a row is among a request's hits exactly when it is in the table and matches the request |
| QuizCache.NewRow | server.js:173-182 | the stored row holds each key field as the request carried it, null for an absent one, and the generated quiz |
| QuizCache.NewRowMatches | server.js:173-182 | the row stored for a request matches that request |
| QuizCache.InsertedRowFoundAgain | server.js:173-182 | after the insert the same request finds the new row first and exactly one more row than before |
| QuizCache.SameKeySameHits | server.js:36-66 | two requests that differ only in `mode` find the same rows |
| QuizCache.FalsyFieldIsWildcard | server.js:62-66 | for any optional column whose request field is falsy, changing the row's value in that column does not change whether it matches |
| QuizCache.TruthyFieldNarrows | server.js:59-66 | for any column whose request field is truthy, a row holding a different value there does not match |
| QuizCache.ServesFromCache | server.js:75-77 | the cache serves only after a successful lookup that found rows, so the random index always has a row to pick |
| QuizCache.StoredGenerationsFillPool | server.js:75-182 | each stored generation for a request adds one row to that request's hits, so after five of them the same request is served from the cache |
| QuizCache.CacheTable.Select | server.js:68-69 | the loop over the table returns the rows satisfying the filters, newest first |
| QuizCache.CacheTable.Insert | server.js:173-182 | the table is the old table with the new row appended |
| QuizHandler.Generated | server.js:122-167 | only a failed call gives the provider failure; a reply without `data` fails at line 140 before any parse; a text reply fails exactly when both parses fail, and then as unparsable; a missing or null content is passed to JSON.parse as the text `undefined` or `null`, and its parse failing is the failure of `content.trim()`; every quiz is a value JSON.parse produced |
| QuizHandler.GenerateQuiz | server.js:34-196 | a request without a truthy difficulty or category gets a 400 and changes nothing. With five or more hits, the quiz served is the quiz of a stored row matching the request, and the table is unchanged. Otherwise every failure `Generated` gives is a 500 that changes nothing, and a decoded quiz is returned and appended as the request's row unless the insert fails |
| Scoring.QuestionField | server.js:225-232 | reading a question's field fails exactly on a null question, only an object question holds the field, and on an object it is the member under that key |
| Scoring.Element | server.js:225-229 | `answers[idx]` on an array is defined exactly when idx is in range and is then the idx-th item, on an object it is the member under idx's decimal form, on a string it is defined exactly when idx is in range, a string yields the one character at idx, and a number or boolean yields undefined |
| Scoring.IsCorrect | server.js:225 | a question is marked correct exactly when the submitted element equals its `answer` and neither is an array or an object |
| Scoring.CorrectionFor | server.js:225-233 | a correction carries the submitted and the expected answer and is marked correct exactly when the two are `===` |
| Scoring.CountCorrect | server.js:222-226 | the number of corrections marked correct never exceeds the number of corrections |
| Scoring.CountCorrectStep | server.js:226 | each correction adds one to the counter exactly when it is marked correct |
| Scoring.CountCorrectIsCardinality | server.js:222-226 | the count equals the number of corrections marked correct |
| Scoring.CountIsCorrectAnswers | server.js:222-235 | for the corrections of a quiz, the count equals the number of questions whose submitted answer is `===` to the expected one |
| Scoring.Mark | server.js:222-235 | marking fails exactly when the quiz holds a null question; otherwise there is one correction per question, in quiz order, each holding that question's text, submitted answer, expected answer, verdict and explanation, and the counter equals the number of corrections marked correct |
| Scoring.ArrayAnswerNeverCorrect | server.js:225 | a question whose `answer` is an array is never marked correct, whatever was submitted |
| Scoring.StringAnswerCorrectIff | server.js:225 | a question with a string answer is marked correct exactly when the submitted element is that same string |
| Scoring.SubmitAnswers | server.js:201-278 | a falsy required field gives a 400; a quiz that is not an array or holds a null question gives a 500; a failed store gives a 500; otherwise the corrections are those of the marking, the score is the number of questions whose submitted answer is `===` to the expected one and at most the number of questions, and the stored row carries the request's fields, that score and the question count |

## Left out

- The Express server, CORS, body parsing, the health route, the leaderboard routes and all logging are not modelled. They do not affect the responses above.
- The HTTP call to the language model and the prompt text are not modelled. The call is an oracle `ProviderReply`: the call fails, the reply has no `data`, the reply has no content, the content is null, or the content is a text. A content that is neither a string nor null is not modelled.
- The database client is not modelled. The `quiz_cache` table is the `CacheTable.rows` sequence, a failed lookup or insert is a boolean, and the `quiz_scores` insert is a boolean `storeFails`.
- Row order: `created_at` descending is modelled as reverse insertion order, assuming timestamps grow with each insert.
- Column comparison: the database's type coercion in `.eq` is modelled as structural equality of JSON values.
- Returned score row: the database returns the inserted row with columns it fills itself, such as the id and timestamp. `Scoring.SubmitAnswers` returns the payload that was sent in its place.
- JSON.parse is a parameter. Its grammar is not modelled, and numbers are integers only, so fractions and NaN are absent.
- Random choice: `Math.random` is a nondeterministic choice of an index among the rows found. `QuizHandler.GenerateQuiz` states only that the served quiz is that of some matching row, not that the choice is uniform.
- Strings are sequences of characters rather than UTF-16 code units. `answers[idx]` on a string answer yields one character.
- Property reads see only a parsed object's own members. Inherited properties cannot collide with the keys read here (`question`, `answer`, `explanation` and decimal indices).
- Error bodies: the `details` text of error responses (exception messages) is not modelled. Only the status and which failure occurred are.
- Configuration: reading the environment, the API key and the listening port is not modelled.
