# Business resource recommender: verified model of the `/get-resources` handler

The backend has one HTTP route, `POST /get-resources`. It takes the sectors a user
picked, reads the matching rows of the Airtable table `Technical tools`, asks a Gemini model,
given only the sector names, to recommend resources as JSON, and returns the rows and the
model's parsed JSON. This project
models the three pieces of deterministic logic in that handler and proves what they
promise:

- **the filter formula** (`formula.dfy`, module `FormulaBuilder`). `FilterFormula` is the
  reference definition. `BuildFilterFormula` and `JoinParts` follow the handler's array
  code (`map`, `push`, `join`) loop by loop and are proved to compute it. The lemmas state
  the exact shape of the formula. An absent or empty selection gives `""`. Otherwise the
  result is `AND(OR(` + one `FIND("s", {Sector})` per sector, in order, + the `All sectors`
  clause + `))`. Each sector name appears verbatim at an offset fixed by the names before
  it. Because nothing is escaped, two different selections can give the same formula
  (`FormulaNotInjective`).
- **the reply sanitizer** (`sanitizer.dfy`, module `FenceSanitizer`). This is
  `replace(/```json|```/g, '')` followed by `trim()`, written as pure functions. The lemmas
  prove the following. No run of three backticks survives the replace. The replace changes
  the text exactly when the text holds one. `trim` leaves the unique slice with only whitespace
  around it and no whitespace at either end. The sanitized text is trimmed and fence-free. Sanitizing is
  idempotent. Clean text passes through unchanged. The replace reduces a fenced JSON code block
  to its body, and the trim then removes the line breaks around it.
- **the handler's outcomes** (`handler.dfy`, module `ResourcesHandler`). `GetResources`
  runs the stages in the handler's order. Its contract classifies every outcome:
  - a builder or store failure gives 500 `Failed to retrieve resources.`;
  - a model or parse failure gives 500 `Failed to generate AI-generated response as JSON`,
    and the rows are dropped;
  - success gives 200 with the store's rows projected to `{ id, fields }` in order, and
    with `JSON.parse` of the sanitized reply.

The store query and `JSON.parse` are function parameters. The model's reply is an input
(`None` when the call throws). The `sectors` property is one of three cases:
- a falsy value;
- an array of strings;
- another truthy value. When such a value has a positive `length`, `.map` throws and the
  outer handler answers 500.

## Model

| member | source | states |
|---|---|---|
| FormulaBuilder.Clause | server.js:30 | definition of one sector's clause; `ClauseParts` states its three pieces and its length |
| FormulaBuilder.Clauses | server.js:30-31 | definition of the mapped clauses followed by the `All sectors` clause; `ClausesLength` and `FormulaShape` state its length, order and last element |
| FormulaBuilder.Join | server.js:32-35 | definition of `Array.prototype.join`; `JoinLength`, `JoinSplit` and `JoinPosition` characterise it, and `JoinParts` computes it by a loop |
| FormulaBuilder.HasSectors | server.js:29 | definition of the guard `formData.sectors && formData.sectors.length > 0` for an array; `FormulaEmptyIff` states that the formula is empty exactly when it fails |
| FormulaBuilder.FilterFormula | server.js:27-35 | reference definition of the formula, or the throw; `FormulaEmptyIff`, `FormulaShape`, `ClauseAt` and `SectorVerbatim` characterise it, and `BuildFilterFormula` is proved to compute it |
| FormulaBuilder.JoinParts | server.js:32 | `Array.prototype.join` computed by a loop equals the reference `Join` of the parts with the separator |
| FormulaBuilder.BuildFilterFormula | server.js:27-35 | the handler's step-by-step array construction (map, push of the catch-all, join into `OR(...)`, join into `AND(...)`) yields exactly `FilterFormula` of the `sectors` value, including the throw for a truthy non-array with positive length |
| FormulaBuilder.JoinSplit | server.js:32 | a joined string splits at any inner part boundary into the join of the prefix, the separator and the join of the rest |
| FormulaBuilder.JoinLength | server.js:32 | a join is as long as its parts plus one separator between each two |
| FormulaBuilder.JoinPosition | server.js:32 | part `i` occurs verbatim in the join right after the first `i` parts and `i` separators |
| FormulaBuilder.ClausesLength | server.js:30 | each clause `FIND("s", {Sector})` is 18 characters longer than its sector name |
| FormulaBuilder.FormulaEmptyIff | server.js:29-35 | the formula is `""` exactly when there is no non-empty sector list (and the value does not throw); it throws exactly for a truthy non-array with positive length |
| FormulaBuilder.FormulaShape | server.js:30-35 | a non-empty list gives `AND(OR(` + the clauses joined by `", "` + `))`; there are n+1 clauses, clause i is sector i's, and the formula ends with the `All sectors` clause and `))` |
| FormulaBuilder.ClauseAt | server.js:30-35 | clause `i` sits in the formula at offset 7 + (lengths of earlier sectors) + 20·i |
| FormulaBuilder.ClauseParts | server.js:30 | a clause is `FIND("`, the sector name unchanged, and `", {Sector})`, 18 characters more than the name |
| FormulaBuilder.SectorVerbatim | server.js:30 | sector name `i` appears unchanged (quotes included) right after the `FIND("` of its clause |
| FormulaBuilder.FormulaNotInjective | server.js:30 | the sector list `["a", "b"]` and the single sector `a", {Sector}), FIND("b` give the same formula |
| FenceSanitizer.StripFences | server.js:86 | the global replace never lengthens the text |
| FenceSanitizer.FenceTests | server.js:86 | the character tests used by the scan hold exactly when the text starts with ```` ``` ````, resp. ```` ```json ```` |
| FenceSanitizer.KeptFirst | server.js:86 | where neither alternative matches, the first character is kept and the scan resumes at the next one |
| FenceSanitizer.KeptBacktick | server.js:86 | a kept backtick is never followed by two more backticks in the output |
| FenceSanitizer.StripLeavesNoFence | server.js:86 | no three backticks in a row remain after the replace, including none formed by joining what is left |
| FenceSanitizer.StripChangesIffFence | server.js:86 | the replace leaves the text unchanged if and only if it holds no fence, and it shortens any text that holds one |
| FenceSanitizer.StripIdempotent | server.js:86 | replacing a second time changes nothing |
| FenceSanitizer.JsonFenceRemovedWhole | server.js:86 | where ```` ```json ```` matches, the first alternative wins and the tag is removed with the fence |
| FenceSanitizer.BareFenceRemoved | server.js:86 | a bare ```` ``` ```` not followed by `json` is removed alone and scanning resumes after it |
| FenceSanitizer.KeepPrefix | server.js:86 | fence-free text that does not end in a backtick is kept whole, and the rest is replaced as if it were alone |
| FenceSanitizer.FenceFound | server.js:86 | three backticks in a row at any position make the text hold a fence |
| FenceSanitizer.StripTicks | server.js:86 | zero, one or two backticks followed by a fence: the first three backticks go and the rest stay |
| FenceSanitizer.KeepBeforeTicks | server.js:86 | fence-free text not ending in a backtick, then at most two backticks, then a fence, loses exactly the fence |
| FenceSanitizer.StripBeforeFence | server.js:86 | any fence-free text followed by a closing fence loses only the fence, whatever backticks it ends with |
| FenceSanitizer.StripCodeBlock | server.js:86 | a `json`-tagged code block around any fence-free text loses both fences and keeps its body |
| FenceSanitizer.NoFenceSlice | server.js:86 | any piece of fence-free text is fence-free |
| FenceSanitizer.IsWhitespace | server.js:86 | definition of the ECMAScript WhiteSpace and LineTerminator code points that `trim()` removes; `Trim` and `TrimUnique` are stated over it |
| FenceSanitizer.TrimStartIndex | server.js:86 | the forward scan passes only ECMAScript whitespace and stops at the end or at a character that is not whitespace |
| FenceSanitizer.TrimEndIndex | server.js:86 | the backward scan passes only whitespace and stops at its lower bound or just after a character that is not whitespace |
| FenceSanitizer.Trim | server.js:86 | `trim()` gives a slice of the input with only whitespace before and after it, and with no whitespace at either end |
| FenceSanitizer.TrimStartIndexUnique | server.js:86 | the forward scan stops exactly at the first character that is not whitespace |
| FenceSanitizer.TrimEndIndexUnique | server.js:86 | the backward scan stops exactly after the last character that is not whitespace |
| FenceSanitizer.TrimUnique | server.js:86 | every split into whitespace, a trimmed middle and whitespace has `Trim` as its middle |
| FenceSanitizer.TrimKeepsTrimmed | server.js:86 | text without surrounding whitespace is left as it is by `trim()` |
| FenceSanitizer.TrimLineBreaks | server.js:86 | the line breaks around trimmed text are removed |
| FenceSanitizer.Sanitize | server.js:86 | definition of `replace(...).trim()` as `Trim` after `StripFences`; `SanitizedShape`, `SanitizePassThrough`, `SanitizeIdempotent` and `SanitizeCodeBlock` characterise it |
| FenceSanitizer.SanitizedShape | server.js:86 | the text given to `JSON.parse` has no surrounding whitespace and no fence |
| FenceSanitizer.SanitizePassThrough | server.js:86 | a reply with no fence and no surrounding whitespace reaches `JSON.parse` unchanged |
| FenceSanitizer.SanitizeIdempotent | server.js:86 | sanitizing the sanitized text changes nothing |
| FenceSanitizer.SanitizeCodeBlock | server.js:86-87 | the reply ```` ```json\n{"a":1}\n``` ```` is handed to `JSON.parse` as `{"a":1}` |
| ResourcesHandler.Failure | server.js:89-104 | a 500 answer with `success: false` and either of the handler's two messages is a well-formed response |
| ResourcesHandler.Project | server.js:42-45 | the resources have the records' length and order, and each holds exactly its record's `id` and `fields` |
| ResourcesHandler.GetResources | server.js:23-106 | the response is well formed (status 200 iff `success`); a builder or store failure gives 500 "Failed to retrieve resources."; a model or parse failure gives 500 "Failed to generate AI-generated response as JSON" with no rows; otherwise 200 with the projected rows of the query on the built formula and the parse of the sanitized reply |

## Left out

- Express setup, body parsing, CORS, the port and environment settings, and `app.listen`
  (server.js:1-21, 108-111): framework plumbing with no logic to verify.
- The Airtable client (server.js:19, 38-40). It is a network service, so it appears only
  as the `query` parameter from formula to rows-or-failure. The table name and paging are
  not modelled.
- The Gemini call (server.js:84-85). It is a network call, so it appears only as the
  `reply` input. `reply` does not depend on the prompt.
- The prompt text (server.js:49-80). It is a constant template around `JSON.stringify` of
  the sectors and has no behaviour of its own.
- `JSON.parse` (server.js:87): it is an uninterpreted parameter. JSON numbers are kept as
  their literal text, so floating point is out of scope.
- Sector values that are not strings are not modelled. Array elements such as numbers or
  objects would be stringified by the template literal.
- Logging and the unused imports (OpenAI, Anthropic, axios): no logic.
- Concurrency between requests: the handler shares no mutable state.
- FenceSanitizer.StripFences, FenceSanitizer.Trim, FormulaBuilder.Clause,
  FormulaBuilder.ClauseAt and FormulaBuilder.SectorVerbatim: characters are Unicode scalar
  values, while JavaScript strings are UTF-16 code units. Lengths and offsets count code
  points, not UTF-16 units. Text with lone surrogates, such as sector names sent as JSON
  `\ud800` escapes, is outside the model.
