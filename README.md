# Lead robot: reply cleaning and result assembly

This project models the decision logic of the lead robot `index.js`. The robot
receives a list of URLs ("pistas"). For each URL it captures the rendered page
text. It asks a generative service to list the companies marked
"Desclassificada" or "Inabilitada", and returns every record found, each
tagged with the URL it came from (`fonte`).

The model has four modules:

- `JsValues` (`values.dfy`): the JavaScript values the robot handles. A JSON
  value is `Null`, `Bool`, `Num`, `Str`, `Arr` or `Obj`. The module also has
  JavaScript truthiness and an `Option` for results that may be `null`.
- `Cleaning` (`cleaning.dfy`): the cleaning of the service's reply. It removes
  every "```json", then every "```", then trims the ends. `RemoveAll` follows
  the leftmost, non-overlapping scan of a global `replace`. `Trim` drops
  ECMAScript white space and line terminators.
- `Analysis` (`analysis.dfy`): `analisarTextoComIA`. It has the guard against
  missing or short texts, the prompt with its 50000-character excerpt, the
  call to the service, cleaning and parsing, and the single `erro` record that
  replaces any failure.
- `Handler` (`handler.dfy`): the `/analisar` handler. `HandleAnalisar`
  checks `pistas`, and `AnalyseEach` loops over the URLs. For each URL it
  copies a non-empty analysis array into an `array`, stamps the items in
  place (`StampEach`, the `forEach`) and appends them to the answer.
  `Assemble` / `Collect` is the reference definition the loop is proved
  against. The lemmas about `Collect` state order, provenance and
  failure isolation.

The collaborators are parameters of the model:

- The page acquirer (`extrairTextoInteragindo`) is a sequence with what it
  returned for each URL position: a text, or `None` for its `null`.
- The generative service is one `Generator` per URL position. A `Generator`
  maps the prompt to an answer text or to a thrown error with its message.
- `JSON.parse` is a `Parser`: it maps a string to a parsed value or to a
  syntax error with its message.

So "the service is not called" is stated as "the result does not depend on the
generator".

`item.fonte = url` runs in non-strict JavaScript, and the model gives each kind
of item the effect it has there:

- An object gains or overwrites its `fonte` key, and keeps its other keys.
- On an array, the property is invisible in the JSON answer.
- On a string, number or boolean, the assignment does nothing.
- On `null`, it throws a TypeError. The handler's promise then rejects and
  the handler sends no answer (`Outcome.Rejected`). This happens when the
  service answers with an array holding `null`, such as `[null]`.

The handler has no 400 answer: a missing or unusable `pistas` gets a 200
answer with `[]`. The code also does no registry enrichment, no
decision-maker selection, no phone validation and no exclusion of winning
bidders.

## Model

| member | source | states |
|---|---|---|
| `Analysis.ShortTextSkipsService` | index.js:49 | A text that is missing, empty or shorter than 20 characters yields `null`, whatever the service and the parser would do, so neither is consulted |
| `Analysis.Excerpt` | index.js:53 | The excerpt is a prefix of the text, at most 50000 characters long, and it is the whole text when the text is not longer |
| `Analysis.PromptCarriesExactlyExcerpt` | index.js:53 | Two texts give the same prompt if and only if they have the same excerpt, so the service sees exactly the first min(length, 50000) characters |
| `Analysis.TailIsNeverAnalysed` | index.js:53-58 | Two texts that agree on their first 50000 characters get the same analysis |
| `Cleaning.RemoveAll` | index.js:56 | Global removal of a pattern never makes a string longer, and leaves unchanged a string without the pattern |
| `Cleaning.TrimStart` | index.js:56 | The result is the suffix of the input that starts at its first non-space; everything dropped is white space |
| `Cleaning.TrimEnd` | index.js:56 | The result is the prefix of the input that ends at its last non-space; everything dropped is white space |
| `Cleaning.TrimIsSlice` | index.js:56 | Trimming keeps one contiguous slice of the input, and every character outside that slice is white space |
| `Cleaning.TrimHasNoOuterSpace` | index.js:56 | A trimmed string neither starts nor ends with white space |
| `Cleaning.TrimIdempotent` | index.js:56 | Trimming a trimmed string changes nothing |
| `Cleaning.RemoveFenceLeavesNoFence` | index.js:56 | After every "```" is removed, no run of three backticks is left, even where removal joins shorter runs |
| `Cleaning.RemoveFenceLeadingTicks` | index.js:56 | Removing every "```" reduces the leading run of backticks modulo three |
| `Cleaning.CleanLeavesNoFence` | index.js:56 | A cleaned reply contains neither "```" nor "```json" |
| `Cleaning.CleanIdempotent` | index.js:56 | Cleaning a cleaned reply changes nothing |
| `Cleaning.CleanKeepsPlainReply` | index.js:56 | A reply with no fence and no white space at either end is its own cleaning |
| `Cleaning.CleanUnwrapsFence` | index.js:56 | A payload fenced as "```json", newline, payload, newline, "```" cleans to exactly that payload, whenever the payload holds no backtick and neither starts nor ends with white space |
| `Cleaning.CleanFencedEmptyArray` | index.js:56 | "```json\n[]\n```" cleans to "[]", one instance of the unwrapping |
| `Cleaning.CleanNullReply` | index.js:56 | "null" cleans to "null" |
| `Analysis.ReplyCleanedOnce` | index.js:54-58 | A service that answers with the already cleaned reply gives the same analysis as one that answers with the raw reply |
| `Analysis.FencedEmptyReplyIsEmptyArray` | index.js:54-58 | A fenced empty array reply gives the empty array, not an error |
| `Analysis.NullReplyIsNull` | index.js:54-58 | A "null" reply gives `null`, not an error |
| `Analysis.ServiceFailureGivesErrorRecord` | index.js:52-61 | A failed service call gives a one-element array whose only record has the single key `erro`, set to the fixed prefix plus the error message |
| `Analysis.ParseFailureGivesErrorRecord` | index.js:56-61 | A reply that JSON.parse rejects gives the same single `erro` record, with the parser's message |
| `JsValues.NonEmptyArrayGuard` | index.js:81 | `v && Array.isArray(v) && v.length > 0` holds exactly for non-empty arrays |
| `Handler.Stamp` | index.js:82 | Stamping an object sets `fonte` to the URL, keeps every other key and its value, and adds no other key; every other non-null item is left as it is |
| `Handler.FirstNull` | index.js:82 | The position of the first `null` item: no item before it is `null`, and it is the length when there is none |
| `Handler.StampEach` | index.js:82 | The `forEach` stamps the array in place, item by item, up to the first `null`, where it stops; it succeeds exactly when no item is `null` |
| `Handler.HandleAnalisar` | index.js:66-90 | The handler's answer equals the reference assembly of its URLs; a missing, non-array or empty `pistas` gets `[]` |
| `Handler.AnalyseEach` | index.js:75-89 | The sequential loop over the URLs yields the reference assembly: each URL's stamped items appended in order, or a rejection once an item is `null` |
| `Handler.AppendItems` | index.js:81-83 | Stamping a URL's items in place and appending them gives that URL's contribution: the stamped items, or a rejection when one is `null` |
| `Handler.CollectSplits` | index.js:75-86 | The answer to two lists of URLs, one after the other, is the answer to the first list followed by the answer to the second |
| `Handler.AssembleRespondsIffNoNull` | index.js:82-83 | The handler answers if and only if no URL's accepted analysis holds a `null` item; a single such item anywhere makes it reject |
| `Handler.RejectionIsFinal` | index.js:82 | Once a `null` item has made the handler throw, no later URL yields an answer |
| `Handler.CollectSkipsEmpty` | index.js:76-86 | A URL with no items can be removed from the list without changing the answer |
| `Handler.FailedAcquisitionIsIsolated` | index.js:79 | A URL whose page gave `null` (the acquirer's failure result, index.js lines 35 to 37) or an empty text contributes nothing, and the answer equals the answer without that URL |
| `Handler.UnusableAnalysisIsIsolated` | index.js:79-81 | A URL whose text was acquired but whose analysis is not a non-empty array (`null`, an object, a string, a number, a boolean or `[]`) contributes nothing, and the answer equals the answer without that URL |
| `Handler.FailedAnalysisSurfaces` | index.js:59-61 | A URL whose analysis failed contributes exactly one record, with the `erro` message and `fonte` set to the URL |
| `Handler.OriginsInOrder` | index.js:76-83 | The origins of the answer's items name existing items of existing URLs, in strictly increasing URL-then-item order |
| `Handler.ProvenanceOfItems` | index.js:82-83 | Every item of the answer is the item its origin names, stamped with that origin's URL and otherwise unchanged |
| `Handler.AnswerProvenance` | index.js:75-86 | The answer is, URL by URL and in URL order, the items of each URL's analysis, each stamped with its own URL |

## Left out

- Express setup, CORS, the 10 MB JSON body limit and `app.listen` are HTTP plumbing. The model starts from the parsed `pistas` value, with `None` for a missing key.
- The `GEMINI_API_KEY` check and client construction are process configuration.
- Puppeteer is left out: browser launch, navigation with its 60-second timeout, `innerText` capture and closing the browser in `finally`. Only the acquirer's result is modelled, as an optional text per URL position.
- `generateContent` is a foreign network service and `JSON.parse` is a library parser. Both are parameters of the model, and the example lemmas state what they assume of the parser.
- All `console.log` / `console.error` logging is left out.
- Handler.HandleAnalisar: what Express does with a rejected handler is not modelled (no answer, or an error page, depending on the version). Under Express 4 the rejection of the async handler goes unhandled, and on Node 15 or later an unhandled rejection ends the process by default, so a `[null]` reply takes down the whole server, not only this request. The model only records that the handler rejects.
- JavaScript strings are sequences of UTF-16 code units. The model uses one `char` per code unit, and a Dafny `char` cannot be a surrogate, so no text holding a surrogate code unit (any character outside the BMP, such as an emoji, or a lone surrogate) can be represented. For such texts the 20-character guard and the 50000-character cut, which in JavaScript count code units and can split a surrogate pair, are not modelled.
- JSON numbers are modelled as reals, not as doubles. Object key order is not modelled, because an object is a map.
- Analysis.AnalyseText: an error message is the message string of the service or parser failure. A thrown value without a `message` property, which would print "undefined", is not modelled.
