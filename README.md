# math-tutor core, modelled in Dafny

A Dafny model of the deterministic logic inside the math-tutor chat app. It has four parts:

- **The client-side safe-expression gate** (`evaluateMathExpression` in `src/utils/mathEvaluator.js`). It runs checks in a fixed order: input guard, `trim`, an eleven-pattern denylist, the `expr-eval` parser, then a finiteness check on the parser's value.
- **The LaTeX segmenter** (`parseLatex`) and **`escapeHtml`** in `src/utils/latexRenderer.js`. `parseLatex` runs four delimiter regular expressions over the text still to be consumed. It keeps the earliest match, emits the text before it and a math part, and continues after the match.
- **The serverless chat handler** (`handler` and its local `evaluateMathExpression` in `api/chat.js`). It covers:
  - the HTTP guards;
  - the outgoing message list;
  - one optional calculator round, whose tool results are tied to the calls by `tool_call_id`;
  - a second and final model call;
  - the shaping of the reply, with a degraded fallback that sets `metadata: null`.
- **The image-file validator** (`validateImageFile` in `src/services/openai.js`).

The files:

- `wrappers.dfy` holds `Option` and `Result`.
- `js.dfy` holds the JavaScript semantics the code relies on:
  - dynamic values and truthiness;
  - property reads, which throw on `null` and `undefined`;
  - `String.prototype.trim`, with the full ECMAScript white-space and line-terminator set.
- `js_regex.dfy` models a regular expression of the form `open(group+?)close`. `match` is a leftmost search for the lazy (shortest) group, and `indexOf` is a plain substring search. The group's characters exclude line terminators unless the group is `[\s\S]`.
- `math_evaluator.dfy`, `latex_renderer.dfy`, `chat_api.dfy` and `image_validation.dfy` hold the four parts.

Code that changes state step by step is imperative Dafny:

- `ParseLatex` is a method with the source's `while` loop. It is proved equal to the recursive specification `Segments`.
- `Handle` is a method with the source's loop over `tool_calls`. It is proved equal to the specification `Turn`.

Calls into code outside the model become function parameters (oracles), and every property is proved for all of them. These are:

- the `expr-eval` parser (`string -> EvalOutcome` on the client, `Value -> EvalOutcome` on the server);
- the OpenAI chat-completion call (`LlmRequest -> LlmOutcome`);
- `JSON.parse` (`string -> Result<Value, string>`);
- `JSON.stringify`.

The claim "the denylist runs before the parser" is stated as oracle independence: two parsers give the same verdict on a refused input.

How some source details are read:

- **Errors the JavaScript engine throws.** Reading a property of `undefined`, or destructuring an undefined `req.body`, throws an error whose message the handler sends back. These messages use V8's wording (`ReadErrorText`, `BodyFields`).
- **The stable sort in `parseLatex`.** The `sort` by `a.index - b.index` is stable. So `matches[0]` is the first entry with the least index; among equal indices, the fixed order `$$`, `$`, `\[`, `\(` decides. This is `EarliestPos` with `Kind.Rank`.
- **`remaining.indexOf(match[0])`.** It is modelled as written, and `IndexOfMatch` proves it equals the position where the regular expression matched. No occurrence of the match text can start earlier, because that occurrence would itself have been an earlier match.
- **Case-insensitive patterns.** A case-insensitive regular expression (`/eval/i`) compares characters after ECMAScript canonicalisation (upper-casing). Canonicalisation never maps a non-ASCII character to an ASCII one, and every pattern spells ASCII only. So ASCII case folding decides a match (`Canonical`, `DenylistedCharacterization`).

## Model

| member | source | states |
|---|---|---|
| Js.GetProperty | math-tutor/api/chat.js:161 | Reading a property fails exactly on null or undefined, with the engine's TypeError text. On an object it yields the own property, and otherwise `undefined`. The last part holds for the keys the handler reads (`messages`, `systemPrompt`, `expression`, `message`, `metadata`), not for JavaScript in general: `"ab".length` and `[x][0]` are defined. |
| Js.ReadErrorText | math-tutor/api/chat.js:111 | Definition: V8's TypeError text for reading a property of null or undefined, as `message.tool_calls` throws when there is no first choice (chat.js:107-111). `GetProperty` states when it is thrown, and `ThrownErrorsAnswer500` states that the handler answers it with 500. |
| Js.Trim | math-tutor/src/utils/mathEvaluator.js:19 | The result is an infix of the input with only white space around it. It neither starts nor ends with white space. |
| Js.TrimPadded | math-tutor/src/utils/mathEvaluator.js:19 | `trim` is determined by its contract: padding a string that has no white space at either end, then trimming, gives the string back. |
| Js.Truthy | math-tutor/api/chat.js:83 | Definition: `!x` is true exactly for `undefined`, `null`, `false`, `0`, `-0`, `NaN` and `""`, as at mathEvaluator.js:11 and chat.js:83, 150 and 161. |
| Js.ToStringThrows | math-tutor/api/chat.js:119 | Definition: when ToString of a template literal throws. An object throws when its own `toString` is not callable and it has no callable own `valueOf`. Every plain object inherits `Object.prototype.valueOf`, but that returns the object itself, which is not a primitive. An array throws when one of its elements does. |
| Js.ToStringThrowsOnlyOnObjects | math-tutor/api/chat.js:119 | Only objects and arrays can fail to convert. A plain object without its own `toString` converts. An object whose own `toString` is not callable, and which has no own `valueOf`, throws. |
| MathEvaluator.Test | math-tutor/src/utils/mathEvaluator.js:37 | `pattern.test(s)` is true exactly when the pattern matches at some position of s. |
| MathEvaluator.SearchFrom | math-tutor/src/utils/mathEvaluator.js:37 | The scan from position i finds a match exactly when one starts at or after i. |
| MathEvaluator.Denylisted | math-tutor/src/utils/mathEvaluator.js:36-43 | Definition: some pattern of the eleven-entry denylist tests true on s. `Evaluate` applies it to the trimmed input. `DenylistedCharacterization` states what that means. |
| MathEvaluator.Evaluate | math-tutor/src/utils/mathEvaluator.js:10-67 | A falsy or non-string input fails with "Invalid expression: must be a non-empty string". A trimmed input the denylist matches fails with "Expression contains disallowed content". A parser exception fails with "Evaluation error: " followed by its message. A non-number or non-finite value fails with "Expression did not evaluate to a valid number". Success holds exactly when every gate passes and the parser returns a finite number, which is the result. |
| MathEvaluator.FoldedOccurs | math-tutor/src/utils/mathEvaluator.js:23-33 | For a lower-case word, the `i`-flagged pattern matches exactly when the word occurs in s after ASCII lower-casing. |
| MathEvaluator.LiteralOccurs | math-tutor/src/utils/mathEvaluator.js:25-26 | A pattern without the `i` flag matches exactly when its text occurs literally. |
| MathEvaluator.KeywordsAreLowerCase | math-tutor/src/utils/mathEvaluator.js:22-34 | The nine keyword patterns are spelled in lower-case ASCII letters and underscores. |
| MathEvaluator.DenylistedCharacterization | math-tutor/src/utils/mathEvaluator.js:22-43 | The denylist matches exactly when one of eval, function, require, import, document, window, process, `__proto__` or constructor occurs ignoring case, or `=>` or `${` occurs literally. |
| MathEvaluator.DisallowedNeverParses | math-tutor/src/utils/mathEvaluator.js:36-47 | On a disallowed input, any two parsers give the same verdict, "Expression contains disallowed content". The parser is never consulted. |
| MathEvaluator.InvalidInputNeverParses | math-tutor/src/utils/mathEvaluator.js:11-16 | An input that is not a non-empty string fails with the invalid-input error, whatever the parser. |
| MathEvaluator.ParserSeesOnlyTrimmedInput | math-tutor/src/utils/mathEvaluator.js:19-47 | Two parsers that agree on the trimmed input give the same verdict. The trimmed string is all the parser sees. |
| MathEvaluator.ProcessExitDisallowed | math-tutor/src/utils/mathEvaluator.js:31 | `"process.exit()"` is refused as disallowed. |
| MathEvaluator.UpperCaseKeywordDisallowed | math-tutor/src/utils/mathEvaluator.js:23 | `" EVAL(1)"` is refused as disallowed: the input is trimmed and the match ignores case. |
| JsRegex.ShortestClose | math-tutor/src/utils/latexRenderer.js:20-23 | The lazy group search returns a length no smaller than where it started, and the whole match fits in s. |
| JsRegex.ShortestCloseIsLazy | math-tutor/src/utils/latexRenderer.js:20-23 | What the lazy group search returns is a match. No shorter length it skipped is one, and when it returns nothing, no group length from n on matches. |
| JsRegex.FindFrom | math-tutor/src/utils/latexRenderer.js:20-23 | A match found from p starts at or after p, has a non-empty group and fits in s. |
| JsRegex.FindFromIsLeftmost | math-tutor/src/utils/latexRenderer.js:20-23 | The search from p returns the first position at or after p where a match starts, with its shortest group. When it returns nothing, no match starts at or after p. |
| JsRegex.Exec | math-tutor/src/utils/latexRenderer.js:20-23 | `remaining.match(re)`: a found match has a non-empty group and fits in the text. `ExecIsLeftmostLazy` states which match it is. |
| JsRegex.ExecIsLeftmostLazy | math-tutor/src/utils/latexRenderer.js:20-23 | `s.match(re)` is null exactly when the expression matches nowhere. Otherwise it is the leftmost match, with the shortest group at that position. |
| JsRegex.GroupOfMatch | math-tutor/src/utils/latexRenderer.js:21-23 | The group of a match is non-empty (`+?`). For `.` groups (the inline forms) it holds no line terminator. |
| JsRegex.GroupMaySpanLines | math-tutor/src/utils/latexRenderer.js:20-23 | For every non-empty group, the opening string, the group and the closing string form a match exactly when the pattern has the `[\s\S]` group or the group holds no line terminator. So the block forms may span lines and the inline forms may not. |
| JsRegex.MatchText | math-tutor/src/utils/latexRenderer.js:34 | Definition: `match[0]`, the whole matched text from the match start. |
| JsRegex.Group | math-tutor/src/utils/latexRenderer.js:61 | Definition: `match[1]`, the text of the lazy group. `GroupOfMatch` states its properties. |
| JsRegex.IndexFrom | math-tutor/src/utils/latexRenderer.js:34 | `indexOf` returns -1 exactly when t occurs nowhere from i on. Otherwise it returns the first occurrence at or after i. |
| JsRegex.IndexOf | math-tutor/src/utils/latexRenderer.js:34 | Definition: `s.indexOf(t)` is the search from position 0. `IndexFrom` states what it returns. |
| JsRegex.MatchTextRepeats | math-tutor/src/utils/latexRenderer.js:34 | Where the text of a match occurs, the same delimiter pair matches. |
| JsRegex.IndexOfMatch | math-tutor/src/utils/latexRenderer.js:34 | `remaining.indexOf(match[0])` is the position where the regular expression matched. |
| LatexRenderer.KindsInRankOrder | math-tutor/src/utils/latexRenderer.js:26-30 | The `matches` array lists the four forms in the order `$$`, `$`, `\[`, `\(`. |
| LatexRenderer.Kind.Pattern | math-tutor/src/utils/latexRenderer.js:20-23 | Definition: the four regular expressions. `$$…$$` and `\[…\]` use the `[\s\S]` group, and `$…$` and `\(…\)` use `.`. `GroupMaySpanLines`, `BlockSpansNewline` and `FirstParts` state what that means for line breaks. |
| LatexRenderer.Kind.Display | math-tutor/src/utils/latexRenderer.js:27-30 | Definition: the `display` flag is true for the two block forms and false for the two inline forms. `FirstParts` states that each math part carries it. |
| LatexRenderer.EntryFor | math-tutor/src/utils/latexRenderer.js:31-35 | Definition: the `matches` entry of one form, kept by the filter when its match is not null, with `index` from `indexOf(match[0])`. |
| LatexRenderer.CandidatesOf | math-tutor/src/utils/latexRenderer.js:26-35 | The filtered and mapped `matches` array has one entry per form whose expression matches, and only those. Each entry's `index` is where that form matched, and the entries keep the fixed order. |
| LatexRenderer.EarliestPos | math-tutor/src/utils/latexRenderer.js:36 | The head of the stable sort has the least index, and every entry before it has a larger index. |
| LatexRenderer.FirstMatch | math-tutor/src/utils/latexRenderer.js:36-48 | `matches[0]` is a match of its own form, at the recorded index. |
| LatexRenderer.HeadOfSortIsFirst | math-tutor/src/utils/latexRenderer.js:36 | The sort's head starts no later than any entry. On equal indices it has the lower rank. |
| LatexRenderer.FirstMatchNoneIff | math-tutor/src/utils/latexRenderer.js:38 | `matches` is empty exactly when no delimiter pair is complete anywhere in the text. |
| LatexRenderer.FirstMatchPrecedes | math-tutor/src/utils/latexRenderer.js:26-48 | The match consumed starts no later than any match of any form. On a tie, its form comes first in the fixed order. |
| LatexRenderer.FirstMatchIsEarliest | math-tutor/src/utils/latexRenderer.js:26-48 | Each step consumes none exactly when there is no delimiter pair. Otherwise it consumes a leftmost lazy match that starts no later than any match of any form, and its form wins ties in the order `$$`, `$`, `\[`, `\(`. |
| LatexRenderer.Step | math-tutor/src/utils/latexRenderer.js:50-66 | The text left after a step is shorter than before by at least the length of the whole match, so the loop ends. |
| LatexRenderer.SegmentsWithoutMatch | math-tutor/src/utils/latexRenderer.js:38-46 | With no delimiter pair, the rest of the text is emitted as one text part. |
| LatexRenderer.SegmentsWithMatch | math-tutor/src/utils/latexRenderer.js:47-66 | With a match, the parts are those of one step followed by the parts of the text after the match. |
| LatexRenderer.Segments | math-tutor/src/utils/latexRenderer.js:18-68 | Definition: the recursive specification of the loop. The parts of a step are followed by the parts of the rest, until no delimiter pair is left. `SegmentsWellFormed` and `ParseLatex` state its properties. |
| LatexRenderer.ParseLatex | math-tutor/src/utils/latexRenderer.js:12-71 | The loop returns the parts `Segments` describes, and nothing for an empty text. |
| LatexRenderer.TextBeforeMatchIsPlain | math-tutor/src/utils/latexRenderer.js:51-56 | The text emitted before a match holds no complete delimiter pair. |
| LatexRenderer.StepParts | math-tutor/src/utils/latexRenderer.js:50-63 | One step emits a non-empty plain text part or none, then a math part. |
| LatexRenderer.SegmentsWellFormed | math-tutor/src/utils/latexRenderer.js:38-66 | Every text part is non-empty and holds no complete delimiter pair. No two text parts are adjacent. |
| LatexRenderer.PlainTextIsOnePart | math-tutor/src/utils/latexRenderer.js:38-46 | A non-empty text yields exactly one text part, the whole input, exactly when it holds no complete delimiter pair. |
| LatexRenderer.FirstParts | math-tutor/src/utils/latexRenderer.js:51-63 | The first parts are the text before the match (when the match is not at 0), then a math part. The math part holds the trimmed group, with `display` true exactly for `$$` and `\[`. An inline group holds no line terminator. |
| LatexRenderer.BlockWinsTie | math-tutor/src/utils/latexRenderer.js:26-36 | `$$x$$` is one block math part `x`, not inline math. |
| LatexRenderer.BlockWinsTieMatch | math-tutor/src/utils/latexRenderer.js:26-36 | In `$$x$$` the `$$` form is consumed, although `$` also matches at 0. |
| LatexRenderer.BlockSpansNewline | math-tutor/src/utils/latexRenderer.js:20-23 | `$$` and `\[` match around `a`, line feed, `b`. `$` and `\(` do not match there with any group length. |
| LatexRenderer.BlockSpansNewlineMatch | math-tutor/src/utils/latexRenderer.js:20-36 | In `$$a\nb$$` the `$$` form is consumed at 0, with the whole three-character group. |
| LatexRenderer.BlockSpansNewlineSegments | math-tutor/src/utils/latexRenderer.js:18-68 | `$$a\nb$$` segments into one block math part whose content keeps the line break. |
| LatexRenderer.EscapeHtml | math-tutor/src/utils/latexRenderer.js:98-107 | The result is no shorter than the input, and no raw `<`, `>`, `"` or `'` is left in it. |
| LatexRenderer.EscapeChar | math-tutor/src/utils/latexRenderer.js:99-105 | Definition: the five replacements `&amp;`, `&lt;`, `&gt;`, `&quot;` and `&#039;`. Every other character stays. `UnescapeChar` states that each replacement decodes back. |
| LatexRenderer.UnescapeEntity | math-tutor/src/utils/latexRenderer.js:99-105 | Each of the five entities, followed by any text, decodes back to the character it replaces. |
| LatexRenderer.UnescapeChar | math-tutor/src/utils/latexRenderer.js:99-105 | Each character's replacement decodes back to that character, whatever follows. |
| LatexRenderer.UnescapeEscape | math-tutor/src/utils/latexRenderer.js:98-107 | Decoding the five entities after escaping gives the text back, so nothing is lost or reordered. |
| LatexRenderer.EscapePlain | math-tutor/src/utils/latexRenderer.js:106 | Text without any of `& < > " '` is left unchanged. |
| LatexRenderer.EscapeAppend | math-tutor/src/utils/latexRenderer.js:106 | Escaping works character by character (the `g` flag): it distributes over concatenation. |
| ChatApi.LocalEvaluate | math-tutor/api/chat.js:42-59 | The server's evaluator reports success exactly when the parser returns, carrying the value. A throw is a failure with its message. Both echo the expression. |
| ChatApi.LocalEvaluatorSkipsDenylist | math-tutor/api/chat.js:42-59 | `"process.exit()"`, refused by the client-side gate, is still evaluated by the server's evaluator. |
| ChatApi.LocalEvaluatorPassesNonNumbers | math-tutor/api/chat.js:42-59 | A value the client-side gate refuses as not a valid number is a success on the server. |
| ChatApi.ServerFailure | math-tutor/api/chat.js:186-191 | The outer catch answers 500 with the error's message, or "Failed to get response" when the message is empty. |
| ChatApi.BodyFields | math-tutor/api/chat.js:81 | Destructuring the body fails exactly when it is null or undefined. For an object body, `messages` and `systemPrompt` are its properties, `undefined` when absent. For any other body (a string, number, boolean or array) both are `undefined`. |
| ChatApi.FullMessages | math-tutor/api/chat.js:88-94 | The outgoing list is the system-prompt message, then the client's messages in their order. |
| ChatApi.FirstRequest | math-tutor/api/chat.js:97-105 | Definition: the first request, made of the full messages with the calculator tool, temperature 0.3 and 600 tokens. `FirstRequestShape` states it for the turn. |
| ChatApi.SecondRequest | math-tutor/api/chat.js:133-143 | Definition: the second request, made of the full messages, the first reply and the tool results, with no tool offered. `AtMostTwoModelCalls` states it for the turn. |
| ChatApi.ContentOf | math-tutor/api/chat.js:145-148 | Definition: `message?.content`. A missing choice gives no content, not a TypeError, so a second reply without a choice ends in "No response generated". `FinalContentDecides` states it. |
| ChatApi.ArgsExpression | math-tutor/api/chat.js:118-121 | A tool call's expression is read from its parsed arguments. It fails with the parse error, with the property-read error, or, when the logging template literal `${args.expression}` cannot convert the expression to a string (chat.js:119), with "Cannot convert object to primitive value". |
| ChatApi.CalculateCalls | math-tutor/api/chat.js:117 | Definition: the calls the `name === "calculate"` test keeps. `CalculateCallsMembers` and `CalculateCallsAppend` state what it picks. |
| ChatApi.ToolMessage | math-tutor/api/chat.js:124-128 | Definition: the tool message, made of the call's `id`, the tool role and the serialized local result. |
| ChatApi.ToolResults | math-tutor/api/chat.js:115-130 | Definition: the `toolResults` the loop builds, or the first error it throws. `ToolResultsSucceedIff`, `ToolResultsCorrelated` and `ToolResultsFailAtFirst` state what it means. |
| ChatApi.CalculateCallsMembers | math-tutor/api/chat.js:116-117 | The calls the loop acts on are exactly the calls named `calculate`: a call is among them if and only if it is in `tool_calls` and is named `calculate`. |
| ChatApi.CalculateCallsAppend | math-tutor/api/chat.js:116-117 | The `calculate` calls keep their order: those of a + b are those of a followed by those of b. |
| ChatApi.ToolResultsSucceedIff | math-tutor/api/chat.js:115-130 | The tool results are built exactly when every `calculate` call's arguments can be read. |
| ChatApi.ToolResultsCorrelated | math-tutor/api/chat.js:115-130 | There is one tool message per `calculate` call, in `tool_calls` order, and other names are skipped. Each answers its call's `id` with the serialized local evaluation of its expression. |
| ChatApi.ToolResultsFailAtFirst | math-tutor/api/chat.js:116-118 | A failed calculator round reports the error of the first `calculate` call whose arguments cannot be read. |
| ChatApi.ToolResultsAreToolMessages | math-tutor/api/chat.js:124-128 | Every tool result has the tool role. |
| ChatApi.Shape | math-tutor/api/chat.js:148-185 | It answers 500 "No response generated" exactly when the final content is missing or blank once trimmed, and otherwise 200 with `usedCalculator`. A parsed object whose `message` and `metadata` are both truthy passes them on. Otherwise the raw trimmed content goes out with `metadata: null`. |
| ChatApi.WellFormed | math-tutor/api/chat.js:161 | Definition: the trimmed content parses to an object whose `message` and `metadata` are both truthy. |
| ChatApi.Conversation | math-tutor/api/chat.js:88-185 | Definition: the turn once the guards have passed, given as the response and the model requests in order. `AtMostTwoModelCalls`, `ThrownErrorsAnswer500` and `FinalContentDecides` state its properties. |
| ChatApi.Turn | math-tutor/api/chat.js:70-193 | Definition: the whole handler, given as the response and the model requests in order. `Handle` is proved equal to it, and `GuardsPrecedeModel` states its guards. |
| ChatApi.Handle | math-tutor/api/chat.js:70-193 | The handler's response, and the model requests it sends in order, are those of the turn specification. |
| ChatApi.GuardsPrecedeModel | math-tutor/api/chat.js:72-85 | OPTIONS gets 200, any other non-POST 405, a null or undefined body 500 with the destructuring TypeError's message (chat.js:81, answered at 186-191), and missing or non-array `messages` 400. No model request is made in any of these cases, so no oracle matters. A model request is made exactly when all guards pass. |
| ChatApi.FirstRequestShape | math-tutor/api/chat.js:88-105 | The first request sends the system prompt followed by the client's messages in order. It offers the calculator, with temperature 0.3 and 600 tokens. |
| ChatApi.AtMostTwoModelCalls | math-tutor/api/chat.js:97-145 | One or two requests are made. The second is made exactly when the first reply had `tool_calls` whose arguments could all be read. It sends the first messages, the first reply and the tool messages, with no tool offered, and differs from the first. |
| ChatApi.TurnMakesAtMostTwoModelCalls | math-tutor/api/chat.js:70-193 | A turn makes at most two model requests. |
| ChatApi.UsedCalculatorIffToolCalls | math-tutor/api/chat.js:108-113 | In a reply, `usedCalculator` is true exactly when the first model reply carried `tool_calls`. |
| ChatApi.FinalContentDecides | math-tutor/api/chat.js:148-185 | Once the model replies, the turn fails with "No response generated" exactly when the final content is missing or blank. Otherwise it succeeds with 200. |
| ChatApi.ThrownErrorsAnswer500 | math-tutor/api/chat.js:97-191 | A failed first model call, a missing first choice, unreadable tool arguments or a failed second model call are each answered by the 500 of the outer catch with that error's message, with no further model request. |
| ChatApi.MalformedArgumentsEndTheTurn | math-tutor/api/chat.js:118 | Unparsable `calculate` arguments end the turn with 500 and the parse error, after one model request. |
| ChatApi.UnprintableExpressionEndsTheTurn | math-tutor/api/chat.js:119 | The arguments `{"expression": {"toString": 0}}` make the logging line throw. The turn ends with 500 "Cannot convert object to primitive value" after one request, before the evaluator runs. |
| ChatApi.UnparsableContentDegrades | math-tutor/api/chat.js:177-185 | Content that does not parse as JSON goes out raw with `metadata: null` and 200. |
| ImageValidation.ValidateImageFile | math-tutor/src/services/openai.js:88-111 | The checks run in order: a missing file gives "No file provided", then a type outside the allow-list gives the type error, then a size above 20 MiB gives the size error. The file is valid exactly when all three pass. |
| ImageValidation.TypeCheckedBeforeSize | math-tutor/src/services/openai.js:96-108 | An oversized file of the wrong type is reported for its type. |
| ImageValidation.SizeBoundary | math-tutor/src/services/openai.js:89-108 | Exactly 20·1024·1024 bytes is accepted, and one byte more is refused. |
| ImageValidation.AllowedTypes | math-tutor/src/services/openai.js:90 | The allow-list is exactly png, jpeg, jpg, webp and gif. `image/svg+xml` is refused. |

## Left out

- The `expr-eval` parser and IEEE arithmetic are oracles. A number (`Js.Number`) is a real when finite, or one of ±Infinity and NaN. −0 is 0, and IEEE rounding is left to the parser oracle.
- `numbersEqual` is not modelled: it is a floating-point tolerance comparison.
- The OpenAI calls are not modelled (`parseImageToText`, `getSocraticResponse`, and the `openai.chat.completions.create` calls of the handler): they are network I/O. The model call is the oracle `llm`, a function of the request, so whatever a nondeterministic model could answer is covered. Within one turn the two requests always differ (`AtMostTwoModelCalls`).
- The request's model name (read from the environment), `tool_choice`, `response_format` and the calculator tool's description are constant configuration and are not modelled.
- `fileToBase64` is not modelled: it is an asynchronous `FileReader`.
- `JSON.parse` and `JSON.stringify` are oracles. The key order of the JSON bodies the handler sends is not modelled.
- `renderLatex` is not modelled: it is a thin KaTeX wrapper. `escapeHtml` is modelled on its own.
- `api/parse-image.js` and the React components are not part of this model: they are a thin vision-API proxy and rendering code.
- Prompt text, CORS headers and the output of `console` logging are not modelled. The ToString conversion that the template literal at chat.js:119 applies is modelled, because it can throw (`ArgsExpression`).
- Js.ToStringThrows: a callable `toString` or `valueOf` is taken to return a primitive. JSON values hold no functions, so this concerns only oracles that produce `Callable`.
- `stuckCount` is destructured in `api/chat.js` and never used, so there is no session tracker to model.
- Async control flow and concurrency between requests are not modelled: one handler call is one sequential turn.
- ParseLatex: the text is a string, and every non-string argument (`undefined`, `null`) is out of scope. The empty string is the falsy case modelled.
- Strings are sequences of Unicode code points, while JavaScript counts UTF-16 code units. Positions and lengths in the model are in characters. A character outside the Basic Multilingual Plane is one element here and two code units in JavaScript; both are matched by `.` and neither is a line terminator, so the parts are the same.
- ChatApi.AssistantMessage follows the SDK's typed reply: `content` is a string or absent, and `tool_calls` is an array or absent. A `tool_calls` that is not iterable, or content that is not a string, is not modelled.
- ChatApi.LocalEvaluate: an exception that is not an `Error`, whose `message` would be `undefined`, is not modelled. The parser oracle throws with a message.
- MathEvaluator.Evaluate: the same holds for the client-side gate. `Threw` carries a string message, so the "Evaluation error: undefined" that a thrown non-`Error` would produce at mathEvaluator.js:64 is not modelled.
- ImageValidation.ValidateImageFile: a falsy `file` is modelled as None. `file.type` is always a string, and `file.size` a natural number, as for a browser `File`.
