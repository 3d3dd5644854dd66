# FoodScan response normaliser and result view, in Dafny

This project models the logic of the FoodScan analysis page that does not
depend on the network or on storage.

**The response normaliser.** `processMistralResponse` turns the chat model's
free-text reply into a food analysis record:

- it trims the reply;
- it cuts the text down to the span from the first `{` to the last `}`;
- it hands the result to `JSON.parse`;
- it spreads what was parsed into a new object and overrides eight fields
  with `value || default`;
- anything that throws on the way yields a fixed fallback record.

**The page's decisions around the normaliser:**

- the text flow's empty-name guard;
- the image flow's missing-file guard;
- the check that the reply has a truthy `choices[0].message.content`;
- the name handed to the result view.

**The result view.** From the record, the view derives:

- the first decimal number in a quantity string (`getNumericValue`);
- the macro values;
- the calorie estimate `calories || 4p + 4c + 9f`;
- the badge label.

**The record shape** (`FoodAnalysis` in lib/types.ts).

The modules:

- `Options`: an option type.
- `JsText`: the string operations the page uses: `trim`, with the full
  ECMAScript white-space set; `indexOf`; `lastIndexOf`; `split`. It also
  holds decimal digits and the canonical index-key spelling of a natural
  number.
- `Json`: values as `JSON.parse` returns them, plus the ECMAScript semantics
  applied to them: ToBoolean, `||`, property reads, optional chaining, and
  object spread. Spreading a string or an array copies index keys "0",
  "1", ….
- `Types`: a record as a map from property names to JSON values, its typed
  view `FoodAnalysis`, and the conversions between the two.
- `Normaliser`: the normaliser. Its result is tagged `Parsed` or `FellBack`,
  so the silent fallback can be observed. The page itself does not tell the
  two apart.
- `AnalyzePage`: the two flows as functions from the inputs and the reply
  body to an outcome, plus the display name.
- `AnalysisResult`: the number extraction, the macros, the calories and the
  badge.
- `ResultView`: facts that span the page and the view.

Modelling choices:

- `JSON.parse` is a parameter `parse: string -> Option<Json>`. `None` stands
  for a `SyntaxError`.
- The reply body (`await response.json()`) is a parameter `Option<Json>`.
  `None` stands for a failed request.
- Numbers are exact reals.

Behaviour of the code worth knowing:

- **Any JSON value is accepted.** `JSON.parse` may return any JSON value, and
  the code spreads whatever it returns:
  - `null` falls back, because reading `null.food_name` throws;
  - a number or a boolean gives the fallback record (`FillScalar`);
  - a string or an array keeps its index keys next to the defaults
    (`FillIndexed`).
- **Field types are not checked.** Truthy values of any type are kept
  unchanged, for example `"food_name": 5` or `"vitamins": "many"`.
- **A later `}` stretches the candidate.** An object embedded in prose is cut
  out exactly only when no `}` follows it in the text. A `}` after the object
  stretches the candidate past it (`CandidateOverrunsTrailingBrace`).
- **Empty content is a failure.** An empty content string is rejected, because
  the reply check is a truthiness check.
- **`id` is optional.** lib/types.ts declares `id` as required, but the
  normaliser never sets it itself: it only copies an `id` the reply carries
  through the spread, so a record may lack it. The typed view treats it as
  optional.

## Model

| member | source | states |
|---|---|---|
| `JsText.Trim` | app/analyze/page.tsx:56 | the result is the unique piece of the reply surrounded only by white space that neither starts nor ends with white space |
| `JsText.TrimOfUnique` | app/analyze/page.tsx:56 | at most one string is the trim of a given string, so the characterisation of `trim` is a definition |
| `JsText.TrimIdempotent` | app/analyze/page.tsx:56 | trimming twice is trimming once |
| `JsText.TrimAtEmptyIff` | app/analyze/page.tsx:56 | the trim is empty exactly when the whole string is white space |
| `JsText.IndexOf` | app/analyze/page.tsx:59 | the position of the first occurrence of the character, or none exactly when it does not occur |
| `JsText.LastIndexOf` | app/analyze/page.tsx:60 | the position of the last occurrence of the character, or none exactly when it does not occur |
| `JsText.Split` | app/analyze/page.tsx:365 | splitting on a separator gives at least one piece, and no piece contains the separator |
| `JsText.SplitThenJoin` | app/analyze/page.tsx:365 | joining the pieces with the separator gives back the file name |
| `JsText.JoinThenSplit` | app/analyze/page.tsx:365 | splitting a join of separator-free pieces gives back the pieces |
| `JsText.SplitFirstPiece` | app/analyze/page.tsx:365 | the first piece is the longest prefix of the name that holds no dot |
| `JsText.NatToStringRoundTrip` | app/analyze/page.tsx:69 | an index key reads back as the index it spells |
| `Json.FalsyValues` | app/analyze/page.tsx:71-78 | ToBoolean, which the logical OR and the reply check apply, is false exactly for `null`, `false`, `0` and the empty string; every array and object is truthy |
| `Json.Or` | app/analyze/page.tsx:71-78 | the logical OR of `x` and `d` is the left operand when it is truthy, and the right one when it is falsy or `undefined` |
| `Json.OrTruthy` | app/analyze/page.tsx:71-78 | the logical OR is truthy exactly when one of its operands is |
| `Json.SpreadProps` | app/analyze/page.tsx:69 | the spread copies an object's members; an array's elements or a string's characters under exactly the keys "0" to "n-1"; and nothing from `null`, a boolean or a number |
| `Json.IndexProps` | app/analyze/page.tsx:69 | spreading an array or string gives exactly the index keys "0" to "n-1", all digit strings, and key `i` holds element `i` |
| `Json.Get` | app/analyze/page.tsx:71-78 | a property read is defined exactly for the value's own properties and returns the property's value |
| `Json.OptGet` | app/analyze/page.tsx:123 | optional chaining on `null` or `undefined` reads `undefined`; on any other value it is the ordinary property read |
| `Json.NonDigitKeyNotOwned` | app/analyze/page.tsx:69-78 | a key with a non-digit character is never an own property of an array, a string or a scalar |
| `Json.GetFirstElement` | app/analyze/page.tsx:123 | `[0]` on a non-empty array is its first element |
| `Types.AsStrings` | lib/types.ts:27-30 | an array is read as `string[]` exactly when every element is a string, and then element by element |
| `Types.ToFoodAnalysis` | lib/types.ts:17-32 | a record has a typed view exactly when its properties have the declared types; the view carries the four strings, the four string arrays element by element, and the six optional properties |
| `Types.TypedViewRoundTrip` | lib/types.ts:17-32 | the record of any typed value reads back as that typed value |
| `Normaliser.FallbackRecord` | app/analyze/page.tsx:83-92 | the fallback record sets exactly the eight fields, each to its default, with the name taken from the text field |
| `Normaliser.Candidate` | app/analyze/page.tsx:58-64 | without a `{` before a `}` the candidate is the whole trimmed text; otherwise it starts with `{` and ends with `}` |
| `Normaliser.BraceBounds` | app/analyze/page.tsx:59-62 | any brace pair puts the first `{` at or before its `{` and the last `}` at or after its `}` |
| `Normaliser.OuterBraces` | app/analyze/page.tsx:59-60 | a text with a brace pair has a first `{` that comes before its last `}` |
| `Normaliser.CandidateIsBraceSpan` | app/analyze/page.tsx:59-64 | the candidate is the inclusive slice from the first `{` to the last `}` |
| `Normaliser.CandidateOfTrim` | app/analyze/page.tsx:56-64 | when the reply has a brace pair, trimming first does not change the candidate |
| `Normaliser.TrimBounds` | app/analyze/page.tsx:56 | every non-white-space character of the reply lies in the trimmed part |
| `Normaliser.BraceSpanInsideSlice` | app/analyze/page.tsx:59-64 | a slice holding the first `{` and the last `}` has the same candidate as the whole text |
| `Normaliser.CandidateOfWrappedObject` | app/analyze/page.tsx:56-64 | an object with no `{` in the prose before it and no `}` in the prose after it is the exact candidate |
| `Normaliser.CandidateOverrunsTrailingBrace` | app/analyze/page.tsx:59-64 | a `}` in the prose after the object makes the candidate longer than the object |
| `Normaliser.Overrides` | app/analyze/page.tsx:71-78 | the eight overriding definitions cover exactly the eight filled fields |
| `Normaliser.Fill` | app/analyze/page.tsx:68-79 | the keys are the parsed keys plus the eight fields; other parsed keys pass through unchanged; each field keeps a truthy parsed value, otherwise it takes its default |
| `Normaliser.FilledFieldsTruthy` | app/analyze/page.tsx:71-78 | after filling, every field but the name is truthy, and the name is truthy or the text field's content |
| `Normaliser.FillIdempotent` | app/analyze/page.tsx:68-79 | filling the filled record again changes nothing |
| `Normaliser.FillEmptyObject` | app/analyze/page.tsx:68-92 | filling `{}` gives the fallback record |
| `Normaliser.FillScalar` | app/analyze/page.tsx:67-79 | a parsed number or boolean gives the fallback record |
| `Normaliser.FillIndexed` | app/analyze/page.tsx:67-79 | a parsed string or array keeps its index keys, and all eight fields take their defaults |
| `Normaliser.ProcessResponse` | app/analyze/page.tsx:53-94 | the result always has the eight fields; it falls back exactly when the content is not a string, does not parse, or parses to `null`, and a fallback is the fixed record; otherwise it is the filled parse |
| `Normaliser.WrappedObjectParsed` | app/analyze/page.tsx:53-79 | a reply with an object in brace-free prose is normalised from the object alone |
| `Normaliser.BracelessCandidate` | app/analyze/page.tsx:56-64 | a brace-free reply with no white space at its ends reaches the parser unchanged |
| `Normaliser.FillPartialObject` | app/analyze/page.tsx:68-92 | an object setting some of the eight fields to truthy values gives the fallback record updated with them |
| `Normaliser.PartialObjectInProse` | app/analyze/page.tsx:53-92 | prose around such an object gives the fallback record updated with the object's fields |
| `Normaliser.NonJsonReplyFallsBack` | app/analyze/page.tsx:53-92 | a plain-text reply the parser rejects falls back to the record named by the text field |
| `Normaliser.EmptyObjectLikeFallback` | app/analyze/page.tsx:67-92 | a candidate parsing to `{}` is normalised to the fallback record |
| `AnalyzePage.TextInputReady` | app/analyze/page.tsx:97 | the text guard passes exactly when the trimmed name is truthy |
| `AnalyzePage.TextInputReadyIff` | app/analyze/page.tsx:97-100 | the name guard passes exactly when the name has a character that is not white space |
| `AnalyzePage.ReplyContent` | app/analyze/page.tsx:123-125 | the content is accepted exactly when the reply is an object whose `choices` has a first entry whose `message` object has a truthy `content`, and then it is that content |
| `AnalyzePage.ReplyContentOfChatReply` | app/analyze/page.tsx:123-127 | a chat reply, whatever other keys its parts carry, yields its first message's text, and is rejected when that text is empty |
| `AnalyzePage.IndexZeroRead` | app/analyze/page.tsx:123 | `[0]` reads the first element of an array or the first character of a string, and key "0" of an object |
| `AnalyzePage.NamedMemberRead` | app/analyze/page.tsx:123 | a member whose name does not start with a digit is read only from objects |
| `AnalyzePage.ReplyContentMissing` | app/analyze/page.tsx:123-125 | a reply without choices, or with an empty list of choices, is rejected |
| `AnalyzePage.HandleReply` | app/analyze/page.tsx:120-127 | the reply part of a flow never ends without a request; it fails with the flow's message exactly when the reply is missing or its content path is not accepted, and otherwise it analyses the accepted content |
| `AnalyzePage.AnalyzeByText` | app/analyze/page.tsx:96-147 | no request exactly when the trimmed name is empty, with its message; it fails exactly when the request was made and the reply is missing or rejected, with the text flow's message; otherwise the analysis is the normalised content |
| `AnalyzePage.AnalyzeByImage` | app/analyze/page.tsx:149-223 | no request exactly when no file is selected, with its message; it fails exactly when the request was made and the reply is missing or rejected, with the image flow's message; otherwise the analysis is the normalised content |
| `AnalyzePage.NoTextRequestWithoutName` | app/analyze/page.tsx:97-100 | without a usable name, the text flow's outcome does not depend on the server or the parser |
| `AnalyzePage.NoImageRequestWithoutFile` | app/analyze/page.tsx:150-153 | without a file, the image flow's outcome does not depend on the server or the parser |
| `AnalyzePage.ImageFallbackUsesTextField` | app/analyze/page.tsx:196 | an image reply that does not parse falls back to a record named after the text field, not the image |
| `AnalyzePage.DisplayName` | app/analyze/page.tsx:365 | the display name is never empty: the text field if non-empty, otherwise the file name's non-empty prefix before the first dot, otherwise "Ovqat" |
| `AnalyzePage.DisplayNameStem` | app/analyze/page.tsx:365 | with an empty text field, a non-empty stem before the first dot is the display name |
| `AnalyzePage.DisplayNameDotFile` | app/analyze/page.tsx:365 | a file name that is empty or starts with a dot gives "Ovqat" |
| `AnalysisResult.FirstDigit` | components/food-analysis-result.tsx:18 | the position of the first ASCII digit, or none exactly when there is none |
| `AnalysisResult.DigitRunEnd` | components/food-analysis-result.tsx:18 | the end of the maximal digit run that starts at the position |
| `AnalysisResult.MatchAt` | components/food-analysis-result.tsx:18 | the match text is the slice of the input at the match position |
| `AnalysisResult.MatchAtIsLexeme` | components/food-analysis-result.tsx:18 | that slice is a whole match of `\d+(\.\d+)?` |
| `AnalysisResult.MatchNumber` | components/food-analysis-result.tsx:18 | there is no match exactly when the string has no ASCII digit; a match is a whole lexeme of the pattern found in the string |
| `AnalysisResult.LexemeStartsWithDigit` | components/food-analysis-result.tsx:18 | every lexeme of the pattern starts with a digit |
| `AnalysisResult.MatchNumberLeftmostLongest` | components/food-analysis-result.tsx:18 | no lexeme starts before the match, and none starting where it does is longer |
| `AnalysisResult.NoLexemeAt` | components/food-analysis-result.tsx:18 | no match starts at a character that is not a digit |
| `AnalysisResult.LongestAt` | components/food-analysis-result.tsx:18 | no lexeme starting at a digit is longer than the greedy match there |
| `AnalysisResult.LongestDigitsAt` | components/food-analysis-result.tsx:18 | a digit run from the match position is no longer than the match |
| `AnalysisResult.LongestFractionAt` | components/food-analysis-result.tsx:18 | a number with a fraction from the match position is no longer than the match |
| `AnalysisResult.DecimalValue` | components/food-analysis-result.tsx:19 | the value of `whole.fraction` lies in `[whole, whole + 1)` |
| `AnalysisResult.ParseDecimal` | components/food-analysis-result.tsx:19 | the value of a matched lexeme is never negative |
| `AnalysisResult.NumericValue` | components/food-analysis-result.tsx:17-20 | the extracted value is never negative, and it is 0 when the string has no digit |
| `AnalysisResult.ParseWithFraction` | components/food-analysis-result.tsx:19 | digits, a dot and digits form a lexeme whose value is the whole part plus the fraction |
| `AnalysisResult.NumericValueOfMatch` | components/food-analysis-result.tsx:18-19 | the extracted value is the decimal value of the matched digits and fraction |
| `AnalysisResult.MacroValue` | components/food-analysis-result.tsx:23-25 | a macro is the numeric property when present and non-zero, otherwise the non-negative value read from the quantity string |
| `AnalysisResult.ProteinValue` | components/food-analysis-result.tsx:23 | the protein shown is the logical OR of `protein` and the number read from `protein_content`, on the record's own properties, and it is negative only when a negative `protein` is stated |
| `AnalysisResult.CarbsValue` | components/food-analysis-result.tsx:25 | the same for `carbs` and `carbohydrate_content` |
| `AnalysisResult.FatValue` | components/food-analysis-result.tsx:24 | the same for `fat` and `fat_content` |
| `AnalysisResult.CaloriesValue` | components/food-analysis-result.tsx:34 | calories are the stated value when present and non-zero, otherwise the 4/4/9 estimate from the selected macros |
| `AnalysisResult.CaloriesNonNegative` | components/food-analysis-result.tsx:23-34 | with no negative numeric property, the calories shown are not negative |
| `AnalysisResult.BadgeLabel` | components/food-analysis-result.tsx:42 | the badge shows the record's name when non-empty, otherwise the name the page passes; it is empty exactly when both are |
| `AnalysisResult.DotWithoutDigit` | components/food-analysis-result.tsx:18-19 | "12.g" reads 12, because a dot without a following digit is not part of the match |
| `AnalysisResult.OneFractionOnly` | components/food-analysis-result.tsx:18-19 | "1.2.3" reads 1.2 |
| `AnalysisResult.MinusIgnored` | components/food-analysis-result.tsx:18-19 | "-5g" reads 5, because a sign is never part of the match |
| `AnalysisResult.ZeroGramsReadsZero` | components/food-analysis-result.tsx:17-20 | the default quantity "0g" reads 0 |
| `ResultView.FallbackTypedView` | app/analyze/page.tsx:83-92 | the fallback record's typed view has the name, three "0g" quantities, empty lists, and no optional property |
| `ResultView.FallbackShowsZero` | components/food-analysis-result.tsx:23-34 | for a fallback record the view shows 0 for every macro and 0 calories |
| `ResultView.BadgeNeverEmpty` | components/food-analysis-result.tsx:42 | with the page's display name as the fallback, the badge is never empty |

## Left out

- The HTTP request to the chat-completion endpoint, the API key and the
  request bodies (app/analyze/page.tsx:104-118, 164-187) are network I/O.
  The reply body is a parameter.
- Reading the image with `FileReader` is browser I/O.
- The Firestore and Storage writes (app/analyze/page.tsx:131-138, 199-214)
  and the `localStorage` write (page.tsx:129) are external stores.
- `AnalyzePage.AnalyzeByText`: an `Analysed` outcome stands for a completed
  normalisation. The page calls `setAnalysis` (page.tsx:128) before the
  writes, so when a write fails the analysis stays on screen and the failure
  toast appears as well. The model has no outcome for that combination.
- `AnalyzePage.AnalyzeByImage`: the same holds for the upload and the store
  write, which follow `setAnalysis` at page.tsx:197. The `FileReader` promise
  (page.tsx:160-162) has no error handler, so on a read error it never
  settles and the flow stays busy with neither outcome; the model has no such
  state.
- Toasts, the busy flag and async sequencing are UI and event-loop state with
  no invariant of their own.
- The JSON grammar is not modelled. `JSON.parse` is a parameter, so a reply
  is modelled by what the parser makes of it.
- Object member order, duplicate keys, and properties inherited from
  prototypes are not modelled. None of the keys the page reads is inherited.
- `AnalysisResult.ParseDecimal` and `AnalysisResult.NumericValue` give the
  exact decimal value. They do not give the IEEE double that `parseFloat`
  returns.
- `Math.round` of the calories is not modelled, because it is display
  rounding.
- `Json.OwnProps`: strings are sequences of code points, not UTF-16 code
  units. Spreading a parsed string gives one key per UTF-16 code unit, so a
  string holding one emoji spreads to keys "0" and "1" where the model gives
  the one key "0". The digits, braces and dots the page searches for are
  single code units, so only the index keys of such strings differ.
- `Json.CharValues`: the same; it gives one element per code point.
- `AnalysisResult.CaloriesValue`: the view is modelled only on records that
  have a typed view. When `calories` is falsy, a truthy `protein` that is not
  a number is passed on by line 23 of components/food-analysis-result.tsx.
  One that does not convert to a number, such as `"12g"` or a plain object, makes
  the sum at line 34 NaN, which line 51 then shows; one that does, such as
  `"12"` or `true`, is counted as that number.
- `AnalysisResult.ProteinValue`: takes the typed view, so a truthy `protein`
  that is not a number, which line 23 passes through unchanged, is outside
  its domain.
- `AnalysisResult.FatValue`: the same for `fat` at line 24.
- `AnalysisResult.CarbsValue`: the same for `carbs` at line 25.
- `AnalysisResult.MacroValue`: the same restriction; a non-number macro
  property is not modelled.
- `AnalysisResult.NumericValue`: only strings are read. When the matching
  numeric property is falsy, a `protein_content` that is not a string, such
  as `12`, makes `.match` throw at components/food-analysis-result.tsx:18,
  so the component fails to render.
- `AnalysisResult.BadgeLabel`: only a string `food_name` is modelled; the
  badge of a record without a typed view is not.
- The rest of the repository is UI and authentication wiring with no logic to
  state: the dashboard, profile, login and landing pages, the navbar, the
  backgrounds and the login button.
