# PopPersona core in Dafny

PopPersona is a chat app. It turns a free-text self-description into a "pop
culture twin" profile:

- Gemini extracts interests, traits and preferences and writes a short summary.
- Qloo supplies recommendations for five entity types.
- A React context keeps the conversation, the loading flag, the recommendation
  lists and the summary.

This project models that core as pure functions over immutable data and proves
what the code promises.

- `ReplyParsing` — `safeJsonParse`. It parses the whole reply, then the first
  fenced code block, then the widest brace-delimited span.
- `Personality` — `analyzePersonality`. This covers the structure check, the
  retry decision on error messages, the back-off delays and the default
  profile. It also covers the fallback text of `generateProfileSummary`.
- `Placeholder` — `getFallbackImage`. This covers the colour table, the avatar
  text and `encodeURIComponent` with its inverse.
- `Recommendations` — `getRecommendations`. This covers the type check, the
  `Math.min` cap, the status handling, payload selection, `slice` and the
  per-item normalisation with the spread.
- `Conversation` — `AppProvider` state and `processUserInput`. A run is the list
  of state updates it performs; applying them gives the settled state.
- `InterestMapping` — `mapInterestsToEntities`. A loop method is proved equal to
  a functional reference.
- `MessageFormat` — the URL tokeniser of `formatMessage`, with
  `String.prototype.split` semantics for a capturing pattern.
- `Sections` — the `activeSections` filter, section titles and card keys of
  `RecommendationsSection`.
- `Wrappers`, `Text`, `Json`, `Records` — shared helpers:
  - `Option` and `Result`;
  - JavaScript whitespace, `includes`, ASCII case mapping and decimal
    rendering;
  - JSON values and truthiness;
  - string-keyed entries that keep insertion order, as a JavaScript object
    does.

Remote calls become parameters:

- Each Gemini analysis call gives a `CallOutcome`: a reply, no response, or a
  thrown error with or without a message. The outcomes are indexed by attempt.
- The summary call gives a `SummaryOutcome`.
- Each Qloo request gives a `FetchOutcome`: a network failure, or a status
  with a parsed body.
- `JSON.parse` is an arbitrary partial function from strings to values.
- Random ids come from supplies indexed by position.

## Model

| member | source | states |
|---|---|---|
| ReplyParsing.FencedBlock | src/services/api.js:33-36 | The fenced-block capture exists exactly when two fence markers are far enough apart. It is a slice of the reply that contains no fence marker and neither starts nor ends with whitespace. |
| ReplyParsing.FencedBlockIsCapture | src/services/api.js:33 | Every block found is the capture of a match layout. The opener is the first fence marker, followed by an optional `json` tag and whitespace. The capture runs from the first non-space character to the whitespace before the next marker. |
| ReplyParsing.FencedBlockAt | src/services/api.js:33 | Given any such match layout, the extracted block is exactly that layout's capture. |
| ReplyParsing.BraceSpan | src/services/api.js:39-42 | A brace span exists exactly when some `{` precedes some `}`. It starts at the first `{` and ends at the last `}`. |
| ReplyParsing.SafeJsonParse | src/services/api.js:26-50 | A reply that parses whole is returned as parsed. Any other success is the parse of some slice of the reply. Every failure message starts with "Failed to parse Gemini response: ". |
| ReplyParsing.ParseFailureMentionsParse | src/services/api.js:47 | Every parse failure message contains "Failed to parse", so the retry check treats it as retryable. |
| ReplyParsing.FencedBlockOfWrapped | src/services/api.js:33 | Take text without backticks, padded with whitespace and placed in a fence with prose before and after. The fence may be tagged `json`. It may also be untagged, provided the padding is non-empty or the text does not itself start with `json`. The extracted block is exactly that text. |
| ReplyParsing.BraceSpanOfEmbedded | src/services/api.js:39 | Braces embedded in prose that has no other braces are extracted exactly, with nothing before or after. |
| ReplyParsing.FencedReplyRecovered | src/services/api.js:29-35 | A reply that fails to parse whole but holds a parseable fenced block, tagged `json` or untagged, yields that block's value. |
| ReplyParsing.EmbeddedObjectRecovered | src/services/api.js:29-42 | A reply with no fence yields the value of its embedded object when that object parses. |
| ReplyParsing.FenceShadowsBraceSpan | src/services/api.js:33-47 | Once a fenced block, tagged or untagged, is found and fails to parse, the brace span is never tried. The error carries the block's parse error. |
| Personality.Attempt | src/services/api.js:86-108 | An accepted attempt comes from a reply and has truthy `interests`, `traits` and `preferences`. The error has no message exactly when the SDK threw a message-less value. A whole reply that parses to a well-shaped value is accepted as is. |
| Personality.AttemptAccepted | src/services/api.js:86-108 | An attempt is accepted exactly when three things hold: the reply text is non-empty, `safeJsonParse` reads it, and the value read is well-shaped. The analysis is then that value, which is the parse of some slice of the reply. |
| Personality.Retry | src/services/api.js:64-127 | The retry loop over any sequence of attempt results. With `retries` ≤ 0 nothing is tried and the fallback comes back. Otherwise it makes between 1 and `retries` tries, and the k-th delay is 2000·(4 − (retries − k)). Every delayed try was a retryable error. If the last try was a retryable error, it was delayed too and all retries were used. Otherwise there is one delay fewer than tries. The result is settled by the last try: its value, a rejection for an error without a message, or the fallback. |
| Personality.AnalyzePersonality | src/services/api.js:53-129 | With `retries` ≤ 0 no call is made. Otherwise there are between 1 and `retries` calls, at most one delay per call, and the k-th delay is 2000·(4 − (retries − k)). A resolved value is well-shaped. |
| Personality.AcceptedFromLastCall | src/services/api.js:86-108 | A resolved value other than the default is what the last call's attempt was accepted with. |
| Personality.RetryableAt | src/services/api.js:110-118 | The attempt of call n is a retryable error exactly when call n was a retryable failure. That is either an SDK error with a retryable message, or a non-empty reply that `safeJsonParse` cannot read. |
| Personality.RetriedAfterRetryableFailures | src/services/api.js:110-122 | Every back-off delay follows a call that was a retryable failure. |
| Personality.StopsOnFinalAttempt | src/services/api.js:110-127 | A delay follows the last call exactly when that call was a retryable failure. In that case every retry was used and the default comes back. Otherwise there is one delay fewer than calls. |
| Personality.SettlesOnLastCall | src/services/api.js:64-127 | The call settles as its last call's attempt does: with its value, with a rejection when it threw without a message, or with the default. Without any call it gives the default. |
| Personality.RejectedAfterBareThrow | src/services/api.js:110-116 | The call rejects exactly when its last Gemini call threw a value with no message, whose missing `message` the catch block then reads. |
| Personality.DefaultAnalysisHasShape | src/services/api.js:55-62 | The default profile passes the structure check itself. |
| Personality.OutOfRetries | src/services/api.js:64-68 | With no retries left the default comes back, with no call and no delay. |
| Personality.FirstReplyAccepted | src/services/api.js:86-108 | A first reply that parses to a well-shaped value is returned after exactly one call. |
| Personality.InternalMessagesNotRetryable | src/services/api.js:89-106 | None of the errors the function raises itself is retryable. This covers the empty response, the empty text, the invalid structure and the TypeError for a `null` parse. |
| Personality.NotRetryableBySplit | src/services/api.js:114-116 | A message is not retryable when its two halves lack the letters that "overloaded", "503" and "Failed to parse" need. |
| Personality.AttemptRetryableIff | src/services/api.js:110-118 | An attempt is retried exactly in two cases. Either the SDK error message is retryable, or the reply was non-empty and failed to parse. |
| Personality.PersistentFailureFallsBack | src/services/api.js:113-127 | Three retryable failures of any kind give three calls, back-off of 2000, 4000 and 6000 ms, and then the default. A failure is either an SDK error with a retryable message or an unreadable reply. |
| Personality.RetryThenAccepted | src/services/api.js:86-127 | A retryable failure followed by a reply that `safeJsonParse` reads to a well-shaped value gives two calls and one 2000 ms wait, and resolves with that value. |
| Personality.OverloadRetryable | src/services/api.js:114-115 | A "503 Service Unavailable" error is retryable. |
| Personality.NonRetryableFallsBack | src/services/api.js:125-127 | A first error that is not retryable gives the default after one call, with no delay. |
| Personality.GenerateProfileSummary | src/services/api.js:216-233 | Gemini is asked exactly when `join` succeeds on both traits and interests. That requires both to be arrays with no element that is an object carrying its own `toString` key. An asked call returns Gemini's text when it answers, and any text other than the fallback came from Gemini. |
| Personality.PrimitiveArraysJoin | src/services/api.js:221-222 | An array of strings, numbers, booleans and `null` always joins. |
| Personality.ToStringKeyBlocksSummary | src/services/api.js:216-232 | A trait that is an object with its own `toString` key makes building the prompt throw. Gemini is then not asked, and the fallback sentence comes back. |
| Personality.DefaultAnalysisSummarised | src/services/api.js:221-222 | The default profile's traits and interests are arrays, so a summary is always requested for it. |
| Placeholder.Colour | src/services/api.js:137-149 | A type in the colour table gets its colour, and any other type gets `6b7280`. |
| Placeholder.ColoursAreHex | src/services/api.js:137-149 | Every colour used is six lower-case hexadecimal digits. |
| Placeholder.EncodeURIComponent | src/services/api.js:150 | The encoding holds only unreserved characters and `%XY` escapes, and is never shorter than its input. |
| Placeholder.DecodeEncode | src/services/api.js:150 | Decoding the encoding of any string gives the string back. |
| Placeholder.EncodeInjective | src/services/api.js:150 | Different names encode to different texts. |
| Placeholder.AvatarText | src/services/api.js:150 | A truthy non-string name throws. A truthy string name decodes to the upper-cased first one or two characters. Otherwise the text is the upper-cased first letter of the type, or nothing for an empty type. |
| Placeholder.FallbackImage | src/services/api.js:135-153 | Fails exactly when the avatar text throws. Otherwise the URL is the base URL with the avatar text, the type's colour and the fixed options. |
| Placeholder.ParseAvatarUrlInverts | src/services/api.js:152 | The `name` and `background` parameters can be read back out of the URL. |
| Placeholder.FallbackImageDeterminesParts | src/services/api.js:135-153 | Two equal placeholder URLs have the same colour and the same avatar text. |
| Placeholder.TextHasNoAmpersand | src/services/api.js:150-152 | The avatar text never contains `&`, so it cannot spill into the next query parameter. |
| Recommendations.DefaultTypesSupported | src/services/api.js:132 | The five default types are distinct and all supported. |
| Recommendations.SafeLimit | src/services/api.js:165 | The cap is at most 5 and equals the limit or 5. Limits of 5 and above give 5. |
| Recommendations.SliceEnd | src/services/api.js:200 | `slice(0, end)` keeps `min(end, length)` items for a non-negative end. A negative end drops that many items from the back. |
| Recommendations.SelectPayload | src/services/api.js:189-197 | A non-empty payload is one of the three accepted shapes. |
| Recommendations.PayloadPriority | src/services/api.js:191-197 | The shapes are tried in order: `results.entities` when `success` is truthy, then a top-level array, then `data`. The first present one wins. |
| Recommendations.ArrayBodyTakenWhole | src/services/api.js:193-194 | An array body is taken as the items. |
| Recommendations.Defaults | src/services/api.js:200-205 | The computed fields are exactly `id`, `name`, `type`, `image` and `description`. Each is the item's truthy field or the stated default: a fresh id, "Untitled " + type, the type, the placeholder URL, or "". They fail exactly when no `image_url` is set and the placeholder throws. |
| Recommendations.NormalizeItem | src/services/api.js:200-208 | A `null` item throws. Any other item succeeds exactly when its computed fields do. Every own property of the item survives the spread unchanged, and every computed key the item lacks keeps its computed value. The keys are the computed ones plus the item's own. |
| Recommendations.NormalizeItems | src/services/api.js:200-208 | On success, item k is normalised with id k and the order is kept. On failure, some item's normalisation failed. |
| Recommendations.MapOrThrow | src/services/api.js:200-208 | `map` with a callback that may throw. On success there is one output per item, and each is the callback's value for that item. A failure means the callback throws for some item. |
| Recommendations.GetRecommendations | src/services/api.js:156-213 | A request is made exactly for supported types, with `take` equal to the capped limit. A non-negative limit bounds the number of items. A non-empty result is logged quietly. Every item is an object carrying the five computed keys. |
| Recommendations.UnsupportedMakesNoRequest | src/services/api.js:159-162 | An unsupported type gives `[]` and a warning, with no request. |
| Recommendations.NonOkIsEmpty | src/services/api.js:177-184 | A non-ok status gives `[]`. It is logged as a warning exactly when the status is 403. |
| Recommendations.FailuresAreEmpty | src/services/api.js:209-212 | Whenever an error is logged the result is `[]`. A network failure is reported as such an error, after the request was made. |
| Recommendations.LimitClamped | src/services/api.js:165 | Every limit of 5 or more behaves exactly like 5. |
| Recommendations.OrderKept | src/services/api.js:200-208 | On success, item k is the normalisation of payload item k. |
| Recommendations.NegativeLimitKeepsAllButLast | src/services/api.js:165 | A limit of −1 passes the cap and drops only the last payload item. |
| Recommendations.SpreadOverrides | src/services/api.js:207 | Properties the item carries win over the computed ones, including `type`. A key the item lacks keeps its computed value. |
| Recommendations.NullItemEmptiesResult | src/services/api.js:200-212 | A single `null` item makes the whole call return `[]`. |
| Records.Put | src/context/AppContext.jsx:62 | Assigning a key makes it look up the new value and leaves every other key's lookup as it was. A new key goes at the end and an existing one keeps its place. Unique keys stay unique, and every entry afterwards is an old entry or the new pair. |
| Conversation.EmptyLists | src/context/AppContext.jsx:20-26 | The initial lists have one key per default type, in order, and each list is empty. |
| Conversation.InitialState | src/context/AppContext.jsx:12-27 | The initial state has exactly one message, the bot's greeting, with id 1. It is not loading, has an empty summary, and holds the five default keys, each with an empty list. |
| Conversation.AddMessage | src/context/AppContext.jsx:34-36 | Adding a message appends exactly one message with a generated id and changes nothing else. |
| Conversation.ApplyAllAppendsOnly | src/context/AppContext.jsx:34-36 | Applying any updates keeps the old messages unchanged. The new messages are exactly the appended texts, in order. |
| Conversation.FetchAll | src/context/AppContext.jsx:53-57 | There is one result per type, in type order, each with at most three items. Result i is what `getRecommendations` returns for type i at the default limit. |
| Conversation.Merge | src/context/AppContext.jsx:60-63 | The merge keeps keys unique. |
| Conversation.MergeLookup | src/context/AppContext.jsx:60-63 | Each merged type holds its result, with the last write winning. Every other key keeps its old list. |
| Conversation.MergeKeepsOthers | src/context/AppContext.jsx:60-63 | A key that is not among the merged types keeps the list the spread copied. |
| Conversation.MergeLastWrite | src/context/AppContext.jsx:61-62 | A type written for the last time holds that write's result afterwards. |
| Conversation.MergeKeys | src/context/AppContext.jsx:60-63 | The merged keys are the old keys plus the merged types. When every type is already present the key order is unchanged. |
| Conversation.MergeEntries | src/context/AppContext.jsx:60-63 | Every merged entry is an old entry or a type paired with its result. |
| Conversation.Completed | src/context/AppContext.jsx:65-84 | After a successful analysis the updates are: store the lists, store the summary, add it as a message, then add the closing message. The closing message is "Here are your…" exactly when some list is non-empty. |
| Conversation.Outcome | src/context/AppContext.jsx:45-91 | Whatever the analysis does, the tail of a run ends by clearing the loading flag. |
| Conversation.ProcessUserInput | src/context/AppContext.jsx:38-92 | Blank input gives no update. Any other run starts with loading on, the user's text and the "Analyzing…" message, and ends with loading off. |
| Conversation.BlankInputIgnored | src/context/AppContext.jsx:39 | Input that trims to nothing leaves the state exactly as it was. |
| Conversation.LoadingClearedAfterRun | src/context/AppContext.jsx:89-91 | The loading flag is false after every run that starts. |
| Conversation.SubmitAppendsOnly | src/context/AppContext.jsx:34-43 | No run removes or alters an earlier message. |
| Conversation.SuccessfulRun | src/context/AppContext.jsx:41-84 | A successful run adds exactly four messages: the user's text, "Analyzing…", the summary and the closing message. It stores the merged lists and the summary, and clears the loading flag. |
| Conversation.FailedRun | src/context/AppContext.jsx:86-91 | A rejected analysis adds exactly the user's text, "Analyzing…" and one "Oops!…" message. The lists and the summary are untouched and the loading flag is cleared. |
| Conversation.FailsFor | src/context/AppContext.jsx:39-91 | For any list of entity types, a rejected analysis adds exactly the user's text, "Analyzing…" and one "Oops!…" message, after the old messages. The lists and the summary stay as they were. |
| Conversation.MergedShape | src/context/AppContext.jsx:20-63 | Merging fetched results into one empty list per distinct type gives exactly those types, in order, unique, with at most three items each. |
| Conversation.InitialRunShape | src/context/AppContext.jsx:20-63 | From the initial state, a successful run leaves exactly the five default keys, in order, each list holding at most three items. |
| InterestMapping.MapWith | src/context/AppContext.jsx:104-116 | The nested loops compute the reference result: the discoveries without repeats, or the fallback when there are none. |
| InterestMapping.AddHits | src/context/AppContext.jsx:107-113 | One pass for interest i pushes the categories it hits that are not yet listed, in table order. Afterwards the list is the de-duplicated discoveries of the first i + 1 interests. |
| InterestMapping.SomeKeyword | src/context/AppContext.jsx:108 | True exactly when some keyword occurs in the lowercased interest. |
| InterestMapping.MapInterestsToEntities | src/context/AppContext.jsx:94-117 | With the provider's keyword table, the result equals the reference definition. |
| InterestMapping.DedupFacts | src/context/AppContext.jsx:109-111 | Pushing only unseen categories keeps each discovered category exactly once. It is empty only when nothing was discovered. |
| InterestMapping.DedupOrder | src/context/AppContext.jsx:106-114 | Categories appear in the order of their first discovery. |
| InterestMapping.HitsIff | src/context/AppContext.jsx:107-108 | An interest hits a category exactly when one of its keywords occurs in the lowercased interest. |
| InterestMapping.DiscoveriesIff | src/context/AppContext.jsx:106-114 | A category is discovered exactly when some interest hits it. |
| InterestMapping.NoDiscoveriesIff | src/context/AppContext.jsx:106-116 | Nothing is discovered exactly when no interest hits any category. |
| InterestMapping.MapDistinct | src/context/AppContext.jsx:109-111 | The result never repeats a category. |
| InterestMapping.MapMembers | src/context/AppContext.jsx:106-114 | When something matches, a category is listed exactly when one of its keywords occurs in some lowercased interest. |
| InterestMapping.MapOrder | src/context/AppContext.jsx:106-114 | When something matches, categories are listed in order of first discovery: interests first, then table order. |
| InterestMapping.MapFallback | src/context/AppContext.jsx:116 | With no match the result is `['movie', 'tv_show', 'book']`. With a match it is the non-empty list of discoveries. |
| MessageFormat.NextUrl | src/components/ChatMessage.jsx:28 | Finds the first position at or after the start where the URL pattern matches, or reports that it matches nowhere. |
| MessageFormat.MatchEnd | src/components/ChatMessage.jsx:28 | A match runs past its scheme up to the next whitespace or the end of the text. |
| MessageFormat.FormatMessage | src/components/ChatMessage.jsx:24-47 | Empty text formats to the empty string. Otherwise there is one rendered part per split part. |
| MessageFormat.MatchIsUrlToken | src/components/ChatMessage.jsx:28 | A captured match starts with `http://` or `https://`, has at least one more character, has no whitespace, and matches on its own. |
| MessageFormat.NoUrlInSlice | src/components/ChatMessage.jsx:29 | Text between matches contains no match of its own. |
| MessageFormat.SplitFromAlternates | src/components/ChatMessage.jsx:28-29 | The split alternates between stretches with no match and URL tokens. Each token is followed by whitespace or by nothing. |
| MessageFormat.SplitFromConcat | src/components/ChatMessage.jsx:29 | The split parts concatenate back to the text. |
| MessageFormat.AlternatesByIndex | src/components/ChatMessage.jsx:28-29 | There is an odd number of parts. Even parts hold no match and odd parts are URL tokens. |
| MessageFormat.FormatRoundTrip | src/components/ChatMessage.jsx:29-45 | The rendered parts, read in order, reproduce the message text. |
| MessageFormat.FormatLinks | src/components/ChatMessage.jsx:31-45 | The odd parts, and only they, become links. A link's key is its index, its href and content are the URL token itself, and plain parts contain no match. |
| MessageFormat.EmptyTextIsBlank | src/components/ChatMessage.jsx:25 | Falsy text formats to the empty string. |
| Sections.ActiveSections | src/components/RecommendationsSection.jsx:13-14 | Every kept list is non-empty, and no more entries come out than went in. |
| Sections.ActiveSectionsConcat | src/components/RecommendationsSection.jsx:13-14 | The filter distributes over concatenation, so entry order is kept. |
| Sections.ActiveSectionsIff | src/components/RecommendationsSection.jsx:13-14 | An entry is active exactly when the input holds it with a present, non-empty list. |
| Sections.RenderNothingIff | src/components/RecommendationsSection.jsx:16 | Nothing is rendered exactly when no entry has a non-empty list. |
| Sections.Render | src/components/RecommendationsSection.jsx:16-35 | Nothing is rendered exactly when no entry is active. Otherwise there is one section per active entry, in order. Section i carries the title of entry i's type and that entry's cards. |
| Sections.SectionTitle | src/components/RecommendationsSection.jsx:4-23 | The five known types take their table title. Any other type is shown with its first character upper-cased, the rest unchanged, then " Matches". |
| Sections.Cards | src/components/RecommendationsSection.jsx:26-31 | There is one card per item, in list order, carrying the item and the section's type. |
| Sections.CardKeysDistinct | src/components/RecommendationsSection.jsx:26-31 | The card keys `${type}-${index}` within a section are pairwise distinct. |

## Left out

- Network and SDK calls are parameters of the model. This covers the Gemini client set-up, `generateContent`, the Qloo `fetch` with its headers and URL, and `response.json()`. Their outcomes are supplied as oracles.
- The API keys are not reproduced.
- Prompt texts and console logging are left out. A log channel is kept only where it tells outcomes apart: quiet, warning or error.
- `JSON.parse` is an arbitrary partial function from strings to values. Its grammar is not modelled.
- `setTimeout` is not modelled. The back-off delays are returned as a list instead of being waited out.
- `Promise.all` is modelled as a sequential map in type order. `getRecommendations` never rejects, so `results[index] || []` always takes the first branch.
- `Date.now`, `Math.random` and `generateId` are not modelled. Ids come from supplies indexed by position or by message count.
- React rendering is left out: `ChatInput`, `RecommendationCard`, `App`, `main`, animation and styling. Only the data the components compute is modelled.
- Placeholder.AvatarText: upper-casing is ASCII only, not full Unicode case mapping. `substring(0, 2)` works on code points, not UTF-16 units, so the `URIError` for a split surrogate pair is not reached.
- InterestMapping.MapInterestsToEntities: `toLowerCase` is ASCII only. Interests are assumed to be strings.
- Sections.SectionTitle: upper-casing is ASCII only. Inherited object properties such as `constructor` are not looked up.
- Sections.Render: lists are present or absent. A non-array value with a `length` property is not modelled.
- MessageFormat.FormatMessage: message texts are strings, so the empty string is the only falsy text.
- Recommendations.NormalizeItem: inherited prototype properties and the key order of the built object are not modelled. Only the key set and the values are modelled.
- Conversation.ProcessUserInput: the lists are merged into the state the run started from. React's stale-closure timing is not modelled.
- The default profile's genres are `['science fiction', 'drama']`, which is what the code says.
- Recommendations.GetRecommendations: a negative limit is passed on unchanged, because `Math.min` does not raise it. `slice(0, -n)` then drops the last n items, and the request carries the negative `take`.
