# sunkelo, modelled in Dafny

sunkelo answers spoken or typed product questions from Indian shoppers with a
short review in the shopper's language. A query goes through several steps:

1. a per-client daily rate limit;
2. language detection;
3. extraction of the product being asked about, and its canonical slug;
4. a review cache;
5. scraping of blog, video and e-commerce sources;
6. translation of those sources to English;
7. a check that there is enough user-review evidence;
8. synthesis of a structured review by a chat model, with a plain-text
   fallback;
9. localisation and text-to-speech;
10. a server-sent event stream that carries the results to the browser.

A `/api/sources` endpoint and a seeding script share parts of this pipeline.

This project models that core as pure Dafny functions over immutable
datatypes, and proves what each step promises. Every outside service is a
function-typed parameter:

- the chat, translation, speech, scraping and storage services;
- `JSON.parse`;
- `new URL`;
- `Number(string)`;
- the Unicode tables behind `normalize("NFKD")`, `toLowerCase`,
  `toUpperCase` and `\p{L}`/`\p{N}`.

A failure of any of these is a `Result` failure. Two rules hold throughout:

- JavaScript's `trim()` and `\s` use one white-space set, `Text.IsSpace`.
- A string is a sequence of characters, one `char` for each character the source's string operations see. A Dafny `char` is a Unicode scalar value, so a lone surrogate cannot be represented.

Modules follow the source files:

| module | file |
|---|---|
| `Text`, `Json`, `Wrappers`, `Unicode` | helpers: `trim`, `split`/`join`, regex replacements, JSON values, the Unicode oracle |
| `Slug` | `src/lib/utils/slug.ts` |
| `Languages`, `ScriptDetect` | `src/lib/utils/languages.ts`, `src/lib/utils/detect-language.ts`, the detector in `src/lib/pipeline/normalize-sources.ts` |
| `QueryLanguage` | `src/lib/pipeline/query-language.ts` |
| `Translate` | `src/lib/sarvam/translate.ts` |
| `RateLimit` | `src/lib/cache/rate-limit.ts` (Redis as a map with expiry) |
| `ReviewCache` | `src/lib/cache/reviews.ts` |
| `Urls`, `Sources`, `Reviews` | the source and review types |
| `Parsers` | `src/lib/firecrawl/parsers.ts` |
| `Scraper` | `src/lib/firecrawl/scraper.ts` |
| `NormalizeSources` | `src/lib/pipeline/normalize-sources.ts` |
| `ReviewEvidence` | `src/lib/pipeline/review-evidence.ts` |
| `Entity` | `src/lib/pipeline/entity.ts` |
| `SynthesisPrompt`, `ReviewShape`, `TextFallback`, `Synthesize` | `src/lib/pipeline/synthesize.ts` |
| `LocalizedErrors` | `src/lib/pipeline/localized-errors.ts` |
| `Wav` | `src/lib/sarvam/tts.ts` |
| `Localize` | `src/lib/pipeline/localize.ts` |
| `EventStream` | `src/lib/pipeline/orchestrator.ts` |
| `SseClient` | `src/hooks/use-sse-query.ts` |
| `QueryRoute` | `src/app/api/query/route.ts` |
| `SourcesRoute` | `src/app/api/sources/route.ts` |
| `Seed` | `scripts/seed-products.ts` |

## Model

| member | source | states |
|---|---|---|
| Slug.ReplacePlus | src/lib/utils/slug.ts:7 | no `+` is left, and text without `+` is unchanged |
| Slug.DropMarks | src/lib/utils/slug.ts:8 | no combining mark U+0300..U+036F is left and nothing is added; text without marks is unchanged and text of marks only vanishes |
| Slug.ReplacePlusAppend | src/lib/utils/slug.ts:7 | the `+` replacement distributes over concatenation, so it acts on every occurrence |
| Slug.ReplacePlusAt | src/lib/utils/slug.ts:7 | the text before a `+` is kept and the `+` becomes ` plus ` |
| Slug.DropMarksAppend | src/lib/utils/slug.ts:8 | mark removal distributes over concatenation, so every other character is kept in order |
| Slug.RunsToDash | src/lib/utils/slug.ts:10 | every run of characters that are not letters or numbers becomes one dash; the result holds only dashes and letters or numbers, has no double dash, and is empty only for empty input |
| Slug.RunsKeepWordPrefix | src/lib/utils/slug.ts:10 | a leading run of letters and numbers is copied unchanged |
| Slug.DropWholeRun | src/lib/utils/slug.ts:10 | one replacement consumes the whole maximal run of other characters, up to the next letter or number |
| Slug.RunBecomesDash | src/lib/utils/slug.ts:10 | word, then a non-empty run of other characters, then a word gives word, one dash, word |
| Slug.StripDashes | src/lib/utils/slug.ts:11 | the result neither starts nor ends with a dash |
| Slug.SquashDashes | src/lib/utils/slug.ts:12 | no two dashes are adjacent; the result is empty only for empty input and keeps the first character |
| Slug.ToSlug | src/lib/utils/slug.ts:3-13 | a slug holds only dashes and letters or numbers, has no dash at either end, and has no double dash |
| Slug.StripKeeps | src/lib/utils/slug.ts:11-12 | stripping the edge dashes keeps the no-double-dash and alphabet invariants, so the final replacement has nothing to do |
| Slug.SquashNoOp | src/lib/utils/slug.ts:12 | on text without a double dash, the replacement is the identity |
| Slug.BlankSlug | src/lib/utils/slug.ts:3-5 | blank input gives the empty slug |
| Slug.WordsOfDropped | src/lib/utils/slug.ts:10 | dropping a leading non-word run keeps the letters and numbers |
| Slug.RunsKeepWords | src/lib/utils/slug.ts:10 | with the dashes removed, the result of the run replacement is exactly the letters and numbers of its input, in order |
| Slug.StripKeepsUndash | src/lib/utils/slug.ts:11 | stripping dashes off both ends removes no letter or number |
| Slug.SlugKeepsLetters | src/lib/utils/slug.ts:3-13 | the slug's letters and numbers are exactly those of the trimmed, decomposed, mark-free, lower-cased input, in order |
| Slug.SlugIsLowerCase | src/lib/utils/slug.ts:9-12 | every character of a slug is its own lower case |
| Languages.MetaOf | src/lib/utils/languages.ts:17-29 | there is a table entry exactly for the eleven supported codes |
| Languages.DisplayName | src/lib/utils/languages.ts:31-33 | the result is "Unknown" exactly for codes outside the table, and the table's display name otherwise |
| Languages.ScriptName | src/lib/utils/languages.ts:35-37 | the result is "Unknown" exactly for codes outside the table, and the table's script name otherwise |
| Languages.SupportedTable | src/lib/utils/languages.ts:1-13 | there are eleven distinct codes, English among them |
| ScriptDetect.FirstHit | src/lib/utils/detect-language.ts:14-18 | returns the first detector whose block the text uses, or none when it uses none |
| ScriptDetect.MissAllIffNoIndic | src/lib/utils/detect-language.ts:1-11 | the nine blocks tile U+0900..U+0D7F, so text misses every detector exactly when it has no character in that range |
| ScriptDetect.DetectFromText | src/lib/utils/detect-language.ts:13-22 | the result is "en-IN" exactly when the text has no Indic character, and a detector's code otherwise |
| ScriptDetect.DetectLikely | src/lib/pipeline/normalize-sources.ts:21-35 | ASCII text without Indic characters is "en-IN"; other non-Indic text is "hi-IN"; otherwise the result is a detector's code |
| ScriptDetect.DetectFromTextFirst | src/lib/utils/detect-language.ts:13-18 | the first detector, in the list's order, whose block the text uses decides the code |
| ScriptDetect.DetectLikelyFirst | src/lib/pipeline/normalize-sources.ts:9-26 | the first detector, in this list's order, whose block the text uses decides the code |
| ScriptDetect.TeluguDetected | src/lib/utils/detect-language.ts:8 | Telugu text is detected as "te-IN" |
| ScriptDetect.DetectorsDiffer | src/lib/pipeline/normalize-sources.ts:9-35 | the two detector lists are ordered differently: on Tamil-plus-Gujarati text they disagree, and on "é" one says English and the other Hindi |
| QueryLanguage.Accepted | src/lib/pipeline/query-language.ts:32-35 | the remote code is used exactly when the call succeeds with a code in the accepted set |
| QueryLanguage.DetectQueryLanguageCode | src/lib/pipeline/query-language.ts:30-42 | the result is always an accepted code: the remote one when it is accepted, the script detector's otherwise |
| QueryLanguage.DetectorCodesAccepted | src/lib/pipeline/query-language.ts:40-41 | every code the script detector returns is accepted, so the final "en-IN" default is never needed |
| RateLimit.Incr | src/lib/cache/rate-limit.ts:15 | `INCR` adds one to an existing counter and keeps its expiry, starts a missing one at 1 without expiry, and changes no other key |
| RateLimit.Expire | src/lib/cache/rate-limit.ts:18 | `EXPIRE` sets the key's expiry and changes no other key |
| RateLimit.Ttl | src/lib/cache/rate-limit.ts:21 | `TTL` is -2 exactly for a missing key, and is never below -2 |
| RateLimit.CheckRateLimit | src/lib/cache/rate-limit.ts:12-30 | with every store call answering: the counter goes up by one, and only the first request of a window sets the 24-hour expiry; the request is allowed exactly when the count is at most 5; the remaining count is 5 minus the count, floored at 0; the reset time is not in the past; no other key changes |
| RateLimit.TryCheckRateLimit | src/lib/cache/rate-limit.ts:12-30 | the check succeeds exactly when `INCR`, `EXPIRE` on a fresh counter, and `TTL` all answer, and is then `CheckRateLimit`; a rejected call rejects the check with that call's error, none being caught; a rejected `INCR` changes nothing, a rejected `EXPIRE` leaves the fresh counter without expiry, a rejected `TTL` leaves both writes done |
| RateLimit.NoFaultsChecks | src/lib/cache/rate-limit.ts:12-30 | when every store call answers, the check is `CheckRateLimit` |
| RateLimit.ExpireFailureSticks | src/lib/cache/rate-limit.ts:15-19 | a first query whose `EXPIRE` is rejected leaves a counter with no expiry that time never removes, and the next check counts on it without setting one |
| RateLimit.Tick | src/lib/cache/rate-limit.ts:18-21 | as time passes, keys without expiry stay, keys with expiry count down, and keys whose expiry is due disappear |
| RateLimit.CheckIsIncremented | src/lib/cache/rate-limit.ts:15-19 | the store after a check is the incremented store, with the expiry set on a fresh key |
| RateLimit.SessionMonotone | src/lib/cache/rate-limit.ts:12-30 | within one window, successive checks from one client never raise the remaining count, and once a check is refused none after it is allowed |
| Translate.ChooseModel | src/lib/sarvam/translate.ts:25-34 | "mayura:v1" is chosen exactly when both codes are in its set, and "sarvam-translate:v1" otherwise |
| Translate.FirstPresent | src/lib/sarvam/translate.ts:102 | the first present field among the three text fields, or "" when none is present |
| Translate.TextRequest | src/lib/sarvam/translate.ts:83-90 | the request carries the input and both language codes unchanged |
| Translate.TranslateText | src/lib/sarvam/translate.ts:82-103 | fails exactly when the service call fails; otherwise it returns the first present text field, trimmed |
| Translate.DetectRequest | src/lib/sarvam/translate.ts:112-117 | the request input is the whole trimmed text when it has at most 1000 characters and otherwise its first 1000 characters; the source is "auto", the target "en-IN", the model "sarvam-translate:v1", and no mode is set |
| Translate.DetectSourceLanguageCode | src/lib/sarvam/translate.ts:105-129 | blank input gives no code without a call. Otherwise the call fails exactly when the service call fails, and the result is the reply's language code trimmed, or no code when that code is absent or blank |
| Translate.NonBlank | src/lib/sarvam/translate.ts:128 | a code is kept exactly when it is not blank after trimming, and is returned trimmed |
| Translate.Sentences | src/lib/sarvam/translate.ts:45 | there is at least one piece, and no piece contains a separator (white space after `.`, `!` or `?`) |
| Translate.PrefixNoBreak | src/lib/sarvam/translate.ts:45 | the text before the first separator contains no separator |
| Translate.NextBreak | src/lib/sarvam/translate.ts:45 | finds the first white space that follows `.`, `!` or `?` |
| Translate.SentencesJoin | src/lib/sarvam/translate.ts:45 | on single-spaced text, joining the sentences with one space gives back the text |
| Translate.SentencesTrimmed | src/lib/sarvam/translate.ts:37-45 | every sentence of normalised non-empty text is trimmed |
| Translate.RawSlices | src/lib/sarvam/translate.ts:60-62 | the slices concatenate to the sentence; each is non-empty and at most the limit, and all but the last are exactly the limit |
| Translate.StepKeeps | src/lib/sarvam/translate.ts:49-73 | one loop iteration never takes back a pushed chunk; a sentence over the limit leaves nothing pending, and a non-empty sentence that fits always leaves something pending |
| Translate.Fold | src/lib/sarvam/translate.ts:49-73 | the loop never takes back a pushed chunk |
| Translate.PackSentences | src/lib/sarvam/translate.ts:46-79 | every chunk is non-empty and at most the limit, and trimmed sentences give at least one chunk |
| Translate.SplitIntoChunks | src/lib/sarvam/translate.ts:36-80 | no chunks exactly for blank input; input that fits is one chunk, its normalised text; every chunk is non-empty and at most the limit |
| Translate.FoldBounded | src/lib/sarvam/translate.ts:49-77 | the packing loop keeps every pushed chunk and the pending one within the limit |
| Translate.FoldGood | src/lib/sarvam/translate.ts:49-79 | the packing loop makes progress: after at least one sentence, something non-empty is pushed or pending |
| Translate.StepJoin | src/lib/sarvam/translate.ts:66-72 | one packing step on a sentence that fits keeps the space-joined text of everything seen so far |
| Translate.FoldJoin | src/lib/sarvam/translate.ts:49-77 | when every sentence fits, the loop's chunks join back to the sentences |
| Translate.PackJoin | src/lib/sarvam/translate.ts:46-79 | when every sentence fits, the chunks are trimmed and join with spaces to the sentences joined with spaces |
| Translate.ChunksJoinToNormalized | src/lib/sarvam/translate.ts:36-80 | when every sentence fits the limit, the chunks join with single spaces to the trimmed, single-spaced input: nothing is lost, added or reordered |
| Translate.LongSentenceFlushesThenSlices | src/lib/sarvam/translate.ts:54-63 | a sentence longer than the limit keeps every earlier chunk and the flushed pending one, leaves nothing pending, and pushes one chunk per started block of limit-many characters |
| Translate.LongSentenceChunk | src/lib/sarvam/translate.ts:60-62 | chunk `i` pushed for a long sentence is its characters from `i * max` up to `(i + 1) * max` or its end, trimmed |
| Translate.RawSlicesCount | src/lib/sarvam/translate.ts:60 | the slicing loop runs once per started block of limit-many characters |
| Translate.RawSliceAt | src/lib/sarvam/translate.ts:60-62 | slice `i` lies within the sentence and is its characters from offset `i * max` up to `(i + 1) * max` or its end |
| Translate.SlicesAt | src/lib/sarvam/translate.ts:60-62 | the trimmed slices in closed form: one per block, slice `k` being the trimmed block at offset `k * max` |
| Translate.TranslateAll | src/lib/sarvam/translate.ts:137 | each chunk is translated by its own call, and the results stay in chunk order |
| Translate.TranslateLong | src/lib/sarvam/translate.ts:131-139 | blank input gives ""; the call succeeds exactly when every chunk translates; the joined result is trimmed and single-spaced |
| Translate.TranslateLongEcho | src/lib/sarvam/translate.ts:131-139 | with a service that echoes its input, translating long text gives back the trimmed, single-spaced input |
| Translate.TranslateChunksValue | src/lib/sarvam/translate.ts:134-138 | whatever each chunk translates to, the result is those translations in chunk order, joined with single spaces and white-space normalised |
| Translate.TranslateLongValue | src/lib/sarvam/translate.ts:131-139 | long text with at least one chunk translates to its chunks' translations, in chunk order, joined with single spaces and white-space normalised |
| ReviewCache.DaysTtl | src/lib/cache/reviews.ts:7-9 | a number of days in seconds |
| ReviewCache.ReviewKey | src/lib/cache/reviews.ts:23 | the key is "review:" followed by the slug |
| ReviewCache.LocalizedKey | src/lib/cache/reviews.ts:58 | the key is "localized:", the slug, ":", then the language code |
| ReviewCache.AliasKey | src/lib/cache/reviews.ts:89 | the key is "alias:" followed by the lower-cased alias |
| ReviewCache.GetReview | src/lib/cache/reviews.ts:20-29 | a failed read is a miss; otherwise the stored review under the slug's key, if there is one |
| ReviewCache.SetReview | src/lib/cache/reviews.ts:31-39 | a successful write stores the review with a 30-day expiry; a failed write changes nothing; no other key changes |
| ReviewCache.GetLocalized | src/lib/cache/reviews.ts:52-64 | a failed read is a miss; otherwise the stored localized entry for the slug and language, if there is one |
| ReviewCache.SetLocalized | src/lib/cache/reviews.ts:66-80 | a successful write stores the entry with a 30-day expiry; a failed write changes nothing; no other key changes |
| ReviewCache.GetAlias | src/lib/cache/reviews.ts:86-95 | a failed read is a miss; otherwise the slug stored under the lower-cased alias, if there is one |
| ReviewCache.SetAlias | src/lib/cache/reviews.ts:97-106 | a successful write stores the slug with a 30-day expiry; a failed write changes nothing; no other key changes |
| ReviewCache.ReviewRoundTrip | src/lib/cache/reviews.ts:20-39 | a review written is read back |
| ReviewCache.LocalizedRoundTrip | src/lib/cache/reviews.ts:52-80 | a localized entry written is read back under the same slug and language |
| ReviewCache.AliasRoundTrip | src/lib/cache/reviews.ts:86-106 | an alias written is read back under any alias with the same lower case |
| ReviewCache.ReviewOthersUnaffected | src/lib/cache/reviews.ts:31-39 | writing one slug's review leaves every other slug's review as it was |
| ReviewCache.LocalizedKeyInjective | src/lib/cache/reviews.ts:58 | for slugs without ':', a localized key names exactly one slug and language |
| ReviewCache.LocalizedOthersUnaffected | src/lib/cache/reviews.ts:66-80 | writing one localized entry leaves every other slug and language alone |
| ReviewCache.KeySpacesDisjoint | src/lib/cache/reviews.ts:23-89 | review, localized and alias keys never collide |
| ReviewCache.FailedReadsMiss | src/lib/cache/reviews.ts:25-94 | a failed read is a miss, whatever the store holds |
| Entity.ExtractJson | src/lib/pipeline/entity.ts:27-34 | succeeds exactly when there is a `{` and a later `}`; the result runs from the first `{` to the last `}` |
| Entity.ExtractJsonWrapped | src/lib/pipeline/entity.ts:27-34 | an object wrapped in text without braces is recovered exactly |
| Entity.TrimOrNull | src/lib/pipeline/entity.ts:58-60 | a part is present exactly when it is given and not blank, and is then trimmed |
| Entity.Present | src/lib/pipeline/entity.ts:61 | every kept value is one of the parts; empty exactly when no part is present |
| Entity.PresentAll | src/lib/pipeline/entity.ts:61 | when every part is present, all their values are kept, in order |
| Entity.PresentAppend | src/lib/pipeline/entity.ts:61 | the filter distributes over concatenation, so the kept parts stay in their order |
| Entity.ProductName | src/lib/pipeline/entity.ts:61 | the name has no white space at either end, and is empty when no part is present |
| Entity.ProductEntityName | src/lib/pipeline/entity.ts:61-70 | the product name is the present parts joined with single spaces, or null when none is present |
| Entity.PostprocessName | src/lib/pipeline/entity.ts:58-70 | for a product review, the product name is the trimmed non-blank fields joined with single spaces, or null when there are none |
| Entity.Postprocess | src/lib/pipeline/entity.ts:47-71 | an unsupported intent gives all nulls. Otherwise the parts are the trimmed non-blank fields; there is a name exactly when a part is present; the slug comes from the name, or from the query when there is no name; an empty slug becomes null |
| Entity.ProductEntity | src/lib/pipeline/entity.ts:58-71 | the product-review result keeps the parts; it has a name exactly when some part is present; the slug comes from the name or, failing that, the query |
| Entity.NameNonEmpty | src/lib/pipeline/entity.ts:61 | the joined name is empty exactly when no part is present |
| Entity.NameIsJoin | src/lib/pipeline/entity.ts:61 | the trimmed name is the present parts joined with single spaces, so the final trim removes nothing |
| Entity.JoinEdges | src/lib/pipeline/entity.ts:61 | trimmed non-empty parts joined with spaces have no white space at either end |
| Entity.Validate | src/lib/pipeline/entity.ts:8-46 | a value is accepted exactly when it is an object whose intent is "product_review" or "unsupported" and whose brand, model and variant are each absent, null or a string; the result carries that intent and those fields |
| Entity.KnownIntent | src/lib/pipeline/entity.ts:9 | the intent enum: "product_review" and "unsupported" name their intents, and nothing else names one |
| Entity.OptionalString | src/lib/pipeline/entity.ts:10-12 | a field is accepted exactly when it is absent, null or a string, and a string is kept |
| Entity.ExtractIntentAndEntity | src/lib/pipeline/entity.ts:36-72 | succeeds exactly when the chat reply succeeds, holds a braced object, that object parses and it passes validation; the result is then the post-processed validated reply, whose slug is never the empty string |
| Entity.ResolveCanonicalSlug | src/lib/pipeline/entity.ts:74-95 | an alias hit under the transcript's slug wins; otherwise a product stored under the extracted slug gives its slug, and a miss gives the extracted slug; a database failure propagates |
| Entity.AliasKeyOf | src/lib/pipeline/entity.ts:80-81 | the alias key is "product:alias:" followed by the slug of the transcript |
| Entity.AliasHitSkipsStore | src/lib/pipeline/entity.ts:82-84 | after an alias hit, the database is never consulted |
| Entity.AliasErrorIsMiss | src/lib/pipeline/entity.ts:85-87 | a failing alias lookup behaves exactly like a miss |
| ReviewEvidence.GetHost | src/lib/pipeline/review-evidence.ts:25-31 | no host exactly when the address does not parse; otherwise the lower-cased hostname |
| ReviewEvidence.EcommerceOf | src/lib/pipeline/review-evidence.ts:55 | a source is kept exactly when it is in the input and typed "ecommerce"; never longer than the input; input that is all e-commerce is kept whole |
| ReviewEvidence.EcommerceAppend | src/lib/pipeline/review-evidence.ts:55 | the filter distributes over concatenation, so every e-commerce source is kept once and in order |
| ReviewEvidence.WithSignal | src/lib/pipeline/review-evidence.ts:64-66 | a source is kept exactly when it is in the input and its content matches the review-signal pattern, ignoring case; never longer than the input; all-matching input is kept whole and input with no match gives nothing |
| ReviewEvidence.SignalAppend | src/lib/pipeline/review-evidence.ts:64-66 | the filter distributes over concatenation, so every matching source is kept once and in order |
| ReviewEvidence.ShopReviewHosts | src/lib/pipeline/review-evidence.ts:55-62 | a host is listed exactly when it contains one of the four review domains and some e-commerce source's URL parses to it |
| ReviewEvidence.Dedup | src/lib/pipeline/review-evidence.ts:56-57 | the distinct elements, with the same members as the input |
| ReviewEvidence.DedupFirstOrder | src/lib/pipeline/review-evidence.ts:56-57 | `Array.from(new Set(...))` keeps first-insertion order: of two kept hosts, the one first seen earlier in the input comes first |
| ReviewEvidence.Collect | src/lib/pipeline/review-evidence.ts:54-75 | counts all sources; the e-commerce count is the length of the e-commerce filter and the signal count the length of the signal filter applied to it, so signal hits ≤ e-commerce sources ≤ all sources. The domains are distinct and are exactly the review hosts of e-commerce sources. There is evidence exactly when some domain and some signal hit exist |
| ReviewEvidence.HasEnough | src/lib/pipeline/review-evidence.ts:77-89 | always enough when the policy is off; otherwise both thresholds must be met |
| ReviewEvidence.HasEnoughMonotone | src/lib/pipeline/review-evidence.ts:77-89 | more e-commerce sources and signal hits never turn a pass into a fail |
| ReviewEvidence.ParseBooleanEnv | src/lib/pipeline/review-evidence.ts:33-36 | true exactly for a non-empty setting that, trimmed and lower-cased, is "true" |
| ReviewEvidence.BooleanEnvAccepts | src/lib/pipeline/review-evidence.ts:33-36 | surrounding white space and letter case do not matter |
| ReviewEvidence.LeadingDigits | src/lib/pipeline/review-evidence.ts:39 | the longest prefix of decimal digits |
| ReviewEvidence.ParseInt | src/lib/pipeline/review-evidence.ts:39 | `parseInt` gives NaN exactly when no digit follows the leading white space and optional sign |
| ReviewEvidence.ParseIntOfDecimal | src/lib/pipeline/review-evidence.ts:39 | `parseInt` reads back the decimal form of every natural number |
| ReviewEvidence.ParsePositiveIntEnv | src/lib/pipeline/review-evidence.ts:38-44 | the result is the fallback or a parsed value of at least 1; a parsed value of at least 1 is always used |
| ReviewEvidence.PositiveIntEnvOfDecimal | src/lib/pipeline/review-evidence.ts:38-44 | a positive decimal setting is read as written, and "0" falls back |
| ReviewEvidence.PolicyOf | src/lib/pipeline/review-evidence.ts:46-52 | both thresholds are at least 1, and an unset threshold is 2 |
| ReviewEvidence.StrictNeedsEcommerce | src/lib/pipeline/review-evidence.ts:54-89 | under a strict policy, sources without any e-commerce source are never enough |
| Parsers.ImageLen | src/lib/firecrawl/parsers.ts:20 | an image match at the start of the text is at least five characters long |
| Parsers.ReplaceImages | src/lib/firecrawl/parsers.ts:20 | the text never grows (an image of at least five characters becomes one space) |
| Parsers.ImagesPlain | src/lib/firecrawl/parsers.ts:20 | text with no `!` passes through unchanged, whatever follows it |
| Parsers.ImageReplaced | src/lib/firecrawl/parsers.ts:20 | an image `![alt](href)` becomes one space and replacing resumes right after it |
| Parsers.LinkMatch | src/lib/firecrawl/parsers.ts:21 | a link match at the start of the text captures its non-empty text, which holds no `]` |
| Parsers.ReplaceLinks | src/lib/firecrawl/parsers.ts:21 | the text never grows (a link is replaced by its shorter text) |
| Parsers.LinksPlain | src/lib/firecrawl/parsers.ts:21 | text with no `[` passes through unchanged, whatever follows it |
| Parsers.LinkReplaced | src/lib/firecrawl/parsers.ts:21 | a link `[text](href)` with non-empty text becomes its text and replacing resumes right after it |
| Parsers.TickRun | src/lib/firecrawl/parsers.ts:23 | the match is the longest run of backticks, up to three |
| Parsers.ReplaceTicks | src/lib/firecrawl/parsers.ts:23 | no backtick is left, and the text never grows |
| Parsers.ReplaceLineMarkers | src/lib/firecrawl/parsers.ts:25 | the text never grows and no backtick is introduced |
| Parsers.LineMarkersFree | src/lib/firecrawl/parsers.ts:25 | text where no line starts with one of `>#*\|-+` is left as it is |
| Parsers.MarkerLineReplaced | src/lib/firecrawl/parsers.ts:25 | a leading run of `>#*\|-+` and the white space after it become one space, and the rest is kept |
| Parsers.ReplacePipes | src/lib/firecrawl/parsers.ts:26 | every `\|` becomes a space and every other character is kept in place |
| Parsers.StripMarkdown | src/lib/firecrawl/parsers.ts:16-28 | the result has no `\|` and no backtick, and is never longer than the input |
| Parsers.PhraseAt | src/lib/firecrawl/parsers.ts:5-14 | finds the first alternative of a pattern that matches here, ignoring case, or none when no alternative matches |
| Parsers.ReplacePhrases | src/lib/firecrawl/parsers.ts:43 | replacing a pattern's matches with a space never makes the text longer |
| Parsers.ReplaceFreeText | src/lib/firecrawl/parsers.ts:43 | text without the pattern is unchanged |
| Parsers.StripBoilerplate | src/lib/firecrawl/parsers.ts:40-46 | applying the eight patterns in turn never makes the text longer |
| Parsers.StripPatternsFree | src/lib/firecrawl/parsers.ts:40-46 | text matching none of the patterns is unchanged |
| Parsers.StripBoilerplateFree | src/lib/firecrawl/parsers.ts:5-46 | text mentioning none of the boilerplate phrases is left exactly as it is |
| Parsers.PhraseReplaced | src/lib/firecrawl/parsers.ts:43 | a match becomes one space, and scanning resumes after it |
| Parsers.CaseVariantRemoved | src/lib/firecrawl/parsers.ts:6-43 | the `i` flag: any case variant of a phrase is removed |
| Parsers.UpperCaseRemoved | src/lib/firecrawl/parsers.ts:6-43 | an upper-cased phrase is removed |
| Parsers.NonBlankLines | src/lib/firecrawl/parsers.ts:32-34 | the kept lines are trimmed and non-empty |
| Parsers.NormalizeWhitespace | src/lib/firecrawl/parsers.ts:30-38 | the result is trimmed, single-spaced and has no line break |
| Parsers.NormalizeKeepsVisible | src/lib/firecrawl/parsers.ts:30-38 | only white space is touched: the characters that are not white space all survive, in order, and none is added |
| Parsers.NormalizeOfClean | src/lib/firecrawl/parsers.ts:30-38 | trimmed, single-spaced text is left as it is |
| Parsers.LastSentenceEnd | src/lib/firecrawl/parsers.ts:54-55 | the largest of the three last positions is the last `.`, `!` or `?`, and there is none exactly when none occurs |
| Parsers.Threshold | src/lib/firecrawl/parsers.ts:57 | `Math.floor(maxChars * 0.6)` in integers: the largest r with 5r ≤ 3·maxChars |
| Parsers.TruncateAtSentenceBoundary | src/lib/firecrawl/parsers.ts:48-62 | text within the limit is unchanged. Longer text is cut to at most the limit: after the last sentence end when that end is at or past 60% of the limit, otherwise at the limit, trimmed |
| Parsers.ParseReviewMarkdown | src/lib/firecrawl/parsers.ts:64-69 | the content is at most 2000 characters, trimmed and single-spaced |
| Parsers.StripMarkdownPlain | src/lib/firecrawl/parsers.ts:16-28 | text with no `!`, `[`, backtick or `\|`, and no marker at a line start, passes the markdown stripping unchanged |
| Parsers.TicksPlain | src/lib/firecrawl/parsers.ts:23 | text without backticks is unchanged |
| Parsers.ParsePlainReview | src/lib/firecrawl/parsers.ts:64-69 | plain review text that is trimmed, single-spaced, free of boilerplate and within 2000 characters is kept exactly |
| Parsers.CutPointWhere | src/lib/firecrawl/parsers.ts:53-61 | the cut lies between 60% of the limit and the limit, no sentence end lies between the cut and the limit, and either the cut follows a sentence end at or past 60% of the limit, or it is the limit and no sentence end lies at or past 60% of it |
| Parsers.CutPointTrims | src/lib/firecrawl/parsers.ts:48-61 | text longer than the limit becomes the trimmed text before the cut point |
| Parsers.CutCandidateShape | src/lib/firecrawl/parsers.ts:53-61 | the cut candidate has no space at either end; cut after a sentence end at or past 60% of the limit it ends on that sentence end, and with no such end it is the whole candidate trimmed |
| Parsers.TruncateKeepsClean | src/lib/firecrawl/parsers.ts:48-62 | cutting trimmed, single-spaced text keeps it trimmed and single-spaced |
| Parsers.ParseScrapedSource | src/lib/firecrawl/parsers.ts:71-76 | only the content changes, and it becomes clean |
| Scraper.BuildTarget | src/lib/firecrawl/scraper.ts:20-45 | each category searches with a limit of 3; the query starts with the quoted product name and ends with the category's site filter |
| Scraper.SourceOf | src/lib/firecrawl/scraper.ts:58-70 | the source takes the page's address, the category's type and the cleaned markdown; its title is the page's, else the hit's, else the product name |
| Scraper.ScrapeHits | src/lib/firecrawl/scraper.ts:56-76 | at most one source per hit, each of the category's type with clean content |
| Scraper.HitSources | src/lib/firecrawl/scraper.ts:57-76 | one hit contributes at most one source, and contributes one exactly when its scrape is fulfilled |
| Scraper.ScrapeHitsCons | src/lib/firecrawl/scraper.ts:56-76 | the sources are the first hit's contribution followed by those of the remaining hits, whatever mix of fulfilled and rejected scrapes |
| Scraper.ScrapeHitsAppend | src/lib/firecrawl/scraper.ts:56-76 | the fulfilled scrapes of two hit lists in a row are those of the first followed by those of the second, so sources keep hit order |
| Scraper.OneHit | src/lib/firecrawl/scraper.ts:57-76 | a hit whose scrape is rejected gives nothing, and a fulfilled one gives exactly its source |
| Scraper.SearchAndScrape | src/lib/firecrawl/scraper.ts:47-77 | fails exactly when the search fails, and otherwise gives the fulfilled scrapes of the hits |
| Scraper.NoHitsNoScrape | src/lib/firecrawl/scraper.ts:51-54 | no hits means nothing is scraped, whatever the scraper would do |
| Scraper.EverySource | src/lib/firecrawl/scraper.ts:57-71 | one source per hit |
| Scraper.AllScrapesKept | src/lib/firecrawl/scraper.ts:56-76 | when every scrape succeeds, there is one source per hit, in hit order |
| Scraper.AllScrapesFailed | src/lib/firecrawl/scraper.ts:74-76 | when every scrape fails, nothing is kept |
| Scraper.Settled | src/lib/firecrawl/scraper.ts:110-112 | a failed category contributes nothing, and a fulfilled one its sources |
| Scraper.ScrapeAllSources | src/lib/firecrawl/scraper.ts:100-113 | the result is the blog category's settled sources, then the e-commerce ones, then the YouTube ones, a failed category giving none; all content is clean |
| Scraper.ScrapeAllGrouped | src/lib/firecrawl/scraper.ts:104-112 | the sources are grouped by category in that order |
| Scraper.AllCategoriesFail | src/lib/firecrawl/scraper.ts:100-113 | when every search fails, the result is empty rather than an error |
| Sources.TypeName | src/lib/firecrawl/scraper.ts:4 | the three wire names of a source type |
| Sources.TypeOfName | src/lib/firecrawl/scraper.ts:4 | reading a wire name back gives a type with that name, for each of the three names |
| Sources.TypeNameRoundTrip | src/lib/firecrawl/scraper.ts:4 | every type reads back from its wire name |
| Reviews.VerdictName | src/lib/pipeline/synthesize.ts:7 | a verdict's wire name is "buy", "skip" or "wait" |
| Wrappers.AllOk | src/lib/sarvam/translate.ts:137 | `Promise.all`: succeeds exactly when every result succeeds, and then holds every value in order |
| Json.Lookup | src/lib/pipeline/synthesize.ts:371 | a property read on a parsed object: present exactly when some field has the name, and then one such field's value |
| Json.Coalesce | src/lib/pipeline/synthesize.ts:375-376 | `a ?? b`: `b` exactly when `a` is null or missing |
| Json.AsString | src/lib/pipeline/synthesize.ts:200 | a string exactly when the value is one |
| Json.ToNumber | src/lib/pipeline/synthesize.ts:223 | `Number(value)`: missing is NaN, null is 0, a number is itself, and a string is what the number parser makes of it |
| Json.ArrayToNumber | src/lib/pipeline/synthesize.ts:223 | `Number` of an array: 0 when empty, NaN with two or more items |
| NormalizeSources.ToEnglish | src/lib/pipeline/normalize-sources.ts:52-55 | translation goes from the detected code to "en-IN" |
| NormalizeSources.NormalizeOne | src/lib/pipeline/normalize-sources.ts:41-71 | the language code is the detector's. Only the content can change, and it is translated exactly when the code is not English and translation succeeds. Otherwise the source is kept as it was |
| NormalizeSources.NormalizeAll | src/lib/pipeline/normalize-sources.ts:37-76 | one result per source, in order, each normalised on its own |
| NormalizeSources.EnglishUntouched | src/lib/pipeline/normalize-sources.ts:42-49 | ASCII text without Indic characters is English and is never sent for translation |
| NormalizeSources.NonAsciiTranslated | src/lib/pipeline/normalize-sources.ts:28-35 | text with any non-ASCII character is never taken for English |
| NormalizeSources.TranslatedIsClean | src/lib/pipeline/normalize-sources.ts:52-62 | translated content is trimmed and single-spaced |
| NormalizeSources.NormalizeKeepsMetadata | src/lib/pipeline/normalize-sources.ts:44-70 | address, title and type survive for every source, in order |
| Wav.ReadU32LE | src/lib/sarvam/tts.ts:55-57 | `readUInt32LE` gives an unsigned 32-bit value |
| Wav.ReadU32LERoundTrip | src/lib/sarvam/tts.ts:55-57 | reading back the four little-endian bytes of a 32-bit value gives the value |
| Wav.AsciiDecode | src/lib/sarvam/tts.ts:51 | Node's "ascii" decoding keeps one character per byte and drops each byte's high bit |
| Wav.Hundredths | src/lib/sarvam/tts.ts:63-68 | `Number((dataSize / byteRate).toFixed(2))` in hundredths, rounded to nearest with halves up |
| Wav.DurationAsWritten | src/lib/sarvam/tts.ts:47-69 | the source's check as written: buffers shorter than 44 bytes have no duration; otherwise the markers are compared after ASCII decoding, a mismatch gives no duration, and a match gives the duration of the three fields |
| Wav.FieldsDuration | src/lib/sarvam/tts.ts:55-68 | no duration exactly when the sample rate, byte rate or data size is 0; otherwise data size over byte rate, in hundredths |
| Wav.HighBitAccepted | src/lib/sarvam/tts.ts:51 | every header the corrected check accepts, with its first byte 'R' replaced by 0xD2, still passes the as-written check with the same duration, while the corrected check refuses it |
| Wav.HighBitExample | src/lib/sarvam/tts.ts:51 | a concrete 44-byte header starting 0xD2 that the as-written check reads as 1.00 s and the corrected check refuses |
| Wav.Duration | src/lib/sarvam/tts.ts:47-69 | a duration needs at least 44 bytes, the exact bytes "RIFF" and "WAVE", and three non-zero fields; it is then data size over byte rate in hundredths |
| Wav.DurationWithinAsWritten | src/lib/sarvam/tts.ts:47-69 | whenever the corrected check gives a duration, the as-written one gives the same |
| Wav.Header | src/lib/sarvam/tts.ts:51-57 | a canonical 44-byte header holds the markers and the three fields at their offsets |
| Wav.HeaderDuration | src/lib/sarvam/tts.ts:47-69 | the duration of a canonical header with non-zero fields is data size over byte rate, whatever samples follow |
| Wav.ReadAt | src/lib/sarvam/tts.ts:55-57 | a field depends only on its own four bytes |
| Wav.OneSecond | src/lib/sarvam/tts.ts:63-68 | one second of 8 kHz, 8-bit mono audio lasts 1.00 s |
| Wav.MapTtsError | src/lib/sarvam/tts.ts:71-79 | service and TTS errors pass through; another error becomes a TTS error with its message; a non-error becomes "Failed to synthesize TTS" |
| Wav.MapTtsErrorIdempotent | src/lib/sarvam/tts.ts:71-79 | mapping twice is mapping once |
| LocalizedErrors.BaseMessage | src/lib/pipeline/localized-errors.ts:4-13 | there is a message exactly for the eight error codes |
| LocalizedErrors.Fallback | src/lib/pipeline/localized-errors.ts:23 | the code's English message, or the UNKNOWN message for any other code; never empty |
| LocalizedErrors.TranslationRequest | src/lib/pipeline/localized-errors.ts:29-43 | the request uses the translator prompt, and the user message ends with the language code, ": ", then the English message |
| LocalizedErrors.LocalizedMessage | src/lib/pipeline/localized-errors.ts:15-48 | without a language or for "en-IN", the English message; otherwise the trimmed reply, unless the call fails or the reply is blank |
| LocalizedErrors.MessageNeverBlank | src/lib/pipeline/localized-errors.ts:19-48 | the message is never empty, whatever the chat service does |
| LocalizedErrors.EnglishNoChat | src/lib/pipeline/localized-errors.ts:24-26 | English or no language never consults the chat service |
| LocalizedErrors.ChatFailureFallsBack | src/lib/pipeline/localized-errors.ts:45-47 | a failing chat service gives the English message |
| Localize.TargetLanguage | src/lib/pipeline/localize.ts:72 | `languageCode \|\| "en-IN"`: a given code is kept, and the result is never empty |
| Localize.TtsLanguage | src/lib/pipeline/localize.ts:88 | the speech language is always supported: the target exactly when the target is supported, "en-IN" otherwise |
| Localize.SpokenItem | src/lib/pipeline/localize.ts:29 | a spoken item is trimmed |
| Localize.SpokenItems | src/lib/pipeline/localize.ts:29 | each item is spoken on its own, in order |
| Localize.SentenceList | src/lib/pipeline/localize.ts:27-30 | an empty list is spoken as "not enough repeated signals", and a one-item list as that item |
| Localize.SpokenItemDropsPeriod | src/lib/pipeline/localize.ts:29 | a trimmed item loses one final period, and an item without one is unchanged |
| Localize.TemplateFrame | src/lib/pipeline/localize.ts:33-41 | seven sentences: the fixed opening, the summary, four middle sentences, then the fixed close |
| Localize.TemplateMiddle | src/lib/pipeline/localize.ts:36-39 | the middle sentences are "Quick verdict: " with the verdict, "What works well: " with the spoken pros list, "What may disappoint: " with the spoken cons list and "Best suited for: " with the audience, each ending with a period |
| Localize.Template | src/lib/pipeline/localize.ts:32-45 | the spoken template is trimmed and single-spaced |
| Localize.AudioScript | src/lib/pipeline/localize.ts:47-63 | the generated script is used, marked as in the target language, exactly when generation succeeds; otherwise the template is used |
| Localize.TtsInput | src/lib/pipeline/localize.ts:108-121 | a generated script is spoken as it is, and so is a template when the speech language is the target; otherwise the template is translated to English |
| Localize.TemplateTranslatedToSpeechLanguage | src/lib/pipeline/localize.ts:88-116 | a template is translated exactly into the speech language, because an unsupported target always speaks English |
| Localize.Translated | src/lib/pipeline/localize.ts:75-86 | English keeps summary and TL;DR; any other target needs both translations from English to succeed, and then gives exactly the two translated texts |
| Localize.AudioUrl | src/lib/pipeline/localize.ts:127-132 | the uploaded address, or a base64 WAV data URL when the upload fails |
| Localize.LocalizeReview | src/lib/pipeline/localize.ts:65-156 | the result carries the target and speech languages, and only summary and TL;DR may change. English leaves the review as it was and saves nothing; another language saves the translated texts with the audio address |
| Localize.LocalizeSteps | src/lib/pipeline/localize.ts:72-155 | a successful result holds the translated summary and TL;DR, speech synthesised from the prepared speech text, the upload's address or the data URL for that audio, and the duration read from that audio's header, which equals the source's reading whenever the corrected check reads one |
| Localize.LocalizeFails | src/lib/pipeline/localize.ts:75-126 | localisation fails exactly when a translation, the speech-text preparation or the synthesis fails; a failed upload or store never fails it |
| Localize.UploadFailureGivesDataUrl | src/lib/pipeline/localize.ts:127-132 | a failed upload still yields a playable data URL |
| Localize.EnglishIgnoresTranslation | src/lib/pipeline/localize.ts:73-86 | English never calls the translation service |
| EventStream.TypeName | src/lib/pipeline/orchestrator.ts:1 | each event type goes on the wire as one of "status", "review", "audio", "error" or "done", made only of lower-case ASCII letters |
| EventStream.TypeNameInjective | src/lib/pipeline/orchestrator.ts:1 | two event types share a wire name exactly when they are the same type |
| EventStream.Block | src/lib/pipeline/orchestrator.ts:13 | a frame body is "event: ", the type name and a line break, then "data: " and the JSON text, which fills the rest |
| EventStream.Frame | src/lib/pipeline/orchestrator.ts:13 | a frame starts with the event line, ends with a blank line, and carries exactly the stringified data in between |
| EventStream.Encode | src/lib/pipeline/orchestrator.ts:12-14 | no events give no text and one event gives its own frame; with `EncodeAppend`, the frames follow emission order |
| EventStream.EncodeAppend | src/lib/pipeline/orchestrator.ts:12-14 | frames go on the stream in emission order: the frames of `a` then `b` are those of `a` followed by those of `b` |
| EventStream.UnknownErrorData | src/lib/pipeline/orchestrator.ts:19-22 | the added error carries code "UNKNOWN" and the thrown error's message, or "Unknown error" for a thrown non-`Error` |
| EventStream.StreamEvents | src/lib/pipeline/orchestrator.ts:16-25 | a producer that returns puts exactly its own events on the stream; one that throws gets exactly one more, the UNKNOWN error, after them; the wrapper never adds a "done" |
| EventStream.StreamText | src/lib/pipeline/orchestrator.ts:10-26 | a producer that returns gives exactly the frames of its events; a throw appends exactly one UNKNOWN error frame to them before the stream closes |
| SseClient.SplitBlocks | src/hooks/use-sse-query.ts:55 | `split` always returns at least one piece |
| SseClient.FeedCuts | src/hooks/use-sse-query.ts:55 | one character cuts a piece exactly when it is a line feed after a line feed; the piece is what was read before the pair, and reading starts afresh; any other character joins the current piece |
| SseClient.FeedJoin | src/hooks/use-sse-query.ts:55 | after one more character, the pieces joined with "\n\n" are the text read so far plus that character |
| SseClient.SplitBlocksSound | src/hooks/use-sse-query.ts:55 | `split("\n\n")` cuts at the leftmost separators: the pieces joined with "\n\n" give the text back, no piece holds "\n\n", and no piece but the last ends in a line feed |
| SseClient.DrainIsBlocks | src/hooks/use-sse-query.ts:48-69 | reading chunks after a carried-over piece without a blank line processes the blocks of that piece followed by the chunks, and finally the trimmed rest when it is not blank |
| SseClient.ChunkingIrrelevant | src/hooks/use-sse-query.ts:48-69 | however the network cuts the stream into chunks, the read loop hands the same blocks to `processBlock` as when the text arrives at once |
| SseClient.FeedFrames | src/hooks/use-sse-query.ts:55-60 | a stream of frames whose data are single lines is cut into exactly the frames' blocks, in order, with nothing left over |
| SseClient.CaptureAtLine | src/hooks/use-sse-query.ts:16-17 | `\s*(.+)$`: the capture holds no line end, and there is none exactly when the white space after the colon reaches a line end or the end of the text with no other character on the line |
| SseClient.KeyCapture | src/hooks/use-sse-query.ts:16-17 | a match at a position needs a line start there and the key with its colon, and captures a non-empty text |
| SseClient.FindLineNone | src/hooks/use-sse-query.ts:16-17 | `match` finds nothing exactly when the pattern matches at no line start |
| SseClient.FindLineFirst | src/hooks/use-sse-query.ts:16-17 | `match` returns the capture at the first position where the pattern matches |
| SseClient.ReadBlock | src/hooks/use-sse-query.ts:16-20 | a block is read exactly when it has both an "event:" and a "data:" line; the type comes back trimmed and the data is never empty |
| SseClient.ReadFrameBlock | src/hooks/use-sse-query.ts:16-21 | the block of a frame reads back as its own type and data when both are one line starting with a non-space character |
| SseClient.Apply | src/hooks/use-sse-query.ts:22-30 | every delivered event reaches the listener; "error" fails the query with the event's message or "Unknown stream error", "done" completes it, any other type leaves state and error alone |
| SseClient.Process | src/hooks/use-sse-query.ts:15-31 | a block missing either line is ignored; data that does not parse rejects the call and changes nothing else |
| SseClient.ProcessAll | src/hooks/use-sse-query.ts:58-60 | once a block's data has failed to parse, no later block has any effect |
| SseClient.SendQuery | src/hooks/use-sse-query.ts:42-46 | an answer that is not ok, or has no body, fails the query with "Failed to start query stream" and delivers nothing |
| SseClient.Replay | src/hooks/use-sse-query.ts:22-30 | the reference reading: each event counted once, the rejection flag untouched |
| SseClient.ProcessFrames | src/hooks/use-sse-query.ts:58-60 | processing the blocks of a sequence of frames has the same effect as applying the events themselves, when each event's data is one line and parses back |
| SseClient.RoundTrip | src/hooks/use-sse-query.ts:13-69 | whatever `createSSEStream` writes, cut into any chunks, reaches the listener as the same events in the same order and leaves the state their effects give, provided each event's JSON is one line and parses back |
| SseClient.CorrectedRoundTrip | src/hooks/use-sse-query.ts:16-17 | with lines ending at CR and LF only, the round trip needs no more than `JSON.stringify`'s own guarantee of no raw CR or LF |
| SseClient.ReplaySnoc | src/hooks/use-sse-query.ts:58-60 | replaying one more event applies that event's effect to the state reached so far |
| SseClient.LastEventDecides | src/hooks/use-sse-query.ts:24-30 | a stream whose last event is "done" leaves the query complete; one whose last event is "error" leaves it failed with that event's message or the default |
| SseClient.LineSeparatorCutsData | src/hooks/use-sse-query.ts:16-17 | a data line holding U+2028, which `JSON.stringify` leaves unescaped, is cut there by the multi-line regular expression; ending lines at CR and LF reads it back whole |
| SseClient.SeparatorCuts | src/hooks/use-sse-query.ts:17 | the frame `status` / `"a b"` reads back with the data `"a` only |
| SseClient.SeparatorKeptByCrLf | src/hooks/use-sse-query.ts:17 | the same frame read with CR/LF line ends gives its whole data back |
| QueryRoute.TextField | src/app/api/query/route.ts:19 | a string `text` field comes back trimmed; any other value gives the empty string |
| QueryRoute.TextPayload | src/app/api/query/route.ts:18-23 | a text payload is never blank and carries no edge white space; a blank text is "Text query cannot be empty" |
| QueryRoute.FormPayload | src/app/api/query/route.ts:26-36 | an unreadable form throws; a missing file is "Audio file is required"; a file over 10 MiB is "Audio file exceeds 10MB limit"; any other file becomes an audio payload of exactly its bytes |
| QueryRoute.ParsePayloadAsWritten | src/app/api/query/route.ts:14-40 | as written, a JSON body of `null` throws while reading `.text` |
| QueryRoute.ParsePayload | src/app/api/query/route.ts:14-40 | only an unreadable multipart form throws; text payloads come only from JSON bodies and are non-blank and trimmed; any other content type is "Unsupported content type" |
| QueryRoute.ParsePayloadAgrees | src/app/api/query/route.ts:14-40 | the two readings agree on every request except a JSON body of `null` |
| QueryRoute.Produce | src/app/api/query/route.ts:46-90 | over the limit: [RATE_LIMITED, done]; invalid input: [INVALID_INPUT, done]; text: [listening, understood in "en-IN", done]; audio: [listening, understood or STT_FAILED, done]; a throw while reading leaves no event |
| QueryRoute.Post | src/app/api/query/route.ts:42-44 | once the rate check has answered: it counts the request whatever its body holds: the store afterwards is the one the check leaves |
| QueryRoute.PostAsWritten | src/app/api/query/route.ts:42-44 | the same for the request read as the code reads it |
| QueryRoute.Handle | src/app/api/query/route.ts:42-46 | a rate check that throws rejects the request with its error, before any stream exists, so there is no "done"; otherwise the client gets the stream of `QueryRoute.Post`; either way the store is the one the check leaves |
| QueryRoute.HandleAsWritten | src/app/api/query/route.ts:42-46 | the same, with the stream of `QueryRoute.PostAsWritten` |
| QueryRoute.HandleStreams | src/app/api/query/route.ts:42-90 | with a store that answers every call, the request is streamed, and the stream ends with one "done" whenever the request can be read |
| QueryRoute.DoneExactlyOnceAtEnd | src/app/api/query/route.ts:46-90 | whenever the request can be read, the stream ends with a single "done" carrying the quota the rate check left, and no other event is "done" |
| QueryRoute.RateLimitedIgnoresRequest | src/app/api/query/route.ts:47-56 | a request over the limit gets [RATE_LIMITED, done] whatever it holds, under either reading |
| QueryRoute.NullBodyLosesDone | src/app/api/query/route.ts:18-19 | as written, a `null` JSON body yields one UNKNOWN error and no "done"; read as a body without text it gets [INVALID_INPUT, done] |
| SourcesRoute.Words | src/app/api/sources/route.ts:13-14 | the words of a slug are non-empty and hold no dash |
| SourcesRoute.Capitalize | src/app/api/sources/route.ts:15 | the first character is upper-cased and the rest is kept; ASCII gets its ASCII capital |
| SourcesRoute.Capitalized | src/app/api/sources/route.ts:15 | each word is capitalised on its own, in order |
| SourcesRoute.SlugToProductName | src/app/api/sources/route.ts:11-17 | a slug without words names nothing |
| SourcesRoute.NameBlankIffNoWords | src/app/api/sources/route.ts:11-17 | the name made from a slug is empty exactly when the slug has no words |
| SourcesRoute.DashRuns | src/app/api/sources/route.ts:35 | `replace(/\s+/g, "-")` leaves no white space, never lengthens the text, and empties only the empty text |
| SourcesRoute.DerivedSlug | src/app/api/sources/route.ts:35 | a derived slug has no white space, and is empty exactly when the name is |
| SourcesRoute.CanonicalSlugRoundTrip | src/app/api/sources/route.ts:11-17 | naming a canonical slug and deriving the slug back from the name gives the slug again |
| SourcesRoute.TrimmedField | src/app/api/sources/route.ts:21-22 | a missing or `null` field gives no value, a string gives its trimmed text, and any other value throws |
| SourcesRoute.ReadFields | src/app/api/sources/route.ts:20-22 | a body that does not parse reads as `{}`; a `null` body throws; otherwise both fields are read and the request throws exactly when either read does |
| SourcesRoute.ResolveAsWritten | src/app/api/sources/route.ts:28-35 | as written, a given product is the name and a given slug is the slug, even when blank |
| SourcesRoute.Resolve | src/app/api/sources/route.ts:28-35 | a blank product is named from the slug and a blank slug is derived from the name; non-blank values are kept |
| SourcesRoute.Respond | src/app/api/sources/route.ts:19-41 | a throw exactly when reading the body throws; a 400 "productSlug or product is required" exactly when both fields are blank; otherwise the resolved name and slug with the normalised sources scraped for that name and their count |
| SourcesRoute.PostAsWritten | src/app/api/sources/route.ts:19-41 | the handler as written: the same errors, a given product used as the name, a given slug echoed |
| SourcesRoute.Post | src/app/api/sources/route.ts:19-41 | with blank fields treated as missing, a found product always has a non-empty slug, and an empty name only when the slug has no words |
| SourcesRoute.BlankProductKeptAsWritten | src/app/api/sources/route.ts:24-28 | as written, a white-space product with a good slug searches for an empty name; the corrected reading names the product from the slug |
| SourcesRoute.BlankSlugKeptAsWritten | src/app/api/sources/route.ts:24-35 | as written, a white-space slug is echoed empty; the corrected reading derives it from the product name |
| Seed.Candidates | scripts/seed-products.ts:67-83 | at most five values; the full slug comes first when non-empty, and the model slug is among them when non-empty |
| Seed.Dedup | scripts/seed-products.ts:67-85 | `Array.from(set)`: each value once, exactly the values added |
| Seed.NonEmptyKeepsDistinct | scripts/seed-products.ts:85 | dropping empty strings keeps the values distinct |
| Seed.ShortModelMatch | scripts/seed-products.ts:74 | a match of `\b([A-Za-z]+)\s*([0-9]{1,3})\b` is letters, white space and one to three digits between word boundaries, and no earlier position gives a match with the longest parts |
| Seed.ShortModelUnique | scripts/seed-products.ts:74 | at most one match starts at a position: the one with the longest letters, white space and digits |
| Seed.NoneAt | scripts/seed-products.ts:74 | when the longest parts from a position do not match, nothing starting there matches |
| Seed.ShortModelLeftmost | scripts/seed-products.ts:74 | the search finds the leftmost match: nothing matches before it, and nothing at all when it finds none |
| Seed.ShortModelMatchOf | scripts/seed-products.ts:74 | a model "<letters> <1 to 3 digits>" followed by nothing or a non-word character matches with exactly those letters and digits |
| Seed.GalaxyAt | scripts/seed-products.ts:80 | a match of `/Galaxy\s+([A-Z])\s*([0-9]{1,3})/i` captures one ASCII letter and one to three digits |
| Seed.GalaxyMatch | scripts/seed-products.ts:80 | a match at the starting position is the one returned; a returned match captures one ASCII letter and one to three digits; no match anywhere gives none |
| Seed.GalaxyMatchOf | scripts/seed-products.ts:80 | "Galaxy <letter><1 to 3 digits>" followed by nothing or a non-digit captures that letter and those digits |
| Seed.BuildAliases | scripts/seed-products.ts:66-86 | the aliases are distinct, never empty, exactly the non-empty candidates, and include the full slug and the model slug when those are non-empty |
| Seed.ShortModelAliases | scripts/seed-products.ts:74-78 | such a model gets "<letters>-<digits>" and "<digits>" (slugged) as aliases |
| Seed.GalaxyCompactAlias | scripts/seed-products.ts:80-83 | a "Galaxy S24"-style model gets the compact alias "s24" (slugged) |
| Seed.Row | scripts/seed-products.ts:96-100 | the row carries the phone's canonical slug, and is trending exactly for the first ten phones |
| Seed.AliasKey | scripts/seed-products.ts:112 | the key is "product:alias:" followed by the alias, so different aliases get different keys |
| Seed.SetAliases | scripts/seed-products.ts:111-116 | every alias written points at the phone's slug, and every other key keeps its value |
| Seed.Entries | scripts/seed-products.ts:94-110 | one entry per phone, in order, with its row and its aliases |
| Seed.Apply | scripts/seed-products.ts:94-117 | every product is stored under its own slug, every alias points at a stored product, and every phone's slug is stored |
| Seed.Seed | scripts/seed-products.ts:88-117 | the same three facts for the seeded catalogue |
| Seed.ApplyRow | scripts/seed-products.ts:98-108 | the row of a slug that no later entry shares is the one stored (`ON CONFLICT ... DO UPDATE` keeps the last write) |
| Seed.ApplyAlias | scripts/seed-products.ts:111-116 | an alias no later entry writes points at its own entry's slug |
| Seed.SeedRow | scripts/seed-products.ts:94-108 | a phone whose slug no later phone shares keeps its own row, with its own trending flag |
| Seed.SeedAlias | scripts/seed-products.ts:110-116 | an alias no later phone writes points at its phone's slug |
| Seed.TrendingIsFirstTen | scripts/seed-products.ts:91-100 | with distinct slugs, exactly the first ten phones are trending |
| Seed.SeededAliasResolves | scripts/seed-products.ts:110-116 | a transcript whose slug is a seeded alias of one phone resolves to that phone's slug |
| SynthesisPrompt.Floors | src/lib/pipeline/synthesize.ts:146-153 | the first pass grants each source at most `min(chars, 120)`, in input order, and never more than the 8000-character budget in total |
| SynthesisPrompt.FloorsWhenTheyFit | src/lib/pipeline/synthesize.ts:149-153 | when every source's floor fits in the budget, each gets exactly `min(chars, 120)` |
| SynthesisPrompt.FloorsExhausted | src/lib/pipeline/synthesize.ts:149-153 | once a source gets less than its floor, the budget is spent and every later source gets a floor of 0 |
| SynthesisPrompt.ZeroFloors | src/lib/pipeline/synthesize.ts:150 | with no budget every floor is 0 |
| SynthesisPrompt.FloorPrefixBound | src/lib/pipeline/synthesize.ts:149-153 | source `k` gets its whole floor whenever `k + 1` full floors fit in the budget |
| SynthesisPrompt.ShortSourceKept | src/lib/pipeline/synthesize.ts:149-153 | a source of at most 120 characters among the first 66 gets all of its characters as floor |
| SynthesisPrompt.Allocate | src/lib/pipeline/synthesize.ts:146-163 | every allowance lies between the source's floor and `min(chars, 900)`; the allowances add up to `min(8000, sum of caps)`; after the first source left short of its cap, every later source keeps only its floor |
| SynthesisPrompt.Additional | src/lib/pipeline/synthesize.ts:158-161 | the extra characters one source gets never overdraw the budget or pass its cap, and fall short of the cap only when they take the whole budget |
| SynthesisPrompt.SecondPass | src/lib/pipeline/synthesize.ts:155-163 | the extra characters handed out plus what is left equal the budget; a source left short of its cap means nothing is left and later sources get nothing extra |
| SynthesisPrompt.Clip | src/lib/pipeline/synthesize.ts:167 | `slice(0, n).trim()` of a clean text is a prefix of at most `n` characters; the whole text when it fits, something shorter when it does not |
| SynthesisPrompt.CompactOne | src/lib/pipeline/synthesize.ts:134-175 | a compacted source keeps its title, address and type, records the length of its normalised content, and shows a prefix of that content no longer than its allowance; it is untruncated when the allowance covers it |
| SynthesisPrompt.CompactAll | src/lib/pipeline/synthesize.ts:165-175 | each source is compacted with its own allowance, and the shown characters add up to no more than the allowances |
| SynthesisPrompt.CompactSources | src/lib/pipeline/synthesize.ts:129-179 | returns the per-source allowances it used: one per input, each between the floor (the smaller of 120 and the normalised length) and the cap (the smaller of 900 and that length), summing to the smaller of 8000 and the sum of the caps; earlier sources are filled first; the prompt is each normalised content cut to its allowance, in order; a short source among the first 66 is never truncated |
| SynthesisPrompt.ContextTag | src/lib/pipeline/synthesize.ts:184 | "USER_REVIEWS" exactly for e-commerce sources, "EXPERT_OR_CONTENT" otherwise |
| SynthesisPrompt.ShownContent | src/lib/pipeline/synthesize.ts:185-186 | the shown content begins with the clipped content, and is longer, ending in the truncation marker, exactly when the source was cut |
| SynthesisPrompt.SourceBlock | src/lib/pipeline/synthesize.ts:181-197 | no sources give an empty block; one source gives its numbered entry alone; more begin with entry 1 and a blank line |
| SynthesisPrompt.SourceBlockSnoc | src/lib/pipeline/synthesize.ts:181-197 | one more source adds a blank line and its entry numbered after the others, so every source appears in input order, numbered by position |
| SynthesisPrompt.UserPrompt | src/lib/pipeline/synthesize.ts:501-506 | joining the four prompt lines with line feeds gives the product line, an empty line, the instruction line and then the source block |
| SynthesisPrompt.ExtractJsonObject | src/lib/pipeline/synthesize.ts:79-86 | succeeds exactly when a "{" occurs before the last "}"; the result then starts with "{" and ends with "}"; otherwise the error is "Synthesis response did not include a JSON object" |
| SynthesisPrompt.ExtractAround | src/lib/pipeline/synthesize.ts:79-86 | from text with no "{" before the object and no "}" after it, exactly the object is extracted |
| SynthesisPrompt.ExtractAt | src/lib/pipeline/synthesize.ts:80-85 | the slice runs from the first "{" to the last "}", both included |
| ReviewShape.CoerceString | src/lib/pipeline/synthesize.ts:199-203 | only strings that are not blank give a value, and the value is the trimmed string |
| ReviewShape.CoerceStringKeeps | src/lib/pipeline/synthesize.ts:199-203 | a non-empty string without edge white space comes back unchanged |
| ReviewShape.SplitItems | src/lib/pipeline/synthesize.ts:214 | `split(/[,\n]/g)` gives at least one piece and no piece holds a comma or a line feed |
| ReviewShape.SplitItemsWhole | src/lib/pipeline/synthesize.ts:214 | text without a comma or line feed is one piece |
| ReviewShape.CoerceStringArray | src/lib/pipeline/synthesize.ts:205-220 | at most five items, each non-empty and trimmed; array items come from the array's strings; items of a string hold no comma or line feed; any other value gives [] |
| ReviewShape.StringArrayKept | src/lib/pipeline/synthesize.ts:206-211 | an array of clean strings gives back its first five, all of them when there are at most five |
| ReviewShape.StringItemKept | src/lib/pipeline/synthesize.ts:212-218 | a clean string with no comma or line feed gives itself as the one item |
| ReviewShape.CoerceConfidence | src/lib/pipeline/synthesize.ts:222-226 | always in [0, 1]; a non-finite number gives 0.6; a finite one is clamped to [0, 1] |
| ReviewShape.CoerceVerdict | src/lib/pipeline/synthesize.ts:228-233 | "buy", "skip" and "wait" give their verdicts; anything else gives "wait" |
| ReviewShape.EnsureLength | src/lib/pipeline/synthesize.ts:235-239 | a trimmed value that is long enough is kept; a shorter one gives at most `max(min, fallback length)` characters; with a clean fallback of at least `min` characters the result has at least `min` |
| ReviewShape.Lengthen | src/lib/pipeline/synthesize.ts:236-238 | the short case: an empty value is replaced by the fallback, and a short one is padded with it, cut to `max(min, fallback length)` |
| ReviewShape.Pad | src/lib/pipeline/synthesize.ts:238 | the padded text never exceeds its bound, and keeps at least the fallback's length when both parts are clean and the fallback fits |
| ReviewShape.JoinedKeepsFallback | src/lib/pipeline/synthesize.ts:238 | joining two clean texts with a space leaves nothing for `trim` to remove |
| ReviewShape.FallbacksFit | src/lib/pipeline/synthesize.ts:381-393 | the default summary and TL;DR lie within their schema bounds, and the default pros, cons and best-for are non-empty |
| ReviewShape.EnsureLengthBounds | src/lib/pipeline/synthesize.ts:384-393 | with a fallback inside the bounds, the result reaches the minimum, and exceeds the maximum exactly when the model's text does |
| ReviewShape.LongEnoughKept | src/lib/pipeline/synthesize.ts:236-237 | a clean text at least `min` long comes back unchanged |
| ReviewShape.PaddedToFallback | src/lib/pipeline/synthesize.ts:238 | a clean text shorter than `min`, padded with a longer clean fallback, is exactly as long as the fallback |
| ReviewShape.UrlKey | src/lib/pipeline/synthesize.ts:264 | `replace(/\/+$/, "")` drops exactly the trailing slashes: a prefix not ending in "/" followed only by slashes |
| ReviewShape.UrlKeySlashes | src/lib/pipeline/synthesize.ts:264 | adding any number of slashes to an address does not change its key |
| ReviewShape.LastIndex | src/lib/pipeline/synthesize.ts:265-289 | the last position holding the key, or none when it is absent (a `Map` built from pairs keeps the last value for a repeated key) |
| ReviewShape.FallbackIndex | src/lib/pipeline/synthesize.ts:265-289 | an input source is found for a key exactly when one has that key, and it is the last such source |
| ReviewShape.FallbackKind | src/lib/pipeline/synthesize.ts:303 | the type of the input source found for a key, if any |
| ReviewShape.DeclaredKind | src/lib/pipeline/synthesize.ts:308 | a declared type counts only when it is "blog", "ecommerce" or "youtube" |
| ReviewShape.CoerceSourceItem | src/lib/pipeline/synthesize.ts:293-315 | an item gives a citation exactly when its title and address are non-blank strings and the address parses; the address is the parsed one; the type is the matching input source's (its spread overrides the declared type), else the declared one, else "blog" |
| ReviewShape.MatchedCitationTakesInputType | src/lib/pipeline/synthesize.ts:303-311 | a citation whose address matches an input source, the last one with that key, takes that source's type |
| ReviewShape.LastMatchFound | src/lib/pipeline/synthesize.ts:265-289 | a source that no later source shares a key with is the one found for its key |
| ReviewShape.ModelCitations | src/lib/pipeline/synthesize.ts:291-340 | a value that is not an array gives none; otherwise exactly the items that coerce |
| ReviewShape.CoerceSources | src/lib/pipeline/synthesize.ts:241-365 | the model's usable citations when there are any; otherwise the first five input sources as citations; empty only when both are empty |
| ReviewShape.ModelCitationKept | src/lib/pipeline/synthesize.ts:291-344 | every item that coerces is among the returned sources, even if its address matches no input |
| ReviewShape.ModelCitationsValid | src/lib/pipeline/synthesize.ts:296-301 | with an address parser that accepts its own output, the model's citations always pass the schema's title and url checks |
| ReviewShape.ItemIssues | src/lib/pipeline/synthesize.ts:8-9 | an issue is reported exactly when some item is empty |
| ReviewShape.ListIssues | src/lib/pipeline/synthesize.ts:8-9 | no issue exactly when the list holds one to five non-empty items |
| ReviewShape.CitationIssues | src/lib/pipeline/synthesize.ts:14-39 | no issue exactly when every citation has a title and an address that parses |
| ReviewShape.IssuesEmptyIffValid | src/lib/pipeline/synthesize.ts:6-40 | the schema lists no issue exactly when the review satisfies every bound of the schema |
| ReviewShape.SummaryOf | src/lib/pipeline/synthesize.ts:375-388 | the summary has at least 100 characters, and more than 2000 exactly when the model's trimmed summary does |
| ReviewShape.TldrOf | src/lib/pipeline/synthesize.ts:376-393 | the TL;DR (from `tldr`, else `tl_dr`) has at least 30 characters, and more than 500 exactly when the model's does |
| ReviewShape.ListOr | src/lib/pipeline/synthesize.ts:381-382 | one to five clean items: the coerced list when it is non-empty, the default otherwise |
| ReviewShape.Shape | src/lib/pipeline/synthesize.ts:371-396 | the coerced candidate always meets the list, best-for, minimum-length and confidence bounds; it is too long exactly where the model's text is; its sources are the coerced sources |
| ReviewShape.ShapeValidIff | src/lib/pipeline/synthesize.ts:371-406 | the candidate passes the schema exactly when the summary and TL;DR are within their maxima and the sources are non-empty and valid |
| ReviewShape.ValidIffBounds | src/lib/pipeline/synthesize.ts:6-40 | a review that already meets the bounds coercion guarantees passes exactly when the remaining bounds hold |
| ReviewShape.Validate | src/lib/pipeline/synthesize.ts:398-407 | `safeParse` succeeds exactly on valid reviews and returns them unchanged; otherwise it reports a non-empty list of issues |
| ReviewShape.CoerceReviewShape | src/lib/pipeline/synthesize.ts:367-408 | the review is returned exactly when the coerced candidate is valid; otherwise "Synthesis schema validation failed" with its issues |
| TextFallback.Lines | src/lib/pipeline/synthesize.ts:414-417 | every line is non-empty and trimmed |
| TextFallback.FirstTrue | src/lib/pipeline/synthesize.ts:420-426 | `find`/`findIndex`: the first position that matches, or none when none does |
| TextFallback.GetValue | src/lib/pipeline/synthesize.ts:419-423 | the value is trimmed, and empty when no line starts with the prefix (after upper-casing) |
| TextFallback.GetValueOfLine | src/lib/pipeline/synthesize.ts:419-423 | the first line starting with an upper-case ASCII prefix gives the rest of that line, trimmed |
| TextFallback.HeadingRun | src/lib/pipeline/synthesize.ts:431 | the leading run of `[A-Z_]` characters |
| TextFallback.HeadingOf | src/lib/pipeline/synthesize.ts:431 | any `[A-Z_]+` name followed by ":" matches `/^[A-Z_]+:\s*/`, whatever follows |
| TextFallback.CollectFrom | src/lib/pipeline/synthesize.ts:429-437 | every collected bullet is trimmed |
| TextFallback.CollectBullets | src/lib/pipeline/synthesize.ts:425-439 | the bullets are non-empty and trimmed, and there are none when no line is the section heading |
| TextFallback.BulletsOfSection | src/lib/pipeline/synthesize.ts:425-439 | a section heading followed by "- " lines up to a stop line or the end gives exactly those items |
| TextFallback.DashedNotStop | src/lib/pipeline/synthesize.ts:431 | a "- " line never ends a list |
| TextFallback.CollectDashed | src/lib/pipeline/synthesize.ts:429-437 | a run of "- " lines up to a stop line gives their items, trimmed |
| TextFallback.SourceBullet | src/lib/pipeline/synthesize.ts:443-458 | a bullet gives a citation exactly when it has at least two `\|`-separated parts and the second, trimmed, parses as an address |
| TextFallback.SourceBulletFields | src/lib/pipeline/synthesize.ts:445-455 | a usable bullet's title is its trimmed first part, or "Source" when that is empty; its url is the parsed address; its type is the third part when that is "ecommerce" or "youtube", otherwise "blog" |
| TextFallback.SourceObject | src/lib/pipeline/synthesize.ts:452-456 | the object carries the given title, url and type under those keys |
| TextFallback.SourceBullets | src/lib/pipeline/synthesize.ts:442-462 | every bullet that gives a citation has it in the list, and every listed object comes from some bullet |
| TextFallback.SourceBulletsOne | src/lib/pipeline/synthesize.ts:442-462 | one bullet gives its object when usable and nothing otherwise |
| TextFallback.SourceBulletsAppend | src/lib/pipeline/synthesize.ts:442-462 | the objects of two runs of bullets are those of the first followed by those of the second, so order is kept and unusable bullets are dropped |
| TextFallback.Candidate | src/lib/pipeline/synthesize.ts:464-474 | the verdict is the lower-cased VERDICT value; confidence, best-for, summary and tl;dr are the raw CONFIDENCE, BEST_FOR, SUMMARY and TLDR values; pros and cons are the collected PROS and CONS bullets; sources are the usable SOURCES bullets |
| TextFallback.TextSources | src/lib/pipeline/synthesize.ts:472-475 | the review's sources are the usable SOURCES bullets coerced, with the fallback sources when none is usable |
| TextFallback.ParseTextFallback | src/lib/pipeline/synthesize.ts:410-477 | a returned review is valid, and its pros and cons are the first five collected bullets whenever the text has any |
| TextFallback.TextVerdict | src/lib/pipeline/synthesize.ts:466 | a VERDICT line naming a verdict in any letter case sets that verdict |
| Synthesize.Message | src/lib/pipeline/synthesize.ts:400 | the schema failure, and only it, carries "Synthesis schema validation failed" |
| Synthesize.FallbackUserPrompt | src/lib/pipeline/synthesize.ts:565-572 | joining the six prompt lines with line feeds gives "Product: <name>", a blank line, "Context:", the reply, a blank line and the malformed-context hint |
| Synthesize.ReplyInFallbackPrompt | src/lib/pipeline/synthesize.ts:565-572 | the fallback prompt holds the first reply verbatim right after the "Context:" line |
| Synthesize.ReadJsonReply | src/lib/pipeline/synthesize.ts:549-551 | a reply gives a review exactly when an object is found, parses, and its coerced candidate is valid; the review is then valid |
| Synthesize.ReadAround | src/lib/pipeline/synthesize.ts:549-551 | prose around one valid object does not stop the object being read |
| Synthesize.ReadObject | src/lib/pipeline/synthesize.ts:549-551 | the extracted object, when it parses and coerces to a valid review, is the review |
| Synthesize.Respond | src/lib/pipeline/synthesize.ts:526-592 | the first request is the strict-JSON one at temperature 0.3; a failed first call is "initial_chat" with no second call; a second, plain-text call at temperature 0 happens exactly when the first reply cannot be read as a valid review; a schema failure only after it; a readable first reply is the outcome with one call; with two calls the outcome is exactly the fallback outcome of the second reply |
| Synthesize.FallbackOutcome | src/lib/pipeline/synthesize.ts:557-591 | a failed fallback call is "fallback_text_parse" with its error; otherwise the outcome succeeds exactly when the text parses into a valid review, and then is that review; a schema error is passed on unchanged as a schema failure |
| Synthesize.SynthesizeReview | src/lib/pipeline/synthesize.ts:479-593 | the prompt is built from the compacted sources, at most 8000 content characters; one or two chat calls; the outcome is exactly `Synthesize.Respond` on the user prompt of the compacted sources; every returned review is valid |
| Synthesize.JsonReplyUsed | src/lib/pipeline/synthesize.ts:549-551 | a first reply holding one valid object is used directly, with no second call |
| Synthesize.NoObjectFallsBack | src/lib/pipeline/synthesize.ts:549-590 | a first reply with no "{" always leads to the plain-text call, whose outcome decides |

## Left out

- Logging: every `console.info`, `console.warn` and `console.error` call, and the size statistics gathered only for them, have no effect on results.
- I/O: Redis, Postgres, object storage, `fetch` and `TextDecoder` are function parameters or maps. A call the model gives a result can fail, and its failure is a `Result` failure. These calls are: the review cache, the alias and product lookups, translation, speech, chat, search, scraping, upload, and the three rate-limit calls through `RateLimit.TryCheckRateLimit`. The seed script's writes are plain map updates, so a failing write, which aborts the script, is not modelled. Real expiry times, and the `ip` hashing in the routes, are outside the model.
- Prompts: the wording of the system prompts is a constant that stays opaque. The model's temperature is recorded on each request, but its effect on the reply is an oracle.
- React: the `useSSEQuery` hook's state is a `View` value, and each `setState` call becomes a step function. Rendering is left out.
- Code units: JavaScript strings are UTF-16 code units, but a Dafny `char` is a Unicode scalar value. Lone surrogates cannot be represented. A character outside the basic plane is one `char` here and two code units in the source, so lengths and slice positions differ for such text.
- Oracles: `new URL(...).toString()`, `JSON.parse`, `JSON.stringify` and `Number(string)` are oracles. The Unicode case tables, NFKD and `\p{L}`/`\p{N}` are oracles too. Zod's `url()` check uses the same address parser as `new URL`.
- Alias expiry: the seed script writes each alias with a 30-day expiry (`ALIAS_TTL_SECONDS`). `Seed.Apply` models the alias store as a plain map, so the expiry is not modelled; alias lookups are only ever stated for the moment right after seeding.
- The seed catalogue: the concrete phone list in `scripts/seed-products.ts` is left out. `Seed.Seed` takes any list of phones, and the facts proved hold for every list.
- Deadlines: clocks come in as parameters. `Date.now()` values are passed in explicitly.
- Review metadata: the `ecommerceOverview` fields that `coerceSources` spreads into citations are left out. `NormalizedReviewSource` never carries them, so citations hold only a title, an address and a type.
- EventStream.StreamText: closing the stream is the end of the text, not a separate event.
- Localize.LocalizeReview: reads the duration with the corrected header check `Wav.Duration`, while the source calls its check as written (see Findings). `Localize.LocalizeSteps` proves that the two agree whenever the corrected check reads a duration. A header that only the as-written check accepts has a duration in the source and none here.
- Wav.Hundredths: rounds the exact quotient half up. The source divides in floating point, and `toFixed(2)` rounds that double. A quotient whose exact value has a 5 in the thousandths can therefore round down in the source. For example, 201 bytes at 200 bytes per second is exactly 1.005 s; the source reads 1.00 and the model 1.01.
- ReviewEvidence.ParseInt: returns the exact integer. The source's `parseInt` returns a double. Values above 2^53 lose precision, and more than about 309 digits give `Infinity`.
- Unicode.ToLower: maps each character on its own. Context-dependent rules are not modelled, such as the final sigma, where Σ becomes ς at the end of a word.
- TextFallback.ParseTextFallback: states that a returned review is valid and keeps the collected pros and cons. The issues of a schema failure are those of `ReviewShape.CoerceReviewShape`, and are not restated.
- QueryRoute.Post: its own contract states only the store after the rate check. The event sequence is stated by `QueryRoute.Produce` and `QueryRoute.DoneExactlyOnceAtEnd`. A rate check that throws is covered by `QueryRoute.Handle`.
- QueryRoute.PostAsWritten: likewise states only the store. Its events are stated by `QueryRoute.Produce`, `QueryRoute.NullBodyLosesDone` and `QueryRoute.RateLimitedIgnoresRequest`.
- Seed.BuildAliases: the aliases are proved distinct, non-empty and complete. The order `Array.from(new Set(...))` gives them is not stated.

## Findings

| source | as written | input that shows it | evidently intended | confidence | as-written member | corrected member |
|---|---|---|---|---|---|---|
| src/lib/sarvam/tts.ts:51 | the header markers are compared after Node's "ascii" decoding, which drops each byte's high bit | a 44-byte WAV header whose first byte is 0xD2 instead of 'R' reads as "RIFF" and gets a duration | accept only the exact bytes "RIFF" and "WAVE" | not executed | Wav.DurationAsWritten, Wav.HighBitExample | Wav.Duration |
| src/hooks/use-sse-query.ts:16-17 | the event and data lines are found with `^...$` under the `m` flag, and JavaScript's regular expressions end lines at U+2028 and U+2029 as well as CR and LF | an event whose JSON string holds U+2028, which `JSON.stringify` does not escape, loses everything after that character | end lines only at CR and LF, as the server writes them | not executed | SseClient.RoundTrip, SseClient.LineSeparatorCutsData | SseClient.CorrectedRoundTrip |
| src/app/api/query/route.ts:18-19 | the JSON body is read as `json.text` without a null check | the body `null` throws a TypeError inside the stream, so the client gets an UNKNOWN error and never gets "done" | treat it as a body without text: INVALID_INPUT, then "done" | not executed | QueryRoute.ParsePayloadAsWritten, QueryRoute.NullBodyLosesDone | QueryRoute.ParsePayload, QueryRoute.DoneExactlyOnceAtEnd |
| src/app/api/sources/route.ts:28-35 | `??` replaces only `undefined`, so a trimmed but blank product or slug is kept | `{"productSlug": "iphone-16", "product": "  "}` searches for an empty name; `{"productSlug": " ", "product": "Pixel 9"}` echoes an empty slug | derive a blank field from the other one, as for a missing field | not executed | SourcesRoute.ResolveAsWritten, SourcesRoute.BlankProductKeptAsWritten, SourcesRoute.BlankSlugKeptAsWritten | SourcesRoute.Resolve, SourcesRoute.Post |
