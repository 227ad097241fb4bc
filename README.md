# factory: the content pipeline, modelled in Dafny

The factory pipeline has five stages:

1. **Discover.** It finds terms people are using on social sources: ranked emoji and acronyms.
2. **Score.** It scores the terms by growth, novelty and overlap.
3. **Queue.** It keeps the best ones as queued source items.
4. **Generate.** It has a language model draft an explainer post for the top queued item. An Open Graph card is rendered for the post, and the post is stored as a draft under a slug no other post has.
5. **Distribute.** It plans one social post for each published post.

Two workers replay append-only event and task logs against a ledger of processed ids.

This project models that core. It has one Dafny module per source file:

- Reservoir, EmojiUtils, Discover, EmojiLru and TtlCache: the emoji plugin's library.
- Slug, TextUtil and Normalize: the emoji plugin's utilities.
- AcronymsPlugin: the acronyms plugin.
- EmojiExtractor, AcronymExtractor, Score, History, IngestUtils, Breaker, Budget, Generate and Distribute: the factory package.
- Og: the card text.
- OpenAi: the pure part of the language-model adapter.
- MemoryQueue: the in-memory queue.
- DistributeEvents and TasksWatch: the two workers.

Shared modules hold what several stages rely on:

- Types and Ports: the records and the database and poster ports.
- Files: the data directory of JSON documents.
- JsText: JavaScript string and number semantics.
- Seqs: subsequences, `slice` and the stable descending sort.
- OrderedMap: a JavaScript `Map`.
- Tally: the token counts both extractors fill.
- Wrappers: `Option` and `Result`.

Pure code is written as functions, and lemmas prove its properties. Code that updates state step by step is written as methods, with loops and invariants:

- the reservoir;
- the extractors' counting loops;
- the novelty stamping;
- the ledgers;
- the slug search;
- the workers.

Each such method is proved against a specification function or relation. An object whose fields the source updates is a class:

- the breaker;
- the request budget;
- the novelty store;
- the data directory;
- the database;
- the poster;
- the memory queue.

Network clients, the clock, randomness, `JSON.parse`, the Unicode emoji regex, `Math.exp` and the language model are not modelled as code. Each is a parameter of the operation that uses it, and the module comments say which.

Two constants follow the code:

- The similarity threshold of the reservoir de-duplication is 0.9, the default in packages/plugins/emoji/lib/utils.ts.
- The acronyms plugin's `scoreHint` is the constant 0.1 (`AcronymsPlugin.ScoreHint`).

## Model

| member | source | states |
|---|---|---|
| Types.Urls | packages/plugins/emoji/types.ts:1-6 | every row's URL is in the set of URLs of the rows |
| Types.UrlsSound | packages/plugins/emoji/types.ts:1-6 | every URL in that set belongs to one of the rows |
| Types.UrlsAbsent | packages/plugins/emoji/types.ts:1-6 | a URL that no row has is not in the set |
| Files.Store.constructor | packages/plugins/emoji/lib/cache.ts:9 | the data directory starts as the documents given |
| Files.ReadJson | packages/plugins/emoji/lib/cache.ts:10-17 | reading a file inside `try` yields its parsed value exactly when the file exists and parses, and `None` otherwise |
| TtlCache.FreshEntry | packages/plugins/emoji/lib/cache.ts:11-16 | an entry is served exactly when its file exists, is younger than `ttlHours` hours and parses, and then the parsed value is served |
| TtlCache.WithCacheTTL | packages/plugins/emoji/lib/cache.ts:4-22 | with `ttlHours <= 0` the producer is called and nothing is stored; a fresh entry is returned without calling the producer and without writing; otherwise the producer is called and its value is stored under the key, while a producer that throws leaves the store unchanged |
| TtlCache.FreshAfterWrite | packages/plugins/emoji/lib/cache.ts:12-21 | a value just written is served from the cache until it is `ttlHours` old |
| TtlCache.StaleAfterTtl | packages/plugins/emoji/lib/cache.ts:12-13 | an entry `ttlHours` old or older is never served, whatever it holds |
| TtlCache.Ledger | packages/plugins/emoji/lib/cache.ts:27-30 | a missing or unparsable health file reads as the empty record |
| TtlCache.WriteHealth | packages/plugins/emoji/lib/cache.ts:24-34 | the health file becomes the old ledger with the key set to the payload plus `at` |
| TtlCache.WriteHealthEffect | packages/plugins/emoji/lib/cache.ts:31 | the written key holds every field of the payload and `at`; every other key of the ledger is kept as it was |
| EmojiLru.Loaded | packages/plugins/emoji/store/emojiCache.ts:7-16 | `load` returns the memory copy once there is one; otherwise the file's map, or `{}` for a missing or corrupt file |
| EmojiLru.Lookup | packages/plugins/emoji/store/emojiCache.ts:26 | `map[emoji] ?? null` is the stored time exactly when the emoji is a key |
| EmojiLru.Store.constructor | packages/plugins/emoji/store/emojiCache.ts:4-5 | memory starts as `null`, with the file as given |
| EmojiLru.Store.Load | packages/plugins/emoji/store/emojiCache.ts:7-16 | returns the loaded map and keeps it in memory; the file is read only while memory is `null` |
| EmojiLru.Store.Save | packages/plugins/emoji/store/emojiCache.ts:18-22 | the memory copy, when there is one, becomes the whole file; without one nothing is written |
| EmojiLru.Store.Get | packages/plugins/emoji/store/emojiCache.ts:24-27 | the time stored for the emoji in the loaded map, or none |
| EmojiLru.Store.Set | packages/plugins/emoji/store/emojiCache.ts:29-33 | memory becomes the loaded map with the emoji set to `when`, and the file is written with it at once |
| EmojiLru.GetAfterSet | packages/plugins/emoji/store/emojiCache.ts:24-33 | after `set(e, w)`, `get(e)` is `w` and every other emoji reads as before |
| EmojiLru.LoadIgnoresFileOnceInMemory | packages/plugins/emoji/store/emojiCache.ts:8 | once memory holds a map, the file no longer affects what is loaded |
| EmojiLru.WriteThrough | packages/plugins/emoji/store/emojiCache.ts:29-33 | after `set`, loading from the file alone gives the same map as memory |
| Slug.HexCodes | packages/plugins/emoji/util/slug.ts:17-18 | one hexadecimal piece per code point of the term, in order |
| Slug.SlugFromEmoji | packages/plugins/emoji/util/slug.ts:1-21 | the slug is `what-does-` + name + `-mean`, the name being the table's entry when the term has a non-empty one, and otherwise `emoji-u` followed by the code points in hexadecimal joined by `-` |
| Slug.EmptyTermSlug | packages/plugins/emoji/util/slug.ts:17-20 | the empty term gets `what-does-emoji-u-mean` |
| Slug.HexHasNoDash | packages/plugins/emoji/util/slug.ts:18 | hexadecimal digits never contain the `-` separator |
| Slug.FallbackInjective | packages/plugins/emoji/util/slug.ts:16-20 | two unlisted non-empty terms with the same slug are the same term |
| Normalize.LangOf | packages/plugins/emoji/lib/normalize.ts:11 | the language defaults to `en` when missing or empty, and a non-empty one is kept |
| Normalize.ToSourceItems | packages/plugins/emoji/lib/normalize.ts:5-20 | one item per row, in row order |
| Normalize.ItemFacts | packages/plugins/emoji/lib/normalize.ts:7-19 | each item's fields: id `tw:` + the row id or its index, niche `emoji`, term, language, text scrubbed and clipped to 200, the counts with 0 for absent ones, the date or `now`, no media |
| Normalize.PlainTextKept | packages/plugins/emoji/lib/normalize.ts:12 | text of at most 200 characters without `@` or digits is kept unchanged |
| Normalize.IndexIdsDistinct | packages/plugins/emoji/lib/normalize.ts:8 | rows without an id get distinct ids |
| Breaker.Breaker.constructor | packages/factory/util/breaker.ts:2-3 | no failures counted, with the threshold given |
| Breaker.Breaker.Run | packages/factory/util/breaker.ts:4-14 | once the count has reached the threshold, `run` returns null without calling `fn`; otherwise a return resets the count to 0 and passes the value on, and a throw adds one to the count and returns null |
| Breaker.OpenStaysOpen | packages/factory/util/breaker.ts:5 | an open breaker stays open through any run of calls, and calls nothing |
| Breaker.FailsBounded | packages/factory/util/breaker.ts:5-11 | starting from a count below the threshold, the count never goes above the threshold |
| Breaker.ThresholdFailuresOpen | packages/factory/util/breaker.ts:4-14 | `threshold` consecutive failures from a closed breaker open it |
| Budget.RequestBudget.constructor | packages/factory/util/budget.ts:3-5 | the budget starts at `total` |
| Budget.RequestBudget.Consume | packages/factory/util/budget.ts:6-11 | `remaining` drops by `n`, and the call throws exactly when the result is below zero |
| Budget.SumOnes | packages/factory/util/budget.ts:6-7 | `k` unit consumptions remove `k` |
| Budget.UnitConsumes | packages/factory/util/budget.ts:6-10 | with unit requests, the first `total` calls succeed and the next one throws |
| Budget.SumMonotone | packages/factory/util/budget.ts:7 | with non-negative requests, the amount consumed only grows |
| Budget.ThrowStaysThrown | packages/factory/util/budget.ts:8-9 | once a consumption has thrown, every later non-negative consumption throws too |
| History.ReadHistory | packages/factory/signals/history.ts:6-8 | a missing or unparsable history file reads as the empty record |
| History.Appended | packages/factory/signals/history.ts:11-13 | the series with the new value appended, cut to its last seven values |
| History.UpdateHistory | packages/factory/signals/history.ts:10-16 | the history file becomes the old record with the term's series updated |
| History.UpdateEffect | packages/factory/signals/history.ts:10-16 | the term's new series ends with the value, has at most seven values, and no other term changes |
| History.UpdateKeepsTail | packages/factory/signals/history.ts:12-13 | the new series is the last values of the old one followed by the new value |
| History.UpdateFull | packages/factory/signals/history.ts:13 | a series already seven long drops exactly its oldest value |
| Reservoir.ParseProvider | packages/plugins/emoji/lib/reservoir.ts:12-19 | a configured name starts a task exactly when it is one of `reddit`, `hn`, `trends`, `youtube`, `rss` |
| Reservoir.Dispatch | packages/plugins/emoji/lib/reservoir.ts:11-20 | at most one task per configured name, in configuration order |
| Reservoir.DispatchAll | packages/plugins/emoji/lib/reservoir.ts:10-20 | the loop starts one task for each configured name that names a known provider, in order, and no other |
| Reservoir.MergeSettled | packages/plugins/emoji/lib/reservoir.ts:21-25 | the rows of the fulfilled outcomes, concatenated in order |
| Reservoir.DedupeByUrl | packages/plugins/emoji/lib/reservoir.ts:26-34 | the first row for each URL, in input order, cut once `limit` rows are out, with the limit test after the push |
| Reservoir.BuildReservoir | packages/plugins/emoji/lib/reservoir.ts:8-37 | tasks for the configured providers, then the merged fulfilled rows deduplicated by URL and capped |
| Reservoir.FirstByUrlPrefix | packages/plugins/emoji/lib/reservoir.ts:29-34 | breaking out early keeps a prefix of the full deduplication |
| Reservoir.DefaultNames | packages/plugins/emoji/lib/reservoir.ts:9 | with `DISCOVER_PROVIDERS` unset or empty the names are `reddit` and `hn` |
| Reservoir.DefaultDispatch | packages/plugins/emoji/lib/reservoir.ts:9-20 | with `DISCOVER_PROVIDERS` unset the started tasks are Reddit and then Hacker News |
| Reservoir.UnknownNamesIgnored | packages/plugins/emoji/lib/reservoir.ts:18 | a name outside the five providers starts no task |
| Reservoir.RejectedContributesNothing | packages/plugins/emoji/lib/reservoir.ts:21-25 | a rejected provider adds no rows and does not stop the build |
| Reservoir.MergedFromFulfilled | packages/plugins/emoji/lib/reservoir.ts:23-25 | every merged row comes unchanged from a fulfilled outcome |
| Reservoir.FirstByUrlSubseq | packages/plugins/emoji/lib/reservoir.ts:29-32 | the kept rows are a subsequence of the merged rows |
| Reservoir.FirstByUrlDistinct | packages/plugins/emoji/lib/reservoir.ts:27-31 | no two kept rows share a URL |
| Reservoir.FirstByUrlKeepsUrls | packages/plugins/emoji/lib/reservoir.ts:27-32 | before the cap, every URL of the merged rows is kept |
| Reservoir.FirstOccurrenceKept | packages/plugins/emoji/lib/reservoir.ts:30-32 | a row whose URL did not occur earlier is kept |
| Reservoir.ReservoirSize | packages/plugins/emoji/lib/reservoir.ts:33 | at most `limit` rows for `limit >= 1`, and exactly one row for `limit <= 0` when any row exists |
| TextUtil.Clip | packages/plugins/emoji/util/text.ts:1-3 | a string of at most `n` characters is kept; a longer one is a prefix plus `…`, of exactly `n` characters when `n >= 1` |
| TextUtil.ClipIdempotent | packages/plugins/emoji/util/text.ts:1-3 | clipping twice to the same `n >= 1` is clipping once |
| TextUtil.ClipNonPositive | packages/plugins/emoji/util/text.ts:2 | for `n <= 0` the negative `slice` end counts from the back, so the result is longer than `n` |
| TextUtil.ReplaceAllNone | packages/plugins/emoji/util/text.ts:7-9 | a global replace whose pattern matches nowhere changes nothing |
| TextUtil.Run | packages/plugins/emoji/util/text.ts:8-9 | the greedy run of a character class: every character in it belongs to the class and the next one does not |
| TextUtil.LastTld | packages/plugins/emoji/util/text.ts:8 | backtracking keeps the domain up to a `.` followed by at least two letters |
| TextUtil.EmailMatch | packages/plugins/emoji/util/text.ts:8 | an email match lies inside the text and contains an `@` |
| TextUtil.LastDigit | packages/plugins/emoji/util/text.ts:9 | the greedy `{7,}` backs off to the last digit with at least seven phone characters before it |
| TextUtil.PhoneMatch | packages/plugins/emoji/util/text.ts:9 | a phone match lies inside the text and contains a digit |
| TextUtil.NoAtNoEmail | packages/plugins/emoji/util/text.ts:8 | there is no email match without an `@` |
| TextUtil.NoDigitNoPhone | packages/plugins/emoji/util/text.ts:9 | there is no phone match without a digit |
| TextUtil.ScrubPlainText | packages/plugins/emoji/util/text.ts:5-10 | text with no `@` and no digit is left unchanged |
| TextUtil.EmailOfShape | packages/plugins/emoji/util/text.ts:8 | `local@host.tld` is matched through the last letter of the top-level part |
| TextUtil.NoPhoneInEmailTag | packages/plugins/emoji/util/text.ts:7-9 | the phone pass leaves `[email]` alone |
| TextUtil.EmailsFirst | packages/plugins/emoji/util/text.ts:7-9 | an address becomes `[email]`, even when its local part is all digits and would pass for a phone number |
| Discover.Unskipped | packages/plugins/emoji/lib/discover.ts:64-65 | no stoplisted emoji is counted |
| Discover.Bumped | packages/plugins/emoji/lib/discover.ts:66 | counting an emoji adds one to its count, leaves every other count alone, and appends a new key at the end of the map |
| Discover.CountText | packages/plugins/emoji/lib/discover.ts:64-67 | the inner loop counts exactly the unskipped matches of one text |
| Discover.CountMatches | packages/plugins/emoji/lib/discover.ts:62-68 | the counting loops produce the counts of all unskipped matches, text after text |
| Discover.FreqsValid | packages/plugins/emoji/lib/discover.ts:62-68 | the counts map has each emoji as a key at most once |
| Discover.FreqCount | packages/plugins/emoji/lib/discover.ts:66 | the count of an emoji is its number of occurrences |
| Discover.FreqKeys | packages/plugins/emoji/lib/discover.ts:66 | the map's keys are the distinct matches in first-seen order |
| Discover.FreqEntry | packages/plugins/emoji/lib/discover.ts:66 | each entry holds the positive number of occurrences of its emoji |
| Discover.UnskippedCount | packages/plugins/emoji/lib/discover.ts:65 | a stoplisted emoji occurs 0 times among the unskipped matches; any other emoji occurs as often as in the text |
| Discover.MatchesCount | packages/plugins/emoji/lib/discover.ts:62-68 | an emoji's count is its number of occurrences in all texts, or 0 when it is stoplisted |
| Discover.ScoreBounds | packages/plugins/emoji/lib/discover.ts:76-77 | without a stored time (or with 0) the score is the frequency; with a stored time not in the future it lies between 0 and the frequency |
| Discover.AllowedFreqs | packages/plugins/emoji/lib/discover.ts:69-71 | the counts left after the denylist still have each emoji once |
| Discover.DropDenied | packages/plugins/emoji/lib/discover.ts:71 | the loop deletes every denylisted emoji from the counts |
| Discover.ScoreAll | packages/plugins/emoji/lib/discover.ts:73-80 | one score per entry, in map order, read from the novelty store; the store loads but writes nothing |
| Discover.StampAll | packages/plugins/emoji/lib/discover.ts:83 | every returned emoji gets `now` as its stamp, with one file write per entry |
| Discover.TopEmojisFromReservoir | packages/plugins/emoji/lib/discover.ts:61-87 | the result is the allowed counts, scored, sorted by descending score and cut to 20, and the store then holds the new stamps |
| Discover.AllowedEntry | packages/plugins/emoji/lib/discover.ts:62-71 | an entry that survives the denylist is neither stoplisted nor denied and holds its positive number of occurrences |
| Discover.TopEntry | packages/plugins/emoji/lib/discover.ts:73-82 | every returned entry is the score of one allowed count |
| Discover.TopFacts | packages/plugins/emoji/lib/discover.ts:61-86 | a returned emoji is not stoplisted or denied, its `freq` is its positive number of occurrences, and its `score` is `freq * (1 - novelty)` |
| Discover.ScoredDistinct | packages/plugins/emoji/lib/discover.ts:74 | the scored list has each emoji once |
| Discover.TopRanking | packages/plugins/emoji/lib/discover.ts:81-82 | the result is sorted by non-increasing score, has at most 20 entries and lists each emoji once |
| Discover.TopComplete | packages/plugins/emoji/lib/discover.ts:81-82 | a counted, allowed emoji left out scores no higher than every returned one, and then 20 were returned |
| Discover.StampedEffect | packages/plugins/emoji/lib/discover.ts:83 | exactly the returned emoji are stamped with `now`; every other stamp is kept |
| Discover.DiscoverFromFixtures | packages/plugins/emoji/lib/discover.ts:7-18 | the fixture branch counts every match of the fixtures' texts and sorts them by count |
| Discover.UnscoredEntry | packages/plugins/emoji/lib/discover.ts:15 | in the fixture branch the score is the frequency, which is the positive number of occurrences |
| Discover.UnscoredHas | packages/plugins/emoji/lib/discover.ts:11-15 | in the fixture branch an emoji is listed exactly when it occurs |
| Discover.UnscoredRanking | packages/plugins/emoji/lib/discover.ts:16 | the fixture result is sorted by non-increasing score and lists each emoji once |
| Discover.FixtureFacts | packages/plugins/emoji/lib/discover.ts:7-18 | the fixture result is sorted and distinct, scores each emoji by its frequency, keeps stoplisted emoji, and lists an emoji exactly when some fixture text (`text`, else `term`) contains it |
| EmojiUtils.StripTags | packages/plugins/emoji/lib/utils.ts:3 | stripping tags never lengthens the text |
| EmojiUtils.CollapseSpaces | packages/plugins/emoji/lib/utils.ts:4 | every run of white space becomes one space; the result is single-spaced, empty only for empty input, and starts with a space exactly when the input does |
| EmojiUtils.TrimSingleSpaced | packages/plugins/emoji/lib/utils.ts:4-5 | trimming keeps a text single-spaced |
| EmojiUtils.NormalizeText | packages/plugins/emoji/lib/utils.ts:1-7 | the normalized text has at most 240 characters, does not start with white space and is single-spaced |
| EmojiUtils.Retry | packages/plugins/emoji/lib/utils.ts:9-22 | `fn` runs at least once and at most `attempts` times; the result is the first success, or else the last failure after every attempt is used |
| EmojiUtils.WordSet | packages/plugins/emoji/lib/utils.ts:26-27 | a word set holds no empty word |
| EmojiUtils.WordSetNonEmpty | packages/plugins/emoji/lib/utils.ts:26 | a text with a word character has a word |
| EmojiUtils.CountCommon | packages/plugins/emoji/lib/utils.ts:28-29 | the loop counts exactly the words the two sets share |
| EmojiUtils.Similarity | packages/plugins/emoji/lib/utils.ts:24-32 | `similarity` is the Jaccard index of the word sets, and 0 when both are empty |
| EmojiUtils.InterBound | packages/plugins/emoji/lib/utils.ts:30 | `A.size + B.size - inter` is the size of the union |
| EmojiUtils.SimSymmetric | packages/plugins/emoji/lib/utils.ts:24-32 | similarity is symmetric |
| EmojiUtils.SimBounds | packages/plugins/emoji/lib/utils.ts:24-32 | similarity lies between 0 and 1 |
| EmojiUtils.SimNoWords | packages/plugins/emoji/lib/utils.ts:31 | two texts without words have similarity 0 |
| EmojiUtils.SimSelf | packages/plugins/emoji/lib/utils.ts:24-32 | a text with a word has similarity 1 with itself |
| EmojiUtils.HasNearDuplicate | packages/plugins/emoji/lib/utils.ts:39-42 | the inner loop finds a kept row at least `th` similar exactly when one exists |
| EmojiUtils.DedupeByUrlAndSimilarity | packages/plugins/emoji/lib/utils.ts:34-48 | a row is kept when no kept row has its URL and none is at least `th` similar |
| EmojiUtils.DedupeSubseq | packages/plugins/emoji/lib/utils.ts:34-48 | the output is a subsequence of the input |
| EmojiUtils.DedupeKeepsInvariant | packages/plugins/emoji/lib/utils.ts:37-46 | kept rows have distinct URLs, and each is less than `th` similar to every row kept before it |
| EmojiUtils.DedupeUniqueAndDissimilar | packages/plugins/emoji/lib/utils.ts:34-48 | no two output rows share a URL, and every pair is less than `th` similar, in either order |
| EmojiUtils.NearDuplicateLeavesUrlFree | packages/plugins/emoji/lib/utils.ts:38-44 | a row dropped as a near-duplicate does not mark its URL as seen, so a later dissimilar row with that URL is kept |
| EmojiUtils.DedupeOfValid | packages/plugins/emoji/lib/utils.ts:34-48 | a sequence that already satisfies the invariant passes through unchanged |
| EmojiUtils.DedupeIdempotent | packages/plugins/emoji/lib/utils.ts:34-48 | de-duplicating the output again changes nothing |
| Tally.Observe | packages/factory/extractors/emoji.ts:13-16 | one sighting adds one hit and the row's URL, when it has one, to that token's counter, changes no other counter, and appends a new key at the end of the map |
| Tally.UrlsFor | packages/factory/extractors/emoji.ts:15 | only non-empty URLs are ever recorded |
| Tally.TallyValid | packages/factory/extractors/emoji.ts:9-18 | the map has each token as a key at most once |
| Tally.TallyCounter | packages/factory/extractors/emoji.ts:13-16 | a token's counter holds its number of sightings and the distinct non-empty URLs of its rows in first-seen order |
| Tally.TallyKeys | packages/factory/extractors/emoji.ts:16 | the keys are the tokens seen, in order of first sighting |
| Tally.RowObsCount | packages/factory/extractors/acronyms.ts:14-16 | a row counts a token as often as it matches, unless the token is stoplisted |
| Tally.ObservedToken | packages/factory/extractors/acronyms.ts:12-22 | a counted token was matched in some row and is not stoplisted |
| Tally.TallyEntry | packages/factory/extractors/emoji.ts:9-18 | each entry holds the counter of its token, and its token was seen |
| Tally.SeenHasEntry | packages/factory/extractors/emoji.ts:16 | a token that was seen has an entry |
| Tally.HitsPerRow | packages/factory/extractors/emoji.ts:10-18 | the hits of a token are its matches summed row by row, repeats within a row included |
| Tally.EvidenceFromRows | packages/factory/extractors/emoji.ts:15 | a recorded URL is the non-empty URL of a row in which the token was counted |
| Tally.CountRow | packages/factory/extractors/acronyms.ts:14-21 | the inner loop counts exactly the unskipped matches of one row |
| Tally.CountTokens | packages/factory/extractors/acronyms.ts:10-22 | the counting loops produce the tally of every row's unskipped matches, in reading order |
| EmojiExtractor.EmojiScore | packages/factory/extractors/emoji.ts:23-24 | the score is the hit count for most emoji and the hit count times 0.8, rounded, for evergreen ones; it never exceeds the hits |
| EmojiExtractor.Allowed | packages/factory/extractors/emoji.ts:19-20 | the map left after the denylist still has each emoji once |
| EmojiExtractor.ExtractEmojiCandidates | packages/factory/extractors/emoji.ts:8-29 | the loops build the counts of the first six matches per row, delete the denylisted emoji, then rank the candidates |
| EmojiExtractor.RankedEntry | packages/factory/extractors/emoji.ts:21-28 | every ranked candidate comes from one entry of the map |
| EmojiExtractor.AllowedEntry | packages/factory/extractors/emoji.ts:9-20 | an entry that survives the denylist is not denied and holds the tally of its emoji |
| EmojiExtractor.CandidateFacts | packages/factory/extractors/emoji.ts:8-29 | a candidate is a non-denylisted emoji seen at least once; its term is the emoji + ` emoji meaning`, its score the damped hit count, and its evidence the first three distinct URLs it was seen with |
| EmojiExtractor.EvidenceFacts | packages/factory/extractors/emoji.ts:11-15 | each evidence URL is the URL of a row among whose first six matches the emoji was |
| EmojiExtractor.CandidatesDistinct | packages/factory/extractors/emoji.ts:21-26 | the candidates list each emoji once |
| EmojiExtractor.RankingFacts | packages/factory/extractors/emoji.ts:27-28 | the result is sorted by non-increasing score, has at most `topN` entries and lists each emoji once |
| EmojiExtractor.AllowedHas | packages/factory/extractors/emoji.ts:12-20 | a seen emoji that is not denylisted keeps its entry |
| EmojiExtractor.TopNComplete | packages/factory/extractors/emoji.ts:27-28 | a seen, allowed emoji left out scores no higher than any candidate returned, and the result is full |
| AcronymExtractor.KeepAcronyms | packages/factory/extractors/acronyms.ts:11 | only runs of two to five capitals are kept |
| AcronymExtractor.KeepAcronymsCount | packages/factory/extractors/acronyms.ts:11 | a word is kept as often as it occurs when it is an acronym, and never otherwise |
| AcronymExtractor.TokenCount | packages/factory/extractors/acronyms.ts:11-14 | the matches of a word are its occurrences as a whole `\w` run when it is an acronym, and 0 otherwise |
| AcronymExtractor.ExtractAcronymCandidates | packages/factory/extractors/acronyms.ts:9-27 | the loops build the counts of the non-stoplisted matches, then rank the candidates |
| AcronymExtractor.RankedEntry | packages/factory/extractors/acronyms.ts:23-26 | every ranked candidate comes from one entry of the map |
| AcronymExtractor.CandidateFacts | packages/factory/extractors/acronyms.ts:9-27 | a candidate is a non-stoplisted acronym, its score is its positive number of matches, and its evidence is the first three distinct URLs it was seen with |
| AcronymExtractor.EvidenceFacts | packages/factory/extractors/acronyms.ts:14-19 | each evidence URL is the URL of a row in which the term was matched |
| AcronymExtractor.CandidatesDistinct | packages/factory/extractors/acronyms.ts:23-24 | the candidates list each term once |
| AcronymExtractor.RankingFacts | packages/factory/extractors/acronyms.ts:25-26 | the result is sorted by non-increasing score, has at most `topN` entries and lists each term once |
| AcronymExtractor.TopNComplete | packages/factory/extractors/acronyms.ts:25-26 | a matched, non-stoplisted term left out scores no higher than any term returned |
| AcronymExtractor.SixCapitalsIgnored | packages/factory/extractors/acronyms.ts:11 | a run of six capitals is not matched, nor is any part of it |
| AcronymExtractor.GluedIgnored | packages/factory/extractors/acronyms.ts:11 | capitals next to a digit or an underscore are not matched |
| AcronymExtractor.PunctuationBounds | packages/factory/extractors/acronyms.ts:11 | punctuation is a word boundary |
| AcronymExtractor.WordsOfJoin | packages/factory/extractors/acronyms.ts:11-14 | words joined by single spaces are matched back as exactly those words, in order, so the `\b` boundaries fall at the spaces |
| AcronymExtractor.StoplistExample | packages/factory/extractors/acronyms.ts:3-5 | on the one row "USA and NASA sent the ETA report to HQ" the only candidate is HQ, with score 1: the acronyms USA, NASA and ETA are matched but stoplisted, and the lower-case words are not matched |
| AcronymsPlugin.Unlisted | packages/plugins/acronyms/index.ts:15 | no stoplisted match is kept |
| AcronymsPlugin.UnlistedHas | packages/plugins/acronyms/index.ts:13-16 | a word is kept exactly when it is a match and not stoplisted |
| AcronymsPlugin.ExtractAcronyms | packages/plugins/acronyms/index.ts:9-19 | the `while (re.exec(text))` loop adds every non-stoplisted match to the set, in first-match order |
| AcronymsPlugin.ExtractFacts | packages/plugins/acronyms/index.ts:9-19 | the result has no repeats and holds exactly the non-stoplisted matches, each an acronym of two to five capitals |
| AcronymsPlugin.AddSampleFacts | packages/plugins/acronyms/index.ts:30-32 | the entry of `t` gets the sample when it has fewer than three; no other entry changes, and a new term is appended to the map |
| AcronymsPlugin.FillRow | packages/plugins/acronyms/index.ts:29-33 | the inner loop offers the row's sample to each of its acronyms |
| AcronymsPlugin.FillTerms | packages/plugins/acronyms/index.ts:26-34 | the loops fill `terms` from every row in reservoir order |
| AcronymsPlugin.TermsValid | packages/plugins/acronyms/index.ts:26-34 | the `terms` map has each acronym once |
| AcronymsPlugin.AddRowEntry | packages/plugins/acronyms/index.ts:29-33 | a row offers its sample once to each acronym it yields and to no other |
| AcronymsPlugin.AddRowKeys | packages/plugins/acronyms/index.ts:29-33 | after a row, the keys are the old keys and the row's acronyms |
| AcronymsPlugin.TermsSamples | packages/plugins/acronyms/index.ts:26-34 | the entry of an acronym holds the first three samples of the rows that yield it, in reservoir order |
| AcronymsPlugin.TermsKeys | packages/plugins/acronyms/index.ts:26-34 | the map has an entry for exactly the acronyms that some row yields |
| AcronymsPlugin.TermsEntryAt | packages/plugins/acronyms/index.ts:30-32 | every entry is stored under its own acronym, with its first three samples |
| AcronymsPlugin.SamplesFromRows | packages/plugins/acronyms/index.ts:31 | a sample of an acronym is the text, URL and language of a row that yields it |
| AcronymsPlugin.Picked | packages/plugins/acronyms/index.ts:37 | a positive `limit` keeps at most `limit` leading entries; `limit == 0` keeps them all |
| AcronymsPlugin.LangOr | packages/plugins/acronyms/index.ts:43 | a missing or empty language becomes `en` |
| AcronymsPlugin.Discover | packages/plugins/acronyms/index.ts:23-52 | `discover` over the reservoir fills the terms, ranks them, picks `limit` of them and makes one item per sample |
| AcronymsPlugin.ValuesFacts | packages/plugins/acronyms/index.ts:36 | each value of the map is an entry for an acronym that some row yields, with its first three samples |
| AcronymsPlugin.RankingFacts | packages/plugins/acronyms/index.ts:35-36 | the ranking lists each acronym once, by non-increasing number of samples, each with between one and three samples |
| AcronymsPlugin.RankedEntry | packages/plugins/acronyms/index.ts:36 | a ranked entry holds the first three samples of its acronym, and there is at least one |
| AcronymsPlugin.RankingComplete | packages/plugins/acronyms/index.ts:26-36 | every acronym that some row yields is ranked |
| AcronymsPlugin.PairsLength | packages/plugins/acronyms/index.ts:37 | the `flatMap` yields one pair per sample |
| AcronymsPlugin.PairsFrom | packages/plugins/acronyms/index.ts:37 | every pair is a picked acronym with one of its samples |
| AcronymsPlugin.PairsHas | packages/plugins/acronyms/index.ts:37 | every sample of every picked acronym gives a pair |
| AcronymsPlugin.UnlimitedComplete | packages/plugins/acronyms/index.ts:37-50 | with `limit == 0` every acronym that some row yields gets an item |
| AcronymsPlugin.ItemCount | packages/plugins/acronyms/index.ts:36-50 | one item per sample of the picked acronyms, at most three per acronym; `limit > 0` picks at most `limit` acronyms and `limit == 0` picks them all |
| AcronymsPlugin.PickedSample | packages/plugins/acronyms/index.ts:30-37 | a sample of a picked acronym comes from a row that yields it |
| AcronymsPlugin.ItemFacts | packages/plugins/acronyms/index.ts:39-50 | each item has niche `acronyms`, zero counters, `now` as first-seen time and no media; its id is `acr:` + term + index + encoded URL; its text, URL and language (default `en`) come from a row that yields the acronym |
| AcronymsPlugin.IdInjective | packages/plugins/acronyms/index.ts:40 | two ids are equal only for the same acronym and index, as long as the acronyms hold no `:` |
| AcronymsPlugin.IdsDistinct | packages/plugins/acronyms/index.ts:39-40 | no two items of one call share an id |
| AcronymsPlugin.SlugFor | packages/plugins/acronyms/index.ts:65-67 | the slug is `what-does-`, the lower-cased acronym, and `-mean` |
| AcronymsPlugin.SlugInjective | packages/plugins/acronyms/index.ts:65-67 | distinct acronyms get distinct slugs |
| Score.SortedCopy | packages/factory/signals/score.ts:3 | the copy is sorted smallest first and holds the same values as the input |
| Score.AscendingUnique | packages/factory/signals/score.ts:3 | two sorted lists with the same values are equal, so the sorted copy is determined by the values alone |
| Score.MedianOfSorted | packages/factory/signals/score.ts:3-5 | the median of a sorted list is its middle value, or the mean of its two middle values |
| Score.MedianPermutation | packages/factory/signals/score.ts:1-6 | the median does not change when the input is permuted |
| Score.MedianBounds | packages/factory/signals/score.ts:3-5 | the median of a non-empty list lies between its minimum and its maximum |
| Score.MedianSingle | packages/factory/signals/score.ts:5 | the median of one value is that value |
| Score.MedianEven | packages/factory/signals/score.ts:5 | the median of `[5, 1]` is 3, the mean of the two middle values |
| Score.AtLeastOne | packages/factory/signals/score.ts:13 | `Math.max(1, prev)` is at least 1 and at least `prev`, and equal to one of them |
| Score.GrowthCases | packages/factory/signals/score.ts:8-14 | a short series gives its only point or 0; a non-positive earlier median gives the latest point; otherwise the percentage change over the median, divided by at least 1 |
| Score.GrowthAppend | packages/factory/signals/score.ts:10-13 | growth after appending a point depends only on the median of the earlier points |
| Score.GrowthSign | packages/factory/signals/score.ts:12-13 | with a positive earlier median, growth is positive, zero or negative as the latest point is above, at or below it |
| Score.GrowthIgnoresOrder | packages/factory/signals/score.ts:10 | the order of the earlier points does not matter |
| Score.GrowthFlat | packages/factory/signals/score.ts:8-14 | a flat series has growth 0 when its value is positive, and that value otherwise |
| Score.Clamp | packages/factory/signals/score.ts:18 | the clamp lies in [0, 100] and is the identity inside it |
| Score.NoveltyScore | packages/factory/signals/score.ts:16-19 | novelty lies in [0, 100], is 0 for a term without history, and is the clamped growth otherwise |
| Score.NoNoveltyWithoutGrowth | packages/factory/signals/score.ts:12-18 | a latest count no higher than a positive earlier median gives no novelty |
| Score.OverlapScore | packages/factory/signals/score.ts:21-23 | ten points per evidence, capped at 30, reached exactly from three pieces of evidence upward |
| Score.OverlapMonotone | packages/factory/signals/score.ts:22 | more evidence never lowers the overlap score |
| Score.FinalScore | packages/factory/signals/score.ts:25-27 | the final score is within one half of the weighted sum `0.6 b + 0.25 n + 0.15 o` |
| Score.FinalMonotone | packages/factory/signals/score.ts:26 | the final score never decreases when an input grows |
| Score.FinalBounds | packages/factory/signals/score.ts:16-27 | a base in [0, 100] with a novelty and an overlap computed as above gives a final score in [0, 90] |
| IngestUtils.ParseRaw | packages/factory/ingest/utils.ts:7-11 | `Flags.parse` fails exactly when `limit` is set but not a positive integer; otherwise the unset fields take their defaults (not live, limit 10, cache on) |
| IngestUtils.ParseFlags | packages/factory/ingest/utils.ts:14-23 | the loop applies the four independent tests to every argument, then the schema parses the result |
| IngestUtils.DefaultFlags | packages/factory/ingest/utils.ts:7-11 | without recognised arguments every flag takes its default: not live, limit 10, cache on |
| IngestUtils.LastLiveFlagWins | packages/factory/ingest/utils.ts:17-18 | the last `--live` or `--mock` decides `live` |
| IngestUtils.NoLiveFlag | packages/factory/ingest/utils.ts:17-18 | without `--live` or `--mock`, `live` stays unset |
| IngestUtils.LastLimitWins | packages/factory/ingest/utils.ts:9-22 | the last `--limit=` decides the limit, and parsing throws exactly when its value is not a positive integer |
| IngestUtils.EmptyLimitRejected | packages/factory/ingest/utils.ts:19 | an empty `--limit=` reads as 0 and is rejected |
| IngestUtils.NocacheFlag | packages/factory/ingest/utils.ts:20 | `nocache` is set exactly when `--nocache` is among the arguments |
| IngestUtils.WithCache | packages/factory/ingest/utils.ts:25-37 | without `nocache` a readable cached value is returned and `fn` is not called; otherwise `fn` is called once, and its value is written and returned, while a throw leaves the store unchanged |
| IngestUtils.RefreshThenReuse | packages/factory/ingest/__tests__/utils.test.ts:5-12 | a forced refresh followed by a normal call runs `fn` once, and both calls return the same value |
| IngestUtils.NormalizeEmoji | packages/factory/ingest/utils.ts:43-45 | the result is no longer than the term, has no white space at either end, and a missing term gives `""` |
| IngestUtils.NormalizeEmojiIdempotent | packages/factory/ingest/utils.ts:44 | normalising twice is normalising once |
| IngestUtils.HasPtAccent | packages/factory/ingest/utils.ts:49 | the case-insensitive class test holds exactly when one of the accented letters occurs |
| IngestUtils.DetectLang | packages/factory/ingest/utils.ts:47-51 | `pt` exactly when the text contains one of áéíóúãõâêôç upper or lower case, else `en` |
| IngestUtils.DetectLangConcat | packages/factory/ingest/utils.ts:49 | a text is Portuguese exactly when one of its two parts is |
| IngestUtils.ValidatedOf | packages/factory/ingest/utils.ts:53-64 | all items pass and are returned in order, or the error names the first index that fails |
| IngestUtils.ValidateItems | packages/factory/ingest/utils.ts:53-64 | the `forEach` loop stops at the first invalid item, and otherwise returns every parsed item in order |
| IngestUtils.Dedupe | packages/factory/ingest/utils.ts:66-76 | the loop keeps the first item for each id, in input order |
| IngestUtils.DedupeFacts | packages/factory/ingest/utils.ts:66-76 | the output is a subsequence of the input, holds each id once, loses no id, and is left unchanged by deduplicating again |
| IngestUtils.DedupeExample | packages/factory/ingest/__tests__/utils.test.ts:23-27 | of two items with the same id the first is kept: three items of which two share an id give two |
| Og.TruncateAsWritten | packages/lib/render/og.ts:32-34 | `truncate` as written: a string within the limit is returned unchanged, and a longer one is cut to its first `n - 1` characters followed by the three-character suffix on line 33 |
| Og.TruncateOverflows | packages/lib/render/og.ts:33 | as written, every string longer than the limit comes out two characters longer than the limit |
| Og.TruncateOverflowsTitle | packages/lib/render/og.ts:4 | as written, a 101-character title becomes 102 characters, over the 100 the card allows |
| Og.Truncate | packages/lib/render/og.ts:32-34 | the intended `truncate`: unchanged within the limit, otherwise the first `n - 1` characters and one ellipsis, so the result never exceeds the limit |
| Og.EscapeIsEach | packages/lib/render/og.ts:35-42 | the chain of five global replaces equals escaping each character on its own, `&` first |
| Og.PassesIsEach | packages/lib/render/og.ts:36-41 | for any ordered table of replacements, the chain of replaces equals the per-character escape |
| Og.EntitiesOrdered | packages/lib/render/og.ts:37-41 | no replacement introduces a character a later replace would rewrite, which is why `&` comes first |
| Og.EntitiesCodec | packages/lib/render/og.ts:37-41 | the five entities all start with `&` and differ in their second character, so they can be told apart |
| Og.EscapeIdentity | packages/lib/render/og.ts:35-42 | a string containing none of `& < > " '` is left as it is |
| Og.EscapeSafe | packages/lib/render/og.ts:35-42 | the escaped text holds none of `< > " '` |
| Og.Match | packages/lib/render/og.ts:37-41 | the first entity that begins the text, and that no earlier entity does |
| Og.EscapeRoundTrip | packages/lib/render/og.ts:35-42 | decoding the five entities gives back the original text: escaping loses nothing |
| Og.CardText | packages/lib/render/og.ts:4-5 | as written: the card's title and summary decode back to the as-written `truncate` of the text, kept whole up to 100 and 180 characters and otherwise two characters over the limit (102 and 182), and are free of markup characters |
| Og.CorrectedCardText | packages/lib/render/og.ts:4-5 | the intended card text: it decodes back to the corrected `truncate`, at most 100 and 180 characters, kept whole when short enough, and free of markup characters |
| OpenAi.NextFence | packages/adapters/llm/openai.ts:6 | the first three-backtick fence at or after a position, and no fence before it; none means no fence at all from there |
| OpenAi.FenceAt | packages/adapters/llm/openai.ts:6 | a match of the fence pattern at a position: an opening fence, an optional `json` tag, a newline, and a lazy body that ends at the first closing fence |
| OpenAi.FirstFence | packages/adapters/llm/openai.ts:6 | the leftmost match of the fence pattern, as `exec` finds it, and no match before it |
| OpenAi.FirstFenceNone | packages/adapters/llm/openai.ts:6-7 | when no position matches, the fenced branch is not taken |
| OpenAi.ExtractFenced | packages/adapters/llm/openai.ts:6-7 | with a fenced block, `extractJson` returns its body trimmed, and that body holds no fence |
| OpenAi.ExtractBraces | packages/adapters/llm/openai.ts:8-12 | with no fenced block and a `{` before a later `}`, the result runs from the first `{` to the last `}` inclusive |
| OpenAi.ExtractPlain | packages/adapters/llm/openai.ts:13 | with neither a fenced block nor such braces, the result is the trimmed text |
| OpenAi.NoBacktickNoFence | packages/adapters/llm/openai.ts:6 | a text without a backtick has no fenced block |
| OpenAi.ExtractObject | packages/adapters/llm/openai.ts:5-14 | a bare object text is returned as it is |
| OpenAi.ExtractFromFence | packages/adapters/llm/openai.ts:6-7 | a body in a `json`-tagged fence comes back trimmed, whatever backtick-free text comes before the fence |
| OpenAi.StrOr | packages/adapters/llm/openai.ts:59-60 | `String(x ?? "")` is empty for undefined and null |
| OpenAi.AsString | packages/adapters/llm/openai.ts:71-75 | a string field is kept, and an undefined or null one becomes empty |
| OpenAi.StrItems | packages/adapters/llm/openai.ts:61 | mapping `String` over a list keeps its length and converts each element in place |
| OpenAi.NormalizeUsage | packages/adapters/llm/openai.ts:66-68 | `usage` is at most three strings: empty when falsy, one element for a truthy non-array, otherwise the first three elements as strings |
| OpenAi.OptStrings | packages/adapters/llm/openai.ts:69 | `variants` is absent exactly when null or undefined; when present it is accepted only as a list of strings, element for element |
| OpenAi.OptString | packages/adapters/llm/openai.ts:70 | `notes` is accepted exactly when absent, null or a string, and kept as given |
| OpenAi.NormalizeSections | packages/adapters/llm/openai.ts:64-73 | the sections pass the schema exactly when their `variants` and `notes` are well formed, and `usage` has at most three entries |
| OpenAi.NormalizeAndValidate | packages/adapters/llm/openai.ts:55-81 | an accepted draft has at most three usage entries |
| OpenAi.RepairedFields | packages/adapters/llm/openai.ts:56-63 | the rebuilt sections take `meaning` and `origin` from the top level as strings and have no `variants` or `notes` |
| OpenAi.NormalizeErrors | packages/adapters/llm/openai.ts:55-81 | normalization fails exactly for a non-object, for sections that are not an object, or for a malformed `variants` or `notes` |
| OpenAi.RepairNeverFails | packages/adapters/llm/openai.ts:56-63 | a draft with missing `sections` is rebuilt from the top-level fields and always accepted |
| OpenAi.NormalizeEmptyObject | packages/adapters/llm/openai.ts:102-104 | `{}`, what an unparsable reply leaves, is a valid draft of empty strings |
| OpenAi.Encode | packages/core/ports.ts:18-28 | a draft's JSON object holds its title, summary and sections |
| OpenAi.NormalizeEncode | packages/adapters/llm/openai.ts:55-81 | a draft the schema accepts comes back unchanged from its JSON: normalization changes nothing valid |
| OpenAi.NormalizeIdempotent | packages/adapters/llm/openai.ts:55-81 | normalizing what normalization returned gives the same result |
| OpenAi.ContentOr | packages/adapters/llm/openai.ts:100 | a non-empty reply content is used as it is |
| OpenAi.UnparsableReply | packages/adapters/llm/openai.ts:102-104 | a reply `JSON.parse` rejects is not an error: it becomes the empty draft |
| OpenAi.EmptyReply | packages/adapters/llm/openai.ts:100-101 | a missing and an empty reply are handled alike, both read as `{}` |
| OpenAi.Classify | packages/adapters/llm/openai.ts:105-130 | a failure is retried without the schema exactly when its message reports a rejected schema, and is a quota failure exactly when it is not that and has status 429, code `insufficient_quota` or `quota` in its message |
| OpenAi.RateLimitIsQuota | packages/adapters/llm/openai.ts:127 | status 429 is a quota failure whatever the code, unless the schema was rejected |
| OpenAi.NestedCode | packages/adapters/llm/openai.ts:107 | the nested `error.code` is read only when `code` is missing or empty |
| OpenAi.OtherFailure | packages/adapters/llm/openai.ts:130 | a failure of no known kind is passed on unchanged |
| OpenAi.Draft | packages/adapters/llm/openai.ts:97-131 | a valid first reply is the draft; a failure of the first attempt, from the request or from normalizing its reply (no status, no code, the thrown message), is classified: a schema rejection retries once without the schema, and that retry's failure or normalization error is thrown unclassified; a quota failure becomes the quota error; any other is thrown on unchanged |
| OpenAi.QuotaInFirstReply | packages/adapters/llm/openai.ts:55-58 | a first reply that is a bare string fails the `raw.sections` write inside the `try`, and when that message names a quota the call ends as the quota error |
| OpenAi.FirstReplyErrorThrown | packages/adapters/llm/openai.ts:104-130 | a normalization error of the first reply whose message names neither a schema rejection nor a quota is thrown on as the invalid-draft error |
| OpenAi.RetryOnlyOnSchema | packages/adapters/llm/openai.ts:111-126 | the second request plays a part only after a schema rejection |
| JsText.LowerAscii | packages/plugins/emoji/lib/utils.ts:26-27 | `toLowerCase` keeps the length and lowers each ASCII capital, leaving every other character alone |
| JsText.TrimStart | packages/factory/distribute/index.ts:16 | what is removed from the front is all white space and what is kept starts with none |
| JsText.TrimEnd | packages/factory/distribute/index.ts:16 | what is removed from the back is all white space and what is kept ends with none |
| JsText.Trim | packages/factory/distribute/index.ts:16 | `trim` leaves no white space at either end and never lengthens the text |
| JsText.TrimOfTrimmed | packages/adapters/llm/openai.ts:13 | a text with no white space at either end is its own trim |
| JsText.TrimIdempotent | packages/factory/ingest/utils.ts:44 | trimming twice is trimming once |
| JsText.IndexOf | packages/adapters/llm/openai.ts:8 | `indexOf` gives a position holding the character with no earlier occurrence |
| JsText.IndexOfAt | packages/adapters/llm/openai.ts:8 | the first occurrence is the only position `indexOf` can give |
| JsText.LastIndexOf | packages/adapters/llm/openai.ts:9 | `lastIndexOf` gives a position holding the character with no later occurrence |
| JsText.Split | packages/plugins/emoji/lib/reservoir.ts:9 | `split` on one character gives at least one piece, and no piece holds the separator |
| JsText.SplitJoin | packages/plugins/emoji/lib/reservoir.ts:9 | joining the pieces of a split with the separator gives the text back |
| JsText.JoinSplit | packages/plugins/emoji/lib/reservoir.ts:9 | splitting pieces joined with a separator they lack gives the pieces back |
| JsText.ListSetting | packages/plugins/emoji/lib/reservoir.ts:9 | a comma-separated setting yields only non-empty entries |
| JsText.TrimmedNonEmpty | packages/plugins/emoji/lib/discover.ts:70 | the trimmed entries kept are all non-empty |
| JsText.DigitRoundTrip | packages/plugins/emoji/util/slug.ts:18 | each hexadecimal digit reads back as its value |
| JsText.Radix | packages/plugins/emoji/util/slug.ts:18 | `toString(16)` writes at least one digit |
| JsText.RadixRoundTrip | packages/plugins/emoji/util/slug.ts:18 | reading back what `toString(radix)` wrote gives the number |
| JsText.RadixInjective | packages/plugins/emoji/util/slug.ts:17-19 | distinct code points have distinct hexadecimal spellings |
| JsText.Decimal | packages/factory/distribute/index.ts:11 | a decimal spelling has at least one digit |
| JsText.RadixDigits | packages/factory/distribute/index.ts:11 | a decimal spelling holds only digits |
| JsText.NumberOfDecimal | packages/factory/distribute/index.ts:11 | `Number` of a non-negative integer's decimal spelling is that integer |
| JsText.WordRun | packages/plugins/emoji/lib/utils.ts:26 | the run of `\w` characters at the front of a text is maximal |
| JsText.Words | packages/plugins/emoji/lib/utils.ts:26 | `split(/\W+/).filter(Boolean)` yields non-empty words made only of `\w` characters |
| JsText.WordRunIs | packages/plugins/emoji/lib/utils.ts:26 | a maximal run of `\w` characters at the front is the run `WordRun` measures |
| JsText.WordsFront | packages/plugins/emoji/lib/utils.ts:26 | a maximal `\w` run at the front is the first word |
| JsText.WordsNone | packages/plugins/emoji/lib/utils.ts:26 | a text without `\w` characters has no words |
| JsText.WordsNonEmpty | packages/plugins/emoji/lib/utils.ts:26 | a text holding a `\w` character has a word |
| JsText.Round | packages/factory/extractors/emoji.ts:24 | `Math.round` gives the integer within one half of its argument, halves rounded up |
| Seqs.SubseqEmpty | packages/factory/ingest/utils.ts:66-76 | the empty list is a subsequence of any list |
| Seqs.SubseqIn | packages/factory/ingest/utils.ts:66-76 | every element of a subsequence is an element of the list |
| Seqs.Firsts | packages/factory/extractors/emoji.ts:25 | a `Set` filled from a list iterates each element once and holds exactly the list's elements |
| Seqs.FirstsSnoc | packages/factory/extractors/emoji.ts:15 | adding an element already present changes nothing, and a new one goes last |
| Seqs.FirstsBySubseq | packages/factory/ingest/utils.ts:66-76 | the kept elements are the input with some left out and the rest in order |
| Seqs.FirstsByDistinct | packages/factory/ingest/utils.ts:66-76 | no two kept elements share a key |
| Seqs.FirstsByKeys | packages/factory/ingest/utils.ts:66-76 | every key of the input is the key of a kept element |
| Seqs.FirstsByKeepsFirst | packages/factory/ingest/utils.ts:66-76 | the first element with a given key is the one kept |
| Seqs.FirstsByOfDistinct | packages/factory/ingest/utils.ts:66-76 | a list whose keys are already distinct is kept whole |
| Seqs.FirstsByIdempotent | packages/factory/ingest/utils.ts:66-76 | filtering twice keeps what filtering once kept |
| Seqs.SliceTo | packages/factory/extractors/emoji.ts:28 | `slice(0, end)` gives a prefix, of length `end` capped by the list's length when `end` is not negative |
| Seqs.SliceFrom | packages/factory/signals/history.ts:12 | `slice(start)` gives a suffix, of length `-start` capped by the list's length when `start` is negative |
| Seqs.CountIn | packages/plugins/emoji/lib/discover.ts:66 | an element is counted at least once exactly when it occurs |
| Seqs.CountAppend | packages/plugins/emoji/lib/discover.ts:63-68 | counting over two lists adds their counts |
| Seqs.CountAbsent | packages/plugins/emoji/lib/discover.ts:66 | an absent element has count zero |
| Seqs.Insert | packages/plugins/emoji/lib/discover.ts:81 | inserting adds exactly the one element |
| Seqs.InsertSorted | packages/plugins/emoji/lib/discover.ts:81 | inserting into a list sorted by key keeps it sorted |
| Seqs.SortDesc | packages/plugins/emoji/lib/discover.ts:81 | the sort by descending key is a permutation of its input and is sorted by key, largest first |
| Seqs.SortDescDistinctBy | packages/plugins/emoji/lib/discover.ts:81 | sorting keeps distinct identifiers distinct |
| Seqs.SortedCutOff | packages/plugins/emoji/lib/discover.ts:81-82 | an element left out of the first `n` after sorting ranks no higher than any kept one, and `n` are kept |
| OrderedMap.Keys | packages/plugins/emoji/lib/discover.ts:62 | a `Map`'s keys in insertion order, one per entry |
| OrderedMap.Get | packages/plugins/emoji/lib/discover.ts:66 | `get` finds a value exactly when the key is present |
| OrderedMap.GetAt | packages/plugins/emoji/lib/discover.ts:74 | each entry's value is what `get` returns for its key |
| OrderedMap.AppendFacts | packages/plugins/emoji/lib/discover.ts:66 | appending an entry with a new key adds that key last and keeps the keys distinct |
| OrderedMap.Put | packages/plugins/emoji/lib/discover.ts:66 | `set` stores the value under its key, leaves every other key's value, keeps an existing key's place and appends a new key |
| OrderedMap.Remove | packages/plugins/emoji/lib/discover.ts:71 | `delete` removes the key and leaves every other key's value |
| OrderedMap.RemoveAll | packages/plugins/emoji/lib/discover.ts:70-71 | deleting a list of keys leaves exactly the entries whose keys are not listed |
| Ports.Db.constructor | packages/core/ports.ts:31-40 | the database starts holding the given source items and posts |
| Ports.Db.Slugs | packages/core/ports.ts:39 | the set of stored slugs holds exactly the slugs `getPostBySlug` finds |
| Ports.Db.PostBySlug | packages/core/ports.ts:39 | `getPostBySlug` finds a post exactly when one has that slug, and the post found is stored and has it |
| Ports.PostWithSlug | packages/core/ports.ts:39 | a stored post with the slug is found exactly when one exists |
| Ports.Db.TopForDraft | packages/core/ports.ts:33 | the top item for a niche belongs to that niche and is stored; none is given only when the niche has no item |
| Ports.TopOf | packages/core/ports.ts:33 | the first stored item of the niche, or none when the niche has no item |
| Ports.Drafts | packages/core/ports.ts:37 | `listDrafts` yields exactly the stored posts not yet published |
| Ports.Db.CreateDraftPost | packages/core/ports.ts:34-36 | one post is appended, the items are kept, and its slug is returned |
| Ports.Db.PublishPost | packages/core/ports.ts:38 | the post with the id is marked published and nothing else changes |
| Ports.Published | packages/core/ports.ts:38 | publishing keeps every post in its place, marking only those with the id |
| Ports.PublishFacts | packages/core/ports.ts:38 | the post with the id becomes published with its other fields unchanged, and every other post is untouched |
| Ports.Db.UpsertSourceItems | packages/adapters/db/prisma-sqlite.ts:7-38 | each item of the batch, in order, replaces the stored item with its id or is appended; the posts are kept |
| Ports.Upsert | packages/adapters/db/prisma-sqlite.ts:9-36 | an upsert keeps the list's length or appends the item |
| Ports.UpsertFacts | packages/adapters/db/prisma-sqlite.ts:9-36 | after an upsert the item is stored, items of other ids are untouched, and nothing else comes in |
| Ports.Poster.constructor | packages/core/ports.ts:60-62 | a poster starts with nothing planned |
| Ports.Poster.PlanPost | packages/core/ports.ts:61 | `planPost` records exactly one planned post, after the earlier ones |
| Generate.ContentRoundTrip | packages/factory/generate/index.ts:4-10 | the page `buildContentHtml` writes holds the meaning, the origin and one list element per usage entry, in that order, and reads back to exactly them when they hold no `<` |
| Generate.ParseUsageItems | packages/factory/generate/index.ts:8 | the usage list written as `<li>` elements reads back to the entries |
| Generate.ParseItem | packages/factory/generate/index.ts:8 | one `<li>` element at the front reads back as its entry, followed by the rest of the list |
| Generate.ReadWithParts | packages/factory/generate/index.ts:5-9 | a page assembled from its fixed parts and three tag-free texts reads back to those texts |
| Generate.VersionedInjective | packages/factory/generate/index.ts:40-41 | distinct counters give distinct versioned slugs |
| Generate.BaseSlug | packages/factory/generate/index.ts:35 | the plugin's non-empty slug is used, otherwise the fallback built from the plugin name; the base slug is never empty |
| Generate.TriedCard | packages/factory/generate/index.ts:39-40 | the versioned slugs tried before `-v<i>` are `i - 2` distinct slugs |
| Generate.TriedStep | packages/factory/generate/index.ts:40 | each taken versioned slug is one more stored slug, so the search cannot run past the number of posts |
| Generate.ResolveSlug | packages/factory/generate/index.ts:35-43 | the slug returned is `SlugChoice` of the slugs in use: a base slug no post has, or whose lookup throws, is kept; otherwise the first `-v<i>` from 2 up that no post has is taken, and a lookup that throws on the way leaves the base slug |
| Generate.SearchFromLeast | packages/factory/generate/index.ts:38-42 | with no lookup throwing, the search from `-v<i>` ends at the least `k >= i` whose `-v<k>` no post has, every `-v<j>` before it being taken |
| Generate.SlugChoiceLeast | packages/factory/generate/index.ts:35-43 | with no lookup throwing, a free base slug is kept, and a taken one gives way to the least `-v<k>`, `k >= 2`, that no post has |
| Generate.Coalesce | packages/factory/generate/index.ts:28 | `x ?? d` is the default exactly for undefined and null |
| Generate.RequestOf | packages/factory/generate/index.ts:27-28 | reading the prompt's fields throws exactly for `null`; a non-object gives the item's own fields |
| Generate.DraftFor | packages/factory/generate/index.ts:23-32 | a model with `draftExplainerFromPrompt` drafts from the prompt; an unparsable prompt drafts from the item's own fields |
| Generate.DraftFromPromptFields | packages/factory/generate/index.ts:27-28 | a prompt holding term, snippets and language is passed on field for field |
| Generate.DraftRetriesWithItem | packages/factory/generate/index.ts:29-31 | when the first `draftExplainer` call throws, the retry uses the item's own fields |
| Generate.GenerateOne | packages/factory/generate/index.ts:12-56 | nothing happens without a queued item; a draft or render failure is thrown before anything is stored; otherwise exactly one draft post is created, in the plugin's niche, with the renderer's key and the slug `SlugChoice` picks from the slugs in use before the call (so, when no lookup throws, the base or the least free `-v<k>`); that slug is returned |
| Distribute.StripSlash | packages/factory/distribute/index.ts:23 | at most one trailing `/` is removed, and one is removed exactly when the base ends with it |
| Distribute.JoinUrl | packages/factory/distribute/index.ts:22-24 | the URL ends with the path and begins with the base less at most one trailing `/`; a base without one is kept whole |
| Distribute.OneSlashOnly | packages/factory/distribute/index.ts:23 | a base ending in `//` keeps one of them |
| Distribute.TrailingSlashIgnored | packages/factory/distribute/index.ts:22-24 | a base with or without its trailing `/` gives the same URL |
| Distribute.SinceOf | packages/factory/distribute/index.ts:11 | the window is the option given, else the environment value if non-empty, else 1440 minutes |
| Distribute.SinceFromEnv | packages/factory/distribute/index.ts:11 | an environment value written as a decimal number of minutes is that number |
| Distribute.PlatformOf | packages/factory/distribute/index.ts:12 | the platform is the one given when non-empty, else `twitter`; never empty |
| Distribute.MediaKey | packages/factory/distribute/index.ts:17 | an absent or empty card key is sent as absent, any other as it is |
| Distribute.PlanFor | packages/factory/distribute/index.ts:15-17 | a post is planned on the platform with its URL under the site origin, the trimmed title and URL as its text, and its card key |
| Distribute.PlanTextUntrimmed | packages/factory/distribute/index.ts:16 | a title and slug without surrounding white space give the text title, space, URL |
| Distribute.Plans | packages/factory/distribute/index.ts:14-18 | one plan per listed post, in listing order |
| Distribute.SlugsOf | packages/factory/distribute/index.ts:19 | the listed posts' slugs in the same order |
| Distribute.DistributeRecent | packages/factory/distribute/index.ts:3-20 | one `planPost` per post published within the window, in listing order, after the earlier plans, and the posts' slugs returned in that order |
| DistributeEvents.DropCr | apps/worker/distribute-events.ts:14 | at most one `\r` is dropped from the end of a piece |
| DistributeEvents.Pieces | apps/worker/distribute-events.ts:14 | `split(/\r?\n/)` gives at least one piece, and no piece holds `\n` |
| DistributeEvents.NonEmpty | apps/worker/distribute-events.ts:14 | `filter(Boolean)` keeps the non-empty pieces, in order, and keeps a list without empty pieces whole |
| DistributeEvents.LinesOf | apps/worker/distribute-events.ts:11-18 | the log's lines are non-empty and hold no `\n`; an unreadable log has none |
| DistributeEvents.PiecesOfParts | apps/worker/distribute-events.ts:14 | splitting on `/\r?\n/` is splitting on `\n` and dropping the `\r` before each break |
| DistributeEvents.PiecesOfJoin | apps/worker/distribute-events.ts:14 | pieces joined with `\n` split back into those pieces, less the `\r` before each break |
| DistributeEvents.JoinCrLf | apps/worker/distribute-events.ts:14 | joining with `\r\n` is joining with `\n` after ending every line but the last with `\r` |
| DistributeEvents.LinesRoundTrip | apps/worker/distribute-events.ts:11-18 | non-empty lines joined with `\n` read back as those lines |
| DistributeEvents.CrLfRoundTrip | apps/worker/distribute-events.ts:11-18 | non-empty lines joined with `\r\n` read back as those lines |
| DistributeEvents.OriginOf | apps/worker/distribute-events.ts:40 | the site origin is the environment value when non-empty, else the local default |
| DistributeEvents.PlanOfMatchesDistribute | apps/worker/distribute-events.ts:48-50 | an event's post is planned with the URL, card key and platform `distributeRecent` would use, and a text that trims to its text |
| DistributeEvents.ReplaySnoc | apps/worker/distribute-events.ts:42-53 | the loop over one more line is one more step |
| DistributeEvents.MissingPostMarked | apps/worker/distribute-events.ts:47 | an event whose post is missing is marked as processed and nothing is planned for it |
| DistributeEvents.ReplayGrows | apps/worker/distribute-events.ts:42-53 | the ledger only gains entries: keys stay, marked ids stay marked, and earlier plans stay in place |
| DistributeEvents.ReplayMarks | apps/worker/distribute-events.ts:44-51 | after a run an id is marked exactly when it was marked before or some line is an event with it; unparsable and falsy lines mark nothing |
| DistributeEvents.ReplayPlansOnce | apps/worker/distribute-events.ts:45-51 | every plan of a run is for an id unmarked before and marked after, and no id is planned twice in a run |
| DistributeEvents.NoReplanAcrossRuns | apps/worker/distribute-events.ts:37-54 | a second run from the ledger a first run saved plans no id the first run planned |
| DistributeEvents.ParseAll | apps/worker/distribute-events.ts:44 | each line is parsed on its own, in order |
| DistributeEvents.PlansOfSnoc | apps/worker/distribute-events.ts:50 | one more plan recorded is one more post planned |
| DistributeEvents.ProcessEvents | apps/worker/distribute-events.ts:42-53 | the loop ends with the ledger and plans the replay describes, and hands exactly those plans to the poster, in order |
| DistributeEvents.ProcessOnce | apps/worker/distribute-events.ts:33-55 | the plans of the replay over the log's parsed lines go to the poster in order, and the final ledger is written to the state file once |
| TasksWatch.KindOf | apps/worker/tasks-watch.ts:37 | a falsy type is the empty string, and a string type is kept |
| TasksWatch.PayloadOf | apps/worker/tasks-watch.ts:38 | a truthy payload is kept, and a falsy one becomes `{}` |
| TasksWatch.Prop | apps/worker/tasks-watch.ts:42-43 | a payload property is present exactly when the payload is an object holding it |
| TasksWatch.NumberOfJson | apps/worker/tasks-watch.ts:43 | `Number` of a JSON string or number converts its text |
| TasksWatch.NumberOfJsonDecimal | apps/worker/tasks-watch.ts:43 | a JSON number or string spelling a decimal integer converts to it |
| TasksWatch.NumberOr | apps/worker/tasks-watch.ts:43 | a truthy value is converted with `Number`, and a falsy one gives the default |
| TasksWatch.Max1 | apps/worker/tasks-watch.ts:49 | `Math.max(1, n)` is NaN exactly for NaN, and otherwise at least 1: `n` itself, or 1 when `n` is below 1 |
| TasksWatch.Ceil | apps/worker/tasks-watch.ts:50 | the least integer at or above a value |
| TasksWatch.Iterations | apps/worker/tasks-watch.ts:50 | the counting loop runs the least number of times not below `n`, never for NaN or a count at or below 0 |
| TasksWatch.SliceEnd | apps/worker/tasks-watch.ts:58 | `slice(0, n)` ends at 0 for NaN and at `n` truncated for a non-negative `n` |
| TasksWatch.EmptyPayloadDefaults | apps/worker/tasks-watch.ts:43-60 | an empty payload ingests 10 items, generates once, publishes one draft and distributes the last 1440 minutes |
| TasksWatch.GenerateRuns | apps/worker/tasks-watch.ts:49-50 | a numeric `count` of `n` runs `generateOne` `n` times, and at least once |
| TasksWatch.PublishCount | apps/worker/tasks-watch.ts:56-58 | a numeric `limit` of `n` publishes the first `n` drafts, and at least one |
| TasksWatch.Ingest | apps/worker/tasks-watch.ts:40-47 | the ingest succeeds exactly when discovery and validation do, and then upserts the valid first item of each id; otherwise nothing is stored |
| TasksWatch.GenerateMany | apps/worker/tasks-watch.ts:48-54 | each run stores one draft of the plugin's niche after the earlier posts; without a queued item nothing is made; a full run makes `count` drafts, and a failure stops early |
| TasksWatch.PublishAll | apps/worker/tasks-watch.ts:58 | publishing ids in turn keeps every post in its place |
| TasksWatch.PublishAllFacts | apps/worker/tasks-watch.ts:58 | a post whose id was published is published with its other fields unchanged, and every other post is as it was |
| TasksWatch.IdsOf | apps/worker/tasks-watch.ts:58 | the drafts' ids, in order |
| TasksWatch.PublishTop | apps/worker/tasks-watch.ts:55-58 | the first `limit` drafts of the listing are published, one by one, and the items are kept |
| TasksWatch.PublishLoop | apps/worker/tasks-watch.ts:58 | `publishPost` is called once for each id, in order, and the items are kept |
| TasksWatch.Dispatch | apps/worker/tasks-watch.ts:39-68 | the handler's effect on items, posts and plans, per type: an ingest stores the validated batch exactly when discovery and validation succeed, else nothing; a generate only appends drafts of the niche, `count` of them unless it threw or the niche is empty; publishTop publishes the first `limit` drafts; distributeRecent plans the listed posts; `ok` is false only when the handler threw; an unknown type changes nothing |
| TasksWatch.SucceededSnoc | apps/worker/tasks-watch.ts:33-69 | a task succeeded in one more line exactly when it did before or in that line |
| TasksWatch.LedgerMarks | apps/worker/tasks-watch.ts:36-65 | after a run an id is marked exactly when it was before or some task with it succeeded; other keys were there before |
| TasksWatch.LedgerGrows | apps/worker/tasks-watch.ts:33-69 | the ledger only gains entries, and a marked id stays marked |
| TasksWatch.LedgerSnoc | apps/worker/tasks-watch.ts:33-69 | the loop over one more line is one more mark |
| TasksWatch.ParseTasks | apps/worker/tasks-watch.ts:35 | each line is parsed on its own, in order |
| TasksWatch.HandleLine | apps/worker/tasks-watch.ts:34-68 | an unparsable, falsy or already-marked line changes no item, post or plan and is not a failure; any other line's task runs through Dispatch's handlers, `ok` is that handler's outcome, and the task is marked exactly when it succeeded |
| TasksWatch.ProcessTasks | apps/worker/tasks-watch.ts:33-69 | the loop is a run: each line, from the ledger and world before it, steps as HandleLine says (skipped lines change nothing, others as their handler did, `oks[i]` being that handler's outcome); the world before and after the run are the database and poster before and after the call; the ledger ends as the successes describe; tasks that cannot fail succeed |
| TasksWatch.ProcessOnce | apps/worker/tasks-watch.ts:26-71 | the log's lines, parsed, run from the saved ledger (or `{}`), each changing items, posts and plans as its handler did; the ledger the run ends with is written to the state file once; every task that cannot fail is marked |
| TasksWatch.RunSnoc | apps/worker/tasks-watch.ts:33-69 | a run extended by one line that steps from its last ledger and world is a run |
| TasksWatch.RunLedger | apps/worker/tasks-watch.ts:36-65 | the ledger a run reaches after `k` lines is the ledger LedgerOf computes from those lines' outcomes |
| TasksWatch.RunAt | apps/worker/tasks-watch.ts:34-68 | each line of a worker run steps as HandleLine promises |
| TasksWatch.RunMustSucceed | apps/worker/tasks-watch.ts:55-65 | in a worker run, every line holding a publishTop, distributeRecent or unknown-type task succeeded |
| TasksWatch.MustStep | apps/worker/tasks-watch.ts:55-65 | a line whose task cannot fail has a successful outcome |
| TasksWatch.SkipStep | apps/worker/tasks-watch.ts:35-36 | a skipped line leaves the ledger and the items, posts and plans unchanged |
| TasksWatch.SkippedAt | apps/worker/tasks-watch.ts:35-36 | a skipped line of a run leaves the ledger and the world as they were |
| TasksWatch.SkippedPrefix | apps/worker/tasks-watch.ts:33-36 | in a run whose lines are all skipped from the start, no prefix changes the ledger or the world |
| TasksWatch.SecondRunIdle | apps/worker/tasks-watch.ts:36-65 | re-reading the same log after a run in which every task was marked or succeeded runs no handler: items, posts, plans and ledger stay as they were |
| TasksWatch.StepOfHolds | apps/worker/tasks-watch.ts:34-68 | a line that steps as HandleLine says satisfies the worker's step relation |
| MemoryQueue.PutFacts | packages/adapters/queue/memory.ts:7-11 | `enqueue` appends exactly one entry, keeps the handlers, and calls the registered handler once with the payload exactly when there is one |
| MemoryQueue.RegisterFacts | packages/adapters/queue/memory.ts:12-14 | `process` replaces the handler for its name only, and calls nothing |
| MemoryQueue.QueueKeepsOrder | packages/adapters/queue/memory.ts:3-11 | the queue never shrinks: it is what it was, then every enqueued entry in enqueue order |
| MemoryQueue.CallsToSnoc | packages/adapters/queue/memory.ts:9-10 | one more call recorded is one more call for its name |
| MemoryQueue.Handed | packages/adapters/queue/memory.ts:10 | the payloads handed to a handler, one call each, in order |
| MemoryQueue.LateStep | packages/adapters/queue/memory.ts:7-14 | after a handler is registered, each further job of its name is one more call to it |
| MemoryQueue.LateHandler | packages/adapters/queue/memory.ts:7-14 | a handler receives no job enqueued before it was registered and, until replaced, every later job of its name, once each and in enqueue order |
| MemoryQueue.Queue.constructor | packages/adapters/queue/memory.ts:3-4 | the queue and the handler table start empty |
| MemoryQueue.Queue.Enqueue | packages/adapters/queue/memory.ts:7-11 | `enqueue` changes the queue's state exactly as the operation model says |
| MemoryQueue.Queue.Process | packages/adapters/queue/memory.ts:12-14 | `process` changes the queue's state exactly as the operation model says |
| Reservoir.SplitDefaultProviders | packages/plugins/emoji/lib/reservoir.ts:9 | the default setting `reddit,hn` splits into `reddit` and `hn` |
| Reservoir.TrimmedDefaultNames | packages/plugins/emoji/lib/reservoir.ts:9 | trimming and filtering leave those two names as they are |
| Reservoir.DispatchDefaultNames | packages/plugins/emoji/lib/reservoir.ts:11-20 | the names `reddit` and `hn` start the Reddit task and then the Hacker News task |
| Discover.TextSkip | packages/plugins/emoji/lib/discover.ts:65 | a stoplisted emoji adds nothing to the matches |
| Discover.TextKeep | packages/plugins/emoji/lib/discover.ts:64-66 | any other emoji is one more match, after the earlier ones |
| EmojiExtractor.CandidateOfCounter | packages/factory/extractors/emoji.ts:22-26 | a candidate carries its emoji, the term `<emoji> emoji meaning`, the penalized score and at most three distinct evidence URLs |
| AcronymsPlugin.KeptSampleFromRows | packages/plugins/acronyms/index.ts:29-31 | every kept sample is the text and URL of a row in which the term was found |
| AcronymsPlugin.RankedSample | packages/plugins/acronyms/index.ts:36 | every sample of a ranked term comes from a row holding that term |
| AcronymsPlugin.TotalBound | packages/plugins/acronyms/index.ts:31 | with at most three samples per term, the terms together hold at most three times as many samples as terms |
| AcronymsPlugin.PickedIn | packages/plugins/acronyms/index.ts:37 | every picked term is a ranked term |
| Score.RoundMonotone | packages/factory/signals/score.ts:26 | rounding never reverses an order |
| Og.EntitySafe | packages/lib/render/og.ts:37-41 | the escape of any one character holds none of `< > " '` |
| Og.DecodeEach | packages/lib/render/og.ts:37-41 | decoding undoes the per-character escape for any table of distinct `&`-led entities |

## Left out

- Provider fetchers and the live Twitter pagination. The Reddit, HN, trends, YouTube, RSS and news clients, the Twitter clients and packages/plugins/emoji/lib/discover.ts:20-58 are network clients. A provider is a function from the dispatched provider to a settled outcome, and the live branch of `discoverTopEmojis` is not modelled.
- Unicode emoji detection. The `\p{Emoji_Presentation}|\p{Extended_Pictographic}` regex depends on Unicode property tables, so each module that uses it takes it as the tokenizer parameter (`extract`, `matchEmoji`).
- The `EVERGREEN`, `COMMON_STOPLIST` and emoji slug tables are stored mis-encoded in the source. Each is a parameter set or map, so the model states exactly what membership in the table does.
- Floating point. The scores are `real` and `Math.round` is a half-up rounding. The novelty `Math.exp(-d / week)` is the parameter `decay`, assumed to lie in [0, 1] for a non-negative age. IEEE rounding is not modelled.
- Jitter and the delay of `retry` are random timing. Only the attempt count is modelled.
- Text. Lengths count code points, whereas JavaScript counts UTF-16 code units. `toLowerCase` is ASCII lower-casing. Unicode normalisation is not modelled.
- `Number(string)` is modelled for an optionally signed decimal integer with surrounding white space. Every other syntax (fractions, exponents, hex, `Infinity`) is not modelled and reads as NaN.
- `JSON.parse` is a parameter that gives a JSON value or nothing. `JSON.stringify`'s text is not modelled beyond a round-trip of the values the model writes.
- An invalid date from `new Date(created_at)` is whatever the `parseDate` parameter returns.
- SHA-1 `hashId` and the base64 URL part of the acronyms plugin's item ids are the parameter `encode`. Distinct ids follow from the term and the index in the id, whatever `encode` gives.
- The zod schemas of packages/core/ports.ts are validity predicates. Their error messages are not modelled.
- Prisma and the SQLite adapter. The database is an in-memory object. The order `queueTopNForDraft` gets from its `orderBy` (likes, shares, comments, first seen, all descending) is the stored order of `items`.
- Ports.Db.CreateDraftPost: appends the post. The SQLite adapter returns the existing post when the slug is taken. `generateOne` asks for a free slug, so the two differ only when a slug lookup throws and the base slug is already taken.
- `listPublishedSince` depends on publication times and the clock. It is the parameter `listing`.
- The OpenAI requests, the API-key and environment checks, the prompt texts and the text of the `LLM_QUOTA` message are not modelled. The adapter's pure part takes the reply's content or the failure as input.
- The wording of the error that normalizing a reply throws (the engine's message for a property written on a primitive, the validator's report after the `OpenAI JSON failed schema: ` prefix) is the parameter `text` of OpenAi.Draft.
- TasksWatch.Dispatch: a generate task's new posts are stated by number, niche and draft status. Their slugs and content, which GenerateOne states for one call, are not carried into the worker's contract.
- The renderer's SVG-to-PNG step (sharp) and the file it writes are not modelled. The card's text is.
- Filesystem effects. Each JSON document is one entry of a map. Partial writes, `mkdir` and its failures, and a write that fails are not modelled.
- Document shapes. Each JSON document that parses is taken to hold a value of its store's type: an object of the expected shape, and a ledger whose values are booleans. A document that parses to something else (`null`, a number, an array) is not modelled, and neither is the behaviour that follows from it:
- TtlCache.WriteHealth: the health file holding `null` makes the key assignment throw (packages/plugins/emoji/lib/cache.ts:31). The outer catch swallows it (cache.ts:33) and nothing is written; the model writes the new key.
- EmojiLru.Loaded: emoji-lru.json holding `null` leaves the memory copy `null` (packages/plugins/emoji/store/emojiCache.ts:11), and the lookup at emojiCache.ts:26 throws; the model loads `{}`.
- History.UpdateHistory: history.json holding `null` makes the lookup throw (packages/factory/signals/history.ts:12) and nothing is written; the model writes the term's series.
- DistributeEvents.ProcessOnce and TasksWatch.ProcessOnce: a ledger holding `null` makes the first lookup throw (apps/worker/distribute-events.ts:45, apps/worker/tasks-watch.ts:36), so the worker exits without writing. A ledger value other than `true` that is truthy (`1`, `{"a": 1}`) marks its id in the source; the model's ledger holds booleans only.
- Concurrency. `Promise.allSettled` in the reservoir, `Promise.all` and the worker pool are sequential in the model. Console logging is not modelled.
- In `generateOne`, the handler effects and ids are parameters. The new post's id is the parameter `newId` of GenerateOne. The admin worker's ids come from the parameter `mint` of TasksWatch.Services.
- The admin worker runs the handlers for ingest, generate, publish and distribute through the models of those operations. The side effects of the emoji plugin's `discover` are not modelled.
- The ids of the payloads the workers parse are assumed to be strings. A payload that is not an object has no properties.
- The watch loop and its sleep around `processOnce` are not modelled. One call of `processOnce` is.
- The module-level state of the memory queue is one `Queue` object. The effects of the handlers it calls are recorded as deliveries, not run.
- The key of a lookup table that is a property of `Object.prototype` (`constructor`, `toString`) is not modelled.
- Default arguments are explicit parameters in the model: the `Breaker` threshold (3 by default, packages/factory/util/breaker.ts:3), the amount `consume` takes (1 by default, packages/factory/util/budget.ts:6) and `topN` of the two extractors (20 by default).
- EmojiExtractor.TopNComplete: states that the count is exactly `topN` only for `topN >= 0`. `slice(0, topN)` with a negative `topN` drops entries from the end, and only the score bound is stated for that case.
- AcronymExtractor.TopNComplete: states that the count is exactly `topN` only for `topN >= 0`, for the same reason.

## Findings

| source | as written | input that shows it | evidently intended | confidence | as-written member | corrected member |
|---|---|---|---|---|---|---|
| packages/lib/render/og.ts:33 | `truncate` appends a three-character suffix (the mis-encoded bytes of an ellipsis) after `n - 1` characters, so the result has `n + 2` characters | a title of 101 characters is cut to 102 characters, longer than the 100 allowed | a single U+2026 ellipsis, so the result has exactly `n` characters | not executed | Og.TruncateOverflows | Og.Truncate |
