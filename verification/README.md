# Semantic answer cache — Dafny model

This project models the core of a browser extension that remembers earlier
prompts and answers to a chat assistant and reuses them. It has two parts.

- The background worker (`src/background.js`) keeps an ordered cache of
  `{prompt, answer, embedding, timestamp}` records. The cache holds at most 100
  records, and the oldest ones are evicted first. For a new prompt, the worker
  scans the cache for the record most similar to the prompt's embedding. It
  reports that record only when its similarity is strictly above 0.92.
- The content script (`src/content.js`) decides when to send those requests.
  It searches once the trimmed prompt has at least 25 characters. It watches
  for an answer after a plain Enter, and caches answers longer than 10
  characters. It also builds the strings a match notification holds and decides which file
  actions a dropped file is offered.

Modules, leaf first:

- `Wrappers`: `Option`, standing for the source's `null`.
- `CacheStore`: `Entry`, the cache as `seq<Entry>`, and eviction followed by
  append (`Insert`). Lemmas cover FIFO behaviour and capacity.
- `SimilaritySearch`: the scan (`Scan`, a left fold with a running maximum
  that starts at -1 and is updated only on a strictly greater score) and the
  threshold (`Search`). Similarity is an abstract function
  `(Embedding, Embedding) -> real`.
- `Background`: `searchCache` and `cachePrompt` as callers see them, where a
  model failure becomes "no match" or "cache unchanged". Also the
  `onMessage` dispatch and runs of requests.
- `TextUtil`: JavaScript `trim` and `truncateText`.
- `Content`: the content script's gates, the notification text and the file
  options.

Behaviour of the code that the model keeps:

- Every failure inside `searchCache` and `cachePrompt` is caught and
  logged. A caller sees null or an unchanged cache, and a cache request is
  still answered `{success: true}`.
- The scan starts its running maximum at -1, so a cache whose scores are
  all at most -1 has no best record (and is below the threshold anyway).
- The threshold is the double nearest to 0.92, written out exactly, so a
  real-valued comparison agrees with the double comparison for every
  double score.

Parameters stand in for the outside world:

- Storage is the cache value passed in and returned.
- The embedding model is a function `string -> Option<Embedding>`. `None`
  means loading or running the model threw.
- `Date.now()` is the parameter `now`.

## Model

| member | source | states |
|---|---|---|
| CacheStore.Insert | src/background.js:80-91 | after an insertion the cache is exactly the last 100 records of (the old records followed by the new one), in their original order |
| CacheStore.Evict | src/background.js:81-84 | eviction leaves fewer than 100 records, a contiguous suffix of the old cache; nothing goes when there were fewer than 100; exactly 99 remain when there were 100 or more |
| CacheStore.InsertShape | src/background.js:81-91 | the new record is last; length is at most 100 whatever the old length; the records before it are a contiguous suffix of the old cache; below capacity nothing is removed; at or above capacity exactly the oldest length - 99 records are dropped |
| CacheStore.InsertAllKeepsMostRecent | src/background.js:81-91 | after one or more insertions into any cache, the cache is the last 100 records of (the old records followed by everything inserted), in insertion order (FIFO, not LRU) |
| CacheStore.CapacityInvariant | src/background.js:81-84 | no sequence of insertions takes a cache of at most 100 records beyond 100 |
| CacheStore.FifoEviction | src/background.js:82-86 | inserting 101 distinct records into an empty cache keeps the last 100 in order, and the first one is absent |
| SimilaritySearch.Scan | src/background.js:47-56 | the running maximum is at least -1 and at least every record's score; a best record exists if and only if some score is strictly above -1, and without one the maximum stays -1; a best record is the first record holding the maximum score, and the maximum is its score |
| SimilaritySearch.Search | src/background.js:47-62 | an empty cache gives no match; a match is returned if and only if some record scores strictly above 0.92; the match is the earliest record of highest score, reported with its own score |
| SimilaritySearch.FirstBestUnique | src/background.js:50-56 | the earliest position of highest score is unique, so ties are resolved one way only |
| SimilaritySearch.SearchIsDetermined | src/background.js:47-62 | any answer that fits the description "earliest best record when its score is above 0.92, else none" equals the one the search gives |
| SimilaritySearch.ThresholdIsStrict | src/background.js:59-62 | a lone record scoring exactly 0.92 is not a match; one scoring above 0.92 is returned with its score |
| SimilaritySearch.TieGoesToEarliest | src/background.js:52-55 | of two records with the same winning score, the earlier one is returned |
| SimilaritySearch.ScenarioBestOfThree | src/background.js:47-62 | records scoring 0.80, 0.95 and 0.93 in that order yield the second one with similarity 0.95 |
| SimilaritySearch.SearchFindsNewBest | src/background.js:50-91 | a record that scores above 0.92 and above every stored record is the match found right after it is inserted |
| Background.SearchCache | src/background.js:35-67 | an empty cache, or a failing model, gives no match; a match is a cache member, scores above 0.92, and scores at least as high as every record; otherwise it is the thresholded best match for the prompt's embedding |
| Background.CachePrompt | src/background.js:69-98 | a failing model leaves the cache unchanged; otherwise the cache becomes the last 100 records of (the old records followed by the new timestamped record); a cache within capacity stays within it |
| Background.OnMessage | src/background.js:17-33 | no response exactly for unknown actions; success exactly for cache requests; a search result exactly for search requests; an error response carries the thrown message; only a cache request with a working model changes the cache |
| Background.RunInsertsRecorded | src/background.js:20-26 | handling a run of requests one at a time equals inserting, in order, the records of its successful cache requests and nothing else |
| Background.RunKeepsMostRecent | src/background.js:20-91 | after a run that stores something, handled one request at a time, the cache is the last 100 records of (the old records followed by the stored ones) |
| Background.RunKeepsCapacity | src/background.js:17-33 | any run of requests keeps a cache within capacity within it |
| Background.RecallAfterCaching | src/background.js:35-91 | after caching a prompt whose self-similarity clears 0.92, searching for the same text finds a match at least that similar |
| TextUtil.TrimStart | src/content.js:52 | the result is a suffix of the input; everything removed is whitespace; the result does not start with whitespace |
| TextUtil.TrimEnd | src/content.js:52 | the result is a prefix of the input; everything removed is whitespace; the result does not end with whitespace |
| TextUtil.Trim | src/content.js:107 | the result is a contiguous slice with only whitespace cut on either side, and it neither starts nor ends with whitespace |
| TextUtil.TrimIdempotent | src/content.js:107 | trimming a trimmed string changes nothing |
| TextUtil.TruncateText | src/content.js:447-449 | a text no longer than the limit is returned unchanged; a longer one becomes limit + 3 characters ending in "..."; the result always begins with the first min(length, limit) characters of the text |
| TextUtil.TruncateBound | src/content.js:448 | a truncated text is never longer than the limit plus three |
| TextUtil.TruncateIdempotent | src/content.js:447-449 | truncating twice with one limit is truncating once |
| Content.TypingSearch | src/content.js:50-73 | a search message is sent if and only if the trimmed text has 25 or more characters, and it carries the trimmed text |
| Content.SendKey | src/content.js:105-115 | watching for an answer starts if and only if the key is Enter, Shift is not held and the trimmed prompt is not empty; the prompt watched for is the trimmed text |
| Content.CacheRequest | src/content.js:158-175 | a cache message is sent if and only if the last answer element exists and its text (text content, else inner text) has more than 10 characters; a long earlier answer does not count; the message carries the prompt and that text |
| Content.MatchNotice | src/content.js:205-214 | a notice appears exactly when the search reply carries a match (line 80); the notice's prompt string is the prompt's first 100 characters followed by "..." when it is longer than 100, its answer string the answer's first 200 followed by "..." when longer than 200, and either is unchanged when short enough |
| Content.FileOptions | src/content.js:272-278 | upload is always offered, last; compress is offered if and only if the type starts with "image/"; extract if and only if the type is "application/pdf"; the order is the modal's |
| Content.NeverCompressAndExtract | src/content.js:272-276 | no type is offered both compression and extraction |
| Content.OnDrop | src/content.js:235-247 | a modal appears exactly when a file was dropped; it offers the first file's options in the modal's order, upload last |
| Content.CachedAnswerIsStored | src/content.js:163-172 | a cache message for an answer, handled by the worker with a working model, is answered with success and stores the prompt with that answer as the newest record, its answer longer than 10 characters |
| Content.NoticeIffMatch | src/content.js:70-82 | after a typed search, a notice appears if and only if the worker's search for the sent text finds a match |
| Content.ParseAction | src/content.js:299-311 | a recognised data-action value selects the action whose button carries that value; any other value selects nothing |
| Content.ParseActionName | src/content.js:273-278 | every offered button selects its own action |
| Content.SearchedTextIsCachedPrompt | src/content.js:105-108 | a text long enough to be searched for is, on a plain Enter, the prompt that gets cached |

## Left out

- The embedding pipeline singleton (src/background.js:4-15) is a foreign library. It becomes the `embed` parameter, and `None` stands for any exception it throws.
- `cos_sim` over IEEE doubles is a foreign library. It becomes the abstract `sim`. Dimension checks happen inside the library and are not modelled.
- SimilaritySearch.Search: scores are mathematical reals, so NaN scores, which never win a `>` comparison, are not modelled.
- Content.MatchNotice: states the strings that are built, not what appears on screen. The source interpolates them into `innerHTML` without escaping (src/content.js:197-220), so markup in a cached prompt or answer is parsed as HTML rather than shown as text, and a cut at 100 or 200 characters can fall inside a tag. HTML rendering is not modelled.
- Background.RunInsertsRecorded: assumes each request is handled to completion before the next starts. The listener starts each handler as a detached async function, so two overlapping `cachePrompt` calls can both read the stored array before either writes it, and the later write then drops the other's record. Records are also stored in the order their embeddings finish, not the order requests arrive. Interleaved reads and writes are not modelled.
- Background.RunKeepsMostRecent: makes the same one-request-at-a-time assumption. Under the lost-update race above, the cache need not hold the most recent 100 of everything stored. RunKeepsCapacity does not depend on this assumption, since every write is built from a read of at most 100 records.
- Background.SearchCache: the model pipeline is loaded before the empty-cache check in the source. Both failure and an empty cache yield null, so only the order of effects differs, and effects are not modelled.
- Storage reads and writes (`chrome.storage.local`) and their failures are I/O. The cache is a value, and a failed write is not modelled separately from a failed embedding.
- `Date.now()` is a clock and becomes the parameter `now`.
- Messaging (`sendMessage`, `sendResponse`, the async wrapper) is transport. Requests and responses are datatypes, and fields a sender omits are empty strings.
- The DOM work is browser glue: the mutation observer that detects a finished answer (the stop-button check and the `.markdown` test), notification and modal rendering, event wiring, `init` with its retry, SPA re-initialisation and the one-second debounce timer.
- `formatFileSize` and the similarity percentage (src/content.js:195, 451-457) are floating-point formatting.
- Image compression, PDF text extraction and pasting a file into the chat are external libraries and browser APIs. Only the choice of action is modelled.
- TypingSearch: JavaScript lengths count UTF-16 code units, while the model counts characters, so a prompt with characters outside the Basic Multilingual Plane is measured shorter here.
- SendKey: `trim` is modelled on characters; the same UTF-16 remark applies.
- CacheRequest: counts characters rather than UTF-16 code units, and a null `textContent` is not modelled.
- TextUtil.TruncateText: cuts after a number of characters, not UTF-16 code units, so it cannot split a surrogate pair as `substring` can.
- A persisted round trip of the cache is not modelled. The source stores the array through the browser's storage API and has no encoding of its own.
- `dist/assets/content.js-CJaxxf0s.js` is a generated copy of the content script plus a module preloader. `vite.config.js` and `manifest.js` are build configuration.
