# RSS translator proxy — a Dafny model of its translation core

The proxy answers `GET /feed?url=…&lang=…`: it fetches a syndication feed,
translates its human-readable fields with DeepL and returns the result as
RSS. This project models the part of `main.py` where decisions are made:

- **getTranslation** — the truncation policy applied before a text is sent
  (the shorter of "the first two sentences" and "the first 500
  characters", with a ` [...]` marker when something was cut), the
  best-effort provider call that falls back to the original text, and the
  memoisation of results by `(text, target_lang)`.
- **get_feed** — request validation (missing `url`, malformed feed), the
  target-language default and upper-casing, and the assembly of the output
  feed: defaults for titles and descriptions, the translated title standing
  in for a blank translated description, guid/id falling back to the link,
  author and pubDate set only when present.

Modules, one per concern:

- `options.dfy` — `Option`, for the keys a parsed feed may or may not carry.
- `text.dfy` — Python's whitespace class (the `str.isspace` set, which is
  also what `\s` matches and `strip()` removes), `lstrip`/`rstrip`/`strip`,
  and ASCII `upper`.
- `truncation.dfy` — `re.split(r'(?<=[.?!])\s+', s)` modelled as a scan
  that returns each piece with the whitespace run removed after it,
  characterised by a round-trip lemma and a shape predicate; then the
  two-sentence join, the 500-character head, the excerpt and the marker.
- `translation.dfy` — the DeepL client as a class whose answers come from an
  arbitrary oracle of (request number, request) and which logs every
  request; the uncached body of getTranslation; the memo cache as a class
  holding a `map` from `(text, target_lang)` to results, with a ghost log of
  the key each request was made for. Its invariant `Valid` ties every cached
  value to the request log: a blank text is cached as itself, any other text
  holds what the provider answered to the request for its excerpt (or the
  text itself when that failed). `Grew` relates two moments of the cache:
  nothing cached changed, and every request in between was for a key that
  was missing. `NewRequests` gives, for a run of getTranslation calls, the
  keys requested, in call order: a cached key requests nothing, a blank
  one is cached without a request, any other is requested once.
- `proxy.dfy` — the parsed-feed and generated-feed datatypes, the handler's
  response as a pure function `Respond` of the request, the fetch/parse
  result, the HTML stripper and the cache contents, and the imperative
  `GetFeed` whose loop over the entries is proved to return exactly
  `Respond` for the cache it leaves behind, with the cache gaining exactly
  the keys the feed needs and the provider receiving the requests of
  `NewRequests` for the feed's calls (channel title, channel description,
  then title, description and author of each entry in source order).

External collaborators are parameters: the fetch-and-parse result
(`FetchResult`), the HTML-to-text function `getText(html, separator)`
standing for `BeautifulSoup(html).get_text(separator, strip=True)`, and
the provider's `oracle`.

Facts about `main.py` that shape the model:

- `main.py` has one provider, DeepL, and its cache keys carry no provider.
- `@cache.memoize()` wraps the whole function. Blank inputs are therefore
  cached too, under themselves (`TranslationCache.GetTranslation`,
  `TranslationCache.ValidKeepsBlank`).
- The cache key is the original text, not the truncated one.
- The marker can make the text sent longer than the input. A 501-character
  text without a sentence break is sent as 500 characters plus ` [...]`, 506
  in all (`MarkerCanLengthen`), so the text sent is not always shorter than
  the input.
- Truncation is not idempotent. The marker starts with a space, so it can
  add a sentence break. Take `"A.  "`, then 495 `B`, then `".CCC"` (503
  characters). It is sent as its first 500 characters plus ` [...]`.
  Truncating that again finds a break after the `.` at index 499, so it
  gives `"A. "`, 495 `B`, `"."` and the marker: the double space has become
  one.
- `fg.add_entry()` inserts at the front by default (feedgen's
  `order='prepend'`), so the generated feed lists the items in reverse
  source order, while the translations are requested in source order
  (`BuildItems`, `BuildItemsAt`, `TranslateItems`).
- Only the fetch failure leads to 500 in the model. No other exception in
  the assembly is modelled.

## Model

| member | source | states |
|---|---|---|
| Text.TrimStartSpec | main.py:33 | `lstrip` keeps a suffix that does not start with whitespace, and everything it removes is whitespace |
| Text.TrimEndSpec | main.py:33 | `rstrip` keeps a prefix that does not end with whitespace, and everything it removes is whitespace |
| Text.Strip | main.py:33 | `strip()` returns a text no longer than its input that neither starts nor ends with whitespace |
| Text.StripEmptyIffBlank | main.py:33-34 | `not s.strip()` holds exactly when every character of `s` is whitespace (the empty string included) |
| Text.Upper | main.py:68 | same length; no lower-case ASCII letter remains; lower-case letters move by 32 code points; every other character is unchanged |
| Truncation.GapEnd | main.py:39 | `\s+` is greedy: the run it matches is all whitespace and is followed by a non-space or the end |
| Truncation.Split | main.py:39 | `re.split` always returns at least one piece |
| Truncation.Sentences | main.py:39 | the split returns one piece per segment of the scan |
| Truncation.SegmentsFromCharacterised | main.py:39 | the regex scan from any position produces a well-shaped split whose first piece starts there and which glues back to the rest of the text |
| Truncation.SplitCharacterised | main.py:39 | `re.split(r'(?<=[.?!])\s+', s)`: pieces and removed runs glue back to `s`; every piece but the last is non-empty, ends in `.`/`?`/`!` and is followed by a non-empty maximal whitespace run; the last piece has nothing after it; no piece contains a match |
| Truncation.NoTerminatorOneSentence | main.py:39 | a text without `.`, `?` or `!` splits into a single piece, the whole text |
| Truncation.Head | main.py:38 | `text[:500]` is a prefix of the text of length `min(len, 500)` |
| Truncation.TwoSentences | main.py:39-43 | with at most two pieces it is the text itself; it is never longer than the text, and strictly shorter exactly when there are more than two pieces |
| Truncation.Excerpt | main.py:45-48 | the excerpt is the head or the two-sentence join; it is no longer than either; at equal length the head wins; the join is chosen only when there are more than two pieces; length at most 500 and at most the input's |
| Truncation.ExcerptShorterIff | main.py:36-50 | the excerpt is shorter than the text exactly when the text is longer than 500 characters or has more than two sentences |
| Truncation.Truncate | main.py:50-51 | the text sent is at most 506 characters; it is the excerpt plus ` [...]` exactly when the excerpt is shorter than the input, and otherwise the input itself |
| Truncation.TruncateCases | main.py:37-51 | at most 500 characters and at most two sentences: sent exactly as given; otherwise the excerpt is strictly shorter and the marker is appended |
| Truncation.MarkerCanLengthen | main.py:50-51 | 501 characters without a sentence break are sent as 506 characters, longer than the input |
| Translation.Translator.constructor | main.py:22-23 | a fresh client with no requests made |
| Translation.Translator.TranslateText | main.py:55 | one request is logged, and the reply is the oracle's answer for that request number and request |
| Translation.Resolve | main.py:54-62 | a successful reply gives the provider's text; a DeepL error or any other error gives the original text |
| Translation.ComputeTranslation | main.py:32-62 | a blank text is returned unchanged with no request; any other text makes exactly one request, for `(Truncate(text), lang)`, and yields the provider's text, or the original untruncated text on a DeepL error or any other error |
| Translation.NoRequestWhenCached | main.py:31 | between two moments of the cache, if every request was for a key now cached and no key was added, then no request was sent and nothing changed |
| Translation.BlankMissKeeps | main.py:31-34 | caching a blank text under itself keeps every cached value explained by the request log |
| Translation.RequestMissKeeps | main.py:31-62 | caching the result of a new request, for the excerpt of a missing non-blank key, keeps every cached value explained by the request log |
| Translation.TranslationCache.constructor | main.py:27 | the cache starts empty, with no request logged |
| Translation.TranslationCache.ValidKeepsBlank | main.py:31-34 | a blank text is only ever cached as itself |
| Translation.TranslationCache.CachedResultExplained | main.py:31-62 | each cached non-blank text holds the provider's answer to a logged request for its excerpt, or the text itself when that request failed; a blank text holds itself |
| Translation.TranslationCache.ValidLogged | main.py:31-55 | every request sent since the cache was created was for a key the cache holds, and was for that key's excerpt |
| Translation.TranslationCache.SentSince | main.py:31-55 | the requests the provider received since an earlier moment of the cache are the excerpts of the keys logged since, in order |
| Translation.SentFollowsLog | main.py:31-55 | when each request is the excerpt of its logged key, the requests after a moment are the excerpts of the keys logged after it, in order |
| Translation.NewRequestsAppend | main.py:31-55 | the requests of two runs of calls in a row are those of the first run followed by those of the second, started from the keys the first left cached |
| Translation.CallsCompose | main.py:31-55 | two runs of calls in a row gain the keys of the joined run and log the requests of the joined run |
| Translation.NewRequestsFresh | main.py:31-34 | every request is for a call whose key was not cached and whose text is not blank |
| Translation.NewRequestsDistinct | main.py:31 | no key is requested twice in a run of calls |
| Translation.NewRequestsWhenCached | main.py:31 | a run of calls whose keys are all cached requests nothing |
| Translation.TranslationCache.GetTranslation | main.py:31-32 | a hit returns the stored result with no request and no change; a miss computes as above, adds exactly the key `(text, lang)` and stores the result under it; the invariant is kept, and the key is logged as requested exactly when it was missing and not blank |
| Translation.TranslateTwice | main.py:31 | two calls with the same arguments return the same result and make at most one request between them, whether or not it fell back |
| Proxy.TargetLang | main.py:68 | a given language is upper-cased; the default is `EN-GB`; the result has no lower-case ASCII letter |
| Proxy.ChannelSourceTexts | main.py:89-96 | the channel title is translated from the stripped title, or from `"Untitled Feed"`; the description from a non-empty `description`, else the `subtitle`, else `""`; both in the request's language |
| Proxy.EntrySourceTexts | main.py:110-125 | an entry's title is translated from the stripped title, or from `"No Title"`; the description from a non-empty `description`, else the `summary`, else `""`, stripped with one space between text nodes; the author from the stripped author |
| Proxy.BuildItem | main.py:108-132 | a generated item's description is its title or is not blank; it has an author exactly when the entry has one |
| Proxy.BuildItems | main.py:107-108 | one generated item per source entry |
| Proxy.BuildItemsAt | main.py:107-132 | entry `i` of `n` becomes item `n - 1 - i`, because `add_entry` prepends |
| Proxy.BuildChannel | main.py:85-132 | the channel's description is its title or is not blank; it has one item per entry |
| Proxy.Respond | main.py:65-138 | the handler's response for a given cache: 400, 500, or 200 with `BuildChannel` (its cases are stated by `RespondStatus`) |
| Proxy.RespondStatus | main.py:71-83 | a missing or empty `url` gives 400 with its message; a failed fetch gives 500; a malformed feed gives 400 naming the parser's error; otherwise 200 with the assembled feed |
| Proxy.EntriesCallsAt | main.py:107-125 | the calls of every entry are among the calls of the feed's entries |
| Proxy.GuidFallsBackToLink | main.py:102-128 | links default to the empty string; the channel id and each item's guid are the source `id`, or the link when there is no `id`; the channel language is copied when present |
| Proxy.AuthorOnlyWhenPresent | main.py:123-125 | an item has an author exactly when its entry has one, and it is the translation of the stripped author text |
| Proxy.PubDateOnlyWhenParsed | main.py:130-132 | an item has a pubDate exactly when `published_parsed` is present and a non-empty time tuple, and then it is that tuple |
| Proxy.DescriptionFallsBackToTitle | main.py:94-120 | the channel's and each item's description is the translated description, or the translated title when that is empty or whitespace only |
| Proxy.BlankBodyGetsTitle | main.py:115-120 | with a cache filled by getTranslation, a channel or entry whose stripped description is blank gets its translated title as description, whatever the provider answers |
| Proxy.TranslateItem | main.py:108-132 | the loop body for one entry builds exactly the item the pure assembly gives for the grown cache; the cache gains exactly the entry's keys and keeps its invariant; the keys requested are those `NewRequests` gives for the calls title, description and (when present) author, in that order |
| Proxy.TranslateItems | main.py:107-132 | the loop over the entries builds exactly the pure assembly's items, last entry first, for the final cache; the cache gains exactly the entries' keys, nothing cached changes, and the keys requested are those `NewRequests` gives for the entries' calls in source order |
| Proxy.GetFeed | main.py:65-135 | the response equals `Respond` for the cache left behind; a rejected request changes nothing and sends nothing; on 200 the cache gains exactly the feed's keys, each new value is what getTranslation computed, the provider receives exactly the excerpts of the keys `NewRequests` gives for the channel's and then the entries' calls, in that order, and a feed whose keys were all cached sends no request |

## Left out

- Non-string inputs to getTranslation (main.py:33). In the model every text is a string. Every caller in main.py passes the output of `get_text`, which is a `str`.
- Flask routing, the `Response` object, media type and status plumbing, and `app.run` (main.py:65, 135, 141-145). The status is the `Response` datatype.
- The `requests.get` fetch: its User-Agent header, timeout, disabled TLS checks and `raise_for_status` (main.py:75-79). It is network I/O, so the outcome is the input `FetchResult`.
- `feedparser.parse` and its `bozo` detection (main.py:81-82). This is a foreign parser, so its result is the input `ParsedFeed`.
- BeautifulSoup's `get_text` (main.py:90, 95, 111, 116, 124). This is a foreign library, so it is the uninterpreted parameter `getText`.
- FeedGenerator and `rss_str` serialisation (main.py:85, 134), including any exception the generator raises for missing required fields. This is a foreign library.
- Any exception inside the assembly other than a failed fetch, such as one from the generator or from date conversion (main.py:136-138).
- The DeepL credential check and client authentication at start-up (main.py:18-25). The provider is the arbitrary `oracle`.
- diskcache's persistence, its 1 GB size limit with eviction, and concurrent access (main.py:27). The cache is a `map` that never evicts.
- `time.mktime`/`datetime` conversion to UTC (main.py:131). The pubDate carries the parsed time tuple.
- Logging of provider and handler errors (main.py:58, 61, 137).
- Text.Upper: upper-cases ASCII letters only, while Python's `str.upper` also maps other scripts (`ß` becomes `SS`). Language codes are ASCII.
