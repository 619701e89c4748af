# Movie2K provider core, modelled in Dafny

This project models the deterministic core of the `SuperStreamMovie2k`
Cloudstream provider
(`ExampleProvider/src/main/kotlin/com/example/SuperStreamMovie2k.kt`). It
covers four pieces, and it proves what each promises.

- **Hoster URL classification** (`extractVideoLink`), module `Hosters` and `Links.ExtractVideoLink`.
  - Each of the nine whole-string regular expressions becomes a `UrlShape`. A shape has its domain variants and the text before and after the alphanumeric id.
  - A hand-written matcher, `Hosters.Matches`, is proved equal to the shape's spelled-out language `Scheme + domain + pathStart + id + pathEnd`.
  - A URL that matches none of the nine shapes gives an empty list, whatever the network would return.
- **Link extraction and labelling** (`fetchLinks`, `determineHosterName`, `determineQuality`), module `Links`.
  - The fetched document is a sequence of elements, each with an optional `src`.
  - The fetch is a function from url to `Page(elements)` or `IOFailure`.
  - Both labellers are the source's `when` chains. Each is proved to pick the first applying rule of an ordered table, with its fallback.
- **Read-through cache** (`Cache.getOrFetch`), module `PageCache`.
  - A class holds the cache's `map` and a ghost count of fetches, and its method is specified by a pure step function.
  - Lemmas show that a second call hits, and that a run of calls fetches each missing key exactly once.
- **Catalog helpers** (`queryApi`, `toSearchResponse`, `toSearchResponseList`, `search`, the `hasNextPage` rule), module `Catalog`.
  - The query url keeps the source's parameter order and default values, and inserts values verbatim.
  - It reads back as exactly its eight parameters if and only if no value contains `&`.

Modules `Text` (substring search, Kotlin's `ignoreCase` comparison,
split/join, decimal rendering) and `Wrappers` (`Option`) hold the
supporting definitions.

How the code labels links:

- The fallback hoster name is the German `"Unbekannt"`.
- The quality labels are the literal strings `"UHD (4K)"`, `"Full HD (1080p)"`, `"HD (720p)"`, `"SD"` and `"Standard"`.
- `"4k"` and `"sd"` are matched with Kotlin's `ignoreCase = true`. That compares characters after upper-casing, and then after lower-casing the upper-cased characters, so `"sD"`, the Kelvin sign U+212A (as a `k`) and the long s U+017F (as an `s`) also match.

## Model

| member | source | states |
|---|---|---|
| Text.Contains | ExampleProvider/src/main/kotlin/com/example/SuperStreamMovie2k.kt:179-197 | `contains` holds exactly when the needle occurs at some index of the link |
| Text.ContainsIgnoreCase | ExampleProvider/src/main/kotlin/com/example/SuperStreamMovie2k.kt:192-200 | `contains(…, ignoreCase = true)` holds exactly when the needle occurs at some index, compared character by character up to case |
| Text.FoldK | ExampleProvider/src/main/kotlin/com/example/SuperStreamMovie2k.kt:194 | under `ignoreCase`, exactly `k`, `K` and the Kelvin sign match `k` |
| Text.FoldS | ExampleProvider/src/main/kotlin/com/example/SuperStreamMovie2k.kt:197 | under `ignoreCase`, exactly `s`, `S` and the long s match `s` |
| Text.FoldD | ExampleProvider/src/main/kotlin/com/example/SuperStreamMovie2k.kt:197 | under `ignoreCase`, exactly `d` and `D` match `d` |
| Text.FoldDigit | ExampleProvider/src/main/kotlin/com/example/SuperStreamMovie2k.kt:194 | under `ignoreCase`, a digit matches only itself |
| Text.IntToDecimal | ExampleProvider/src/main/kotlin/com/example/SuperStreamMovie2k.kt:47 | `$page` and `$limit` render as a non-empty string of digits with at most a leading `-` |
| Text.IntDecimalRoundTrip | ExampleProvider/src/main/kotlin/com/example/SuperStreamMovie2k.kt:47 | the decimal text of `page`/`limit` inserted into the url reads back as the same integer |
| Hosters.Matches | ExampleProvider/src/main/kotlin/com/example/SuperStreamMovie2k.kt:145-153 | one `url.matches(Regex(…))`: the url is `https://`, one of the listed domains, the path start, a non-empty `[a-zA-Z0-9]+` id and the path end, as a whole; its contract is stated by `Hosters.MatchesIffSpells` |
| Hosters.Supported | ExampleProvider/src/main/kotlin/com/example/SuperStreamMovie2k.kt:144-155 | some one of the nine shapes matches; its contract is stated by `Hosters.SupportedInOrder` |
| Hosters.MatchesInOrder | ExampleProvider/src/main/kotlin/com/example/SuperStreamMovie2k.kt:144-155 | the nine `when` conditions in source order; tied to `Hosters.Supported` by `Hosters.SupportedInOrder` |
| Hosters.MatchesIffSpells | ExampleProvider/src/main/kotlin/com/example/SuperStreamMovie2k.kt:145-153 | a shape's matcher accepts a url exactly when the whole url is `https://`, a listed domain, the path start, a non-empty `[a-zA-Z0-9]+` id and the path end |
| Hosters.MatchesDomainIff | ExampleProvider/src/main/kotlin/com/example/SuperStreamMovie2k.kt:145-153 | the domain alternation accepts exactly the urls spelled with one of the listed domains |
| Hosters.SupportedInOrder | ExampleProvider/src/main/kotlin/com/example/SuperStreamMovie2k.kt:144-155 | a url is supported exactly when one of the nine regexes, tried in source order, matches |
| Hosters.SpelledIsSupported | ExampleProvider/src/main/kotlin/com/example/SuperStreamMovie2k.kt:145-153 | every url spelled from a listed domain and a non-empty alphanumeric id is supported |
| Hosters.SupportedUrlForm | ExampleProvider/src/main/kotlin/com/example/SuperStreamMovie2k.kt:145-153 | a supported url starts with `https://` and holds no `?` or `#`, so a query string or fragment is always rejected |
| Hosters.EmptyIdRejected | ExampleProvider/src/main/kotlin/com/example/SuperStreamMovie2k.kt:145-153 | a url spelled with an empty id is accepted by none of the nine shapes, whatever its domain |
| Links.EmptyIdGivesNoLinks | ExampleProvider/src/main/kotlin/com/example/SuperStreamMovie2k.kt:143-156 | a hoster url with an empty id is never fetched and gives an empty list |
| Links.FirstLabel | ExampleProvider/src/main/kotlin/com/example/SuperStreamMovie2k.kt:177-200 | an ordered `when` over substring checks gives the label of the first applying check, or the fallback when none applies |
| Links.DetermineHosterName | ExampleProvider/src/main/kotlin/com/example/SuperStreamMovie2k.kt:177-190 | the hoster name is one of exactly ten strings |
| Links.HosterNameByTable | ExampleProvider/src/main/kotlin/com/example/SuperStreamMovie2k.kt:177-190 | the name belongs to the first needle from `"dood."` to `"swiftload."` that the link contains; `"Unbekannt"` is returned exactly when no needle occurs |
| Links.UnknownWithoutNeedleLetters | ExampleProvider/src/main/kotlin/com/example/SuperStreamMovie2k.kt:188 | a link without the letters d, m, v, f, u, w is labelled `"Unbekannt"` |
| Links.TapeblockerEmbedSupported | ExampleProvider/src/main/kotlin/com/example/SuperStreamMovie2k.kt:146 | `https://tapeblocker/e/x` is a supported Streamtape mirror url |
| Links.MirrorLabelledUnknown | ExampleProvider/src/main/kotlin/com/example/SuperStreamMovie2k.kt:143-190 | that supported mirror url is nevertheless labelled `"Unbekannt"`, because the labeller looks only for `"streamtape."` |
| Links.DetermineQuality | ExampleProvider/src/main/kotlin/com/example/SuperStreamMovie2k.kt:192-200 | the quality is one of exactly five labels |
| Links.QualityByTable | ExampleProvider/src/main/kotlin/com/example/SuperStreamMovie2k.kt:192-200 | the label belongs to the first applying check of `4k` (any case), `1080p`, `720p`, `sd` (any case); `"Standard"` is returned exactly when none applies |
| Links.UhdExactly | ExampleProvider/src/main/kotlin/com/example/SuperStreamMovie2k.kt:194 | UHD is returned exactly when a `4` is directly followed by `k`, `K` or the Kelvin sign |
| Links.UpperCaseResolutionIsStandard | ExampleProvider/src/main/kotlin/com/example/SuperStreamMovie2k.kt:195-198 | `1080P` is matched case-sensitively and gives `"Standard"`, not Full HD |
| Links.UhdWinsOverHd | ExampleProvider/src/main/kotlin/com/example/SuperStreamMovie2k.kt:194-196 | every link holding both `4K` and `720p` is UHD: `4k` is matched ignoring case and its check comes first |
| Links.SrcAttr | ExampleProvider/src/main/kotlin/com/example/SuperStreamMovie2k.kt:162 | `attr("src")` is empty exactly when the attribute is missing or empty; otherwise it is the attribute value |
| Links.LinkFor | ExampleProvider/src/main/kotlin/com/example/SuperStreamMovie2k.kt:164-168 | a link carries its source url, a hoster name from the ten names and a quality from the five labels |
| Links.MediaLinks | ExampleProvider/src/main/kotlin/com/example/SuperStreamMovie2k.kt:161-170 | at most one link per element; every link has a non-empty url and carries that url's hoster name and quality |
| Links.MediaLinksMembership | ExampleProvider/src/main/kotlin/com/example/SuperStreamMovie2k.kt:161-170 | a link is produced exactly when some `video` or `source` element has it as its non-empty `src` |
| Links.MediaLinksConcat | ExampleProvider/src/main/kotlin/com/example/SuperStreamMovie2k.kt:161 | the links of two documents in sequence are the links of each in order: document order is kept, nothing is deduplicated |
| Links.MediaLinksSingle | ExampleProvider/src/main/kotlin/com/example/SuperStreamMovie2k.kt:162-169 | a single element yields its link if it is a media element with a non-empty `src`, and nothing otherwise |
| Links.FetchLinks | ExampleProvider/src/main/kotlin/com/example/SuperStreamMovie2k.kt:158-175 | an `IOException` gives an empty list; a fetched page gives exactly the links `MediaLinks` extracts from its elements, no more links than it has elements |
| Links.ExtractVideoLink | ExampleProvider/src/main/kotlin/com/example/SuperStreamMovie2k.kt:143-156 | an unsupported url gives an empty list, whatever the fetch would return; a supported url gives exactly `fetchLinks`' result; every link has a non-empty url, a known hoster name and a known quality |
| Links.EmptySrcAnywhere | ExampleProvider/src/main/kotlin/com/example/SuperStreamMovie2k.kt:162-163 | an element whose `src` is missing or empty yields no link wherever it stands in the document: removing it leaves the extracted links unchanged |
| Links.EmptySrcSkipped | ExampleProvider/src/main/kotlin/com/example/SuperStreamMovie2k.kt:162-163 | on the page `[video(src), source("")]` with a non-empty `src`, a supported url resolves to exactly the `video`'s link |
| Catalog.QueryUrl | ExampleProvider/src/main/kotlin/com/example/SuperStreamMovie2k.kt:37-47 | the `queryApi` template with its default values; its properties are stated by the lemmas below |
| Catalog.QueryUrlIsJoin | ExampleProvider/src/main/kotlin/com/example/SuperStreamMovie2k.kt:47 | the url is the base url, `?`, and the eight `key=value` parameters joined by `&` in the order lang, genre, order_by, page, limit, year, rating, keyword |
| Catalog.QueryUrlParameters | ExampleProvider/src/main/kotlin/com/example/SuperStreamMovie2k.kt:37-47 | when no value holds `&`, the url reads back as the eight parameters in order, each value unchanged |
| Catalog.QueryUrlIntact | ExampleProvider/src/main/kotlin/com/example/SuperStreamMovie2k.kt:47 | the url reads back as exactly eight parameters if and only if no value holds `&`; values are not encoded |
| Catalog.ParameterCountOfQuery | ExampleProvider/src/main/kotlin/com/example/SuperStreamMovie2k.kt:47 | every `&` inside a value adds one parameter to what the url reads back as |
| Catalog.DefaultQueryParameters | ExampleProvider/src/main/kotlin/com/example/SuperStreamMovie2k.kt:37-47 | with all defaults the url carries `lang=2`, an empty genre, `order_by=trending`, `page=1`, `limit=20` and empty year, rating and keyword |
| Catalog.ToSearchResponse | ExampleProvider/src/main/kotlin/com/example/SuperStreamMovie2k.kt:98-104 | title, poster url and year are copied from the record; a result has at most one genre, and none exactly when the record's genre is null |
| Catalog.SearchResponseRecovers | ExampleProvider/src/main/kotlin/com/example/SuperStreamMovie2k.kt:98-104 | the record id is recovered from the `/watch/<id>` url and the genre from the genre list |
| Catalog.SearchResponseForgetsOnlyExtras | ExampleProvider/src/main/kotlin/com/example/SuperStreamMovie2k.kt:98-104 | two records give the same result exactly when they agree on id, title, poster, year and genre; only trailer and subtitles are dropped |
| Catalog.ToSearchResponseList | ExampleProvider/src/main/kotlin/com/example/SuperStreamMovie2k.kt:112-114 | one result per record, same length, same order |
| Catalog.Search | ExampleProvider/src/main/kotlin/com/example/SuperStreamMovie2k.kt:78-85 | a failed request or parse gives an empty list; otherwise one result per parsed record, in order |
| Catalog.SearchUrl | ExampleProvider/src/main/kotlin/com/example/SuperStreamMovie2k.kt:80 | the url `search` requests: `queryApi(keyword = query, limit = 20)` |
| Catalog.SearchUrlParameters | ExampleProvider/src/main/kotlin/com/example/SuperStreamMovie2k.kt:80 | a search text without `&` reaches the API as the keyword, with `limit=20` and the other defaults |
| Catalog.HasNextPage | ExampleProvider/src/main/kotlin/com/example/SuperStreamMovie2k.kt:73 | there is a next page exactly when the largest of the three category lists has at least `limit` records |
| PageCache.GetOrFetchStep | ExampleProvider/src/main/kotlin/com/example/SuperStreamMovie2k.kt:117-123 | a hit returns the stored value and changes nothing; a miss fetches once, stores a produced value under the key and returns it; a fetch that throws stores nothing and its failure is returned; other keys keep their values |
| PageCache.SecondCallHits | ExampleProvider/src/main/kotlin/com/example/SuperStreamMovie2k.kt:117-123 | after a call that produced a value, a second call with the same key hits and returns that value, whatever its fetch; after a fetch that threw, the second call fetches again |
| PageCache.RunFetchesEachMissingKeyOnce | ExampleProvider/src/main/kotlin/com/example/SuperStreamMovie2k.kt:117-123 | a run of calls in which no fetch throws fetches exactly as often as there are distinct keys not yet cached; a run ended by a throwing fetch fetches no more than that |
| PageCache.Cache.GetOrFetch | ExampleProvider/src/main/kotlin/com/example/SuperStreamMovie2k.kt:117-123 | on a hit: the stored value, the entries unchanged, no fetch; on a miss: one fetch, whose value is stored under the key and returned, or whose exception leaves the entries unchanged and reaches the caller |
| PageCache.Cache.constructor | ExampleProvider/src/main/kotlin/com/example/SuperStreamMovie2k.kt:32 | a new cache is empty and has fetched nothing |

## Left out

- Plugin registration is not modelled: the `SuperStreamPlugin` class and its `load` (SuperStreamMovie2k.kt:13-22, SuperStreamPlugin.kt). It only registers the provider with the host.
- `Jsoup.connect(url).get()`, `app.get` and Jackson's `parsed<DataJSON>()` are library calls. They become function parameters: `string -> FetchOutcome` for the page fetch and `string -> ApiResponse` for the API request and parse.
- Links.FetchLinks: only an `IOException` is modelled as a fetch failure. Other exceptions escape `fetchLinks` in the source and are not modelled.
- `document.select("video, source")` is reduced to keeping the elements whose tag is `video` or `source`. CSS selector parsing is not modelled.
- `getMainPage`'s orchestration is not modelled: the three cached API calls, their cache keys and the `HomePageList` construction. Only its next-page rule is modelled.
- The favourites action (`addFavoriteOption`, `synchronized(userFavorites)`) and the `coroutineScope` field are left out. They register UI callbacks and guard concurrent mutation.
- `addTrailer`, `addAction` and the host's `MovieSearchResponse` type are left out. A search result is a plain record of title, url, poster, year and genres.
- PageCache.Cache.GetOrFetch: the source's `get(key) ?: …` also treats a stored `null` as a miss. The model's values are never null. Concurrent callers racing on one key are not modelled.
- The host library's `Cache` (its `get` and `set`) is not part of this model. It is taken to behave like a map that never evicts or expires entries, which `PageCache.SecondCallHits` and `PageCache.RunFetchesEachMissingKeyOnce` rely on.
- A fetch that throws is modelled as `None`: the exception's type and message, and the code that catches it further up, are not modelled.
- Text.ContainsIgnoreCase: the case tables cover ASCII letters plus the Kelvin sign and the long s. That is exact for the two needles `4k` and `sd`, but it is not Unicode case mapping in general.
- Strings are sequences of Unicode characters, not of UTF-16 code units. Surrogate pairs are not modelled.
- How the HTTP client treats characters such as spaces or `#` in a query value is not modelled. The model proves only what the url text contains.
- Whether two of the nine shapes can match the same url is not examined. The first matching shape makes no difference to the result, since every branch calls `fetchLinks` on the same url.
- `e.printStackTrace()` in `fetchLinks` is logging and is left out.
