# Movie info provider: a verified model

The provider answers a query with one of four attributes (title, cast,
director or genre) by calling a movie metadata web API. The model covers the
sequential logic around those calls:

- **`RpWrapper`** (`rate_limiter.dfy`, module `RateLimiter`). Every outbound
  request goes through this sliding-window throttle. It keeps the times of the
  last 30 requests it let through, newest first. When the list is full and its
  oldest entry is less than 10000 ms old, the call is deferred by
  `10000 - (now - oldest)` ms. Otherwise the oldest entry of a full list is
  dropped, `now` goes in front and the request is forwarded. The class keeps
  the list as a `seq<int>` field. A ghost field records the history of
  admissions. `Step` specifies one call. `Replay` and `Decisions` give the
  state and the answers after any sequence of calls, and `Run` drives a fresh
  wrapper through such a sequence. The lemmas prove the 30-entry bound and the
  list/history invariant. They prove time order when the clock never goes
  back. For any call times at all, even when the clock goes back, they prove
  that no 10000 ms window holds more than 30 admissions.
- **Record merge** (`movies.dfy`, module `Movies`). `FormatRecord` builds one
  flat movie record from a movie's credits and details:
  - directors are the crew whose job is exactly `"Director"`;
  - cast and genres are all the names, in order;
  - the provenance tags are fixed;
  - the IMDb link is derived from the IMDb identifier.

  `FormatMovieData` replaces every stub of the search-result array, in place
  and at its own index.
- **Decisions inside `execute`** (`search.dfy`, module `Search`):
  - the strategy dispatch (title, then cast, then director, then genre);
  - the genre lookup under ASCII `trim`/`toLowerCase`, where the first match
    wins;
  - the director post-filter loop that splices out records not directed by
    the query name. The loop reads one property of each record and calls its
    `indexOf`; `index.js` reads a property the records do not have.
- `seqs.dfy` (module `Seqs`) holds `Filter` and `Map`, the sequence forms of
  `Array.prototype.filter` and `map`. `wrappers.dfy` holds `Option` and
  `Result`.

Time is a parameter (`now`). A deferral is returned as `Deferred(delay)`, and
the retry is a new call by the caller. Each movie's two requests are function
parameters `MovieId -> Option<...>`, where `None` is a failed request.

Facts about `index.js` that shape the model:
- The record is flat (`link`, `SOURCE`, `MEDIA`, `name`, `tags`,
  `filmandbookgenre`, `country`, `language`, `subtitle`, `director`, `cast`,
  `movieorseries`). It has no `id`, no `url`/`webUrl` pair and no
  `attributes` group.
- There is no AND/OR combination of filter groups and no title-substring
  refinement. `execute` runs at most one strategy, and none when no attribute is truthy.
- The window is exactly 10000 ms and 30 requests.
- An empty attribute string counts as absent (JavaScript truthiness).

## Model

| member | source | states |
|---|---|---|
| `RateLimiter.Step` | index.js:15-31 | A call is deferred iff the list is full and `now - oldest < 10000`. A deferral leaves the list unchanged. Its delay is positive, ends exactly when the oldest entry leaves the window, and is at most 10000 when the clock has not gone back. An admission puts `now` first and drops exactly the oldest entry of a full list; the others keep their order. A list of at most 30 stays at most 30. |
| `RateLimiter.RpWrapper.constructor` | index.js:8-13 | A new wrapper has an empty request-time list and an empty history, and satisfies the invariant. |
| `RateLimiter.RpWrapper.Get` | index.js:15-32 | The decision and the new list are those of `Step` on the old list. The history grows by `now` exactly on admission. The invariant holds and the list has at most 30 entries. |
| `RateLimiter.StepKeepsThrottled` | index.js:17-30 | One call keeps the list equal to the most recent (at most 30) admissions, newest first. Each admission stays at least 10000 ms after the admission 30 before it. |
| `RateLimiter.ReplayThrottled` | index.js:10-31 | After any sequence of calls from a fresh wrapper, the list holds at most 30 times and the list/history invariant holds. |
| `RateLimiter.ReplayInOrder` | index.js:16-30 | With non-decreasing call times, admissions are in time order and none is later than the last call. |
| `RateLimiter.ReplayNewestFirst` | index.js:28-30 | With non-decreasing call times, the request-time list stays sorted newest first. |
| `RateLimiter.Run` | index.js:8-31 | Calling a fresh wrapper at the given times, in order, leaves the list and the history that `Replay` gives. The decisions returned are those of `Decisions`. |
| `RateLimiter.DecisionsAt` | index.js:15-31 | Call `k` is decided by `Step` on the list that the calls before it left, whatever calls come after. |
| `RateLimiter.WindowBound` | index.js:17-28 | A history where each admission is at least 10000 ms after the one 30 earlier has at most 30 admissions in any 10000 ms window, in whatever order its times come. |
| `RateLimiter.ReplayWindowBound` | index.js:15-31 | For any sequence of calls, even with a clock that goes back, at most 30 admitted requests fall in any 10000 ms window. |
| `Seqs.FilterCount` | index.js:71-73 | `filter` keeps each value that satisfies the test as often as it occurs, and no other value. |
| `Seqs.FilterAppend` | index.js:71-73 | `filter` of a concatenation is the concatenation of the filters, so kept elements stay in input order. |
| `Seqs.Map` | index.js:75-85 | `map` has the input's length, and element `k` is the function applied to input element `k`. |
| `Movies.DirectorsNamed` | index.js:71-77 | A name is in the director list iff some crew member with that name has job exactly `"Director"`. |
| `Movies.DirectorsAppend` | index.js:71-77 | Directors of a concatenated crew list are the directors of each part in turn, which fixes crew order and keeps duplicates. |
| `Movies.FormatRecord` | index.js:68-100 | `director` is the director names of the crew. `cast` and `filmandbookgenre` are the cast and genre names position by position. `name` is the title. `link` is `http://www.imdb.com/title/` followed by the IMDb id. `SOURCE`, `MEDIA` and `movieorseries` are `themoviedb`, `video` and `movie`. `tags`, `country`, `language` and `subtitle` are null. |
| `Movies.Enriched` | index.js:58-101 | A slot becomes a record iff both requests for its id succeeded; otherwise it keeps its stub. |
| `Movies.FormatMovieData` | index.js:53-110 | Each slot is the enrichment of its own old stub, so the length and positions are kept. The batch succeeds iff every request succeeded, and then every slot holds a record. |
| `Search.Dispatch` | index.js:116-168 | No strategy runs iff no attribute is truthy. Otherwise the chosen strategy searches for its attribute's non-empty value, and every attribute earlier in the order title, cast, director, genre is falsy. |
| `Search.ToLower` | index.js:156-158 | Lower-casing keeps the length and maps each ASCII capital to its small letter, leaving other characters alone. |
| `Search.TrimStartRemovesLeadingSpace` | index.js:156 | The result is a suffix of the input. Everything removed is white space, and the result does not start with white space. |
| `Search.TrimEndRemovesTrailingSpace` | index.js:156 | The result is a prefix of the input. Everything removed is white space, and the result does not end with white space. |
| `Search.GenreKeyIgnoresCase` | index.js:156-158 | Queries that differ only in letter case have the same comparison key. |
| `Search.GenreKeyIgnoresPadding` | index.js:156 | White space before and after a query does not change its comparison key. |
| `Search.FirstGenreNamed` | index.js:157-158 | There is no result iff no genre's lower-cased name equals the key. Otherwise the result is the genre at the first position whose lower-cased name equals the key. |
| `Search.FirstGenreNamedAt` | index.js:157-165 | When position `k` is the first whose lower-cased genre name equals the key, the lookup returns the genre at `k`. |
| `Search.FindGenre` | index.js:150-168 | The loop with early return yields the first genre whose lower-cased name equals the trimmed, lower-cased query, or nothing. |
| `Search.FindGenreIgnoresCaseAndPadding` | index.js:156-158 | Queries that differ only in case and surrounding white space pick the same genre. |
| `Search.SpliceOut` | index.js:142-148 | Reading the given property of each record, the splice loop throws a `TypeError` iff some record's property is `undefined` or `null`. Otherwise it leaves exactly the order-preserving filter of the records where `indexOf` finds the name: an equal element of an array, or a substring of a string. |
| `Search.KeepDirectedBy` | index.js:142-148 | Reading `director`, the splice loop never throws. It leaves exactly the order-preserving filter of the records whose `director` list contains the query name (exact match). |
| `Search.KeptAreDirectedBy` | index.js:142-148 | A record is kept iff it was in the list and its `director` list contains the query name. |
| `Search.KeepDirectedByAsWritten` | index.js:142-148 | Reading `directors`, which no record has, the loop throws iff the list is non-empty. Otherwise it returns the empty list. |
| `Search.AsWrittenRejectsMatchingRecord` | index.js:143 | A record directed by the query name has no `directors` property, so the loop as written throws on it, while the intended filter keeps the record. |

## Left out

- The HTTP requests and their URLs and query strings (`request-promise`, `config`). Their answers are parameters of the model.
- `Date.now`, `setTimeout` and the automatic re-issue of a deferred call. Time is an input, and the retry is a new `Get` call.
- The `co` generator, `Promise.all` and the `reject` wiring. The model gives the settled outcome of `_formatMovieData`, not the moment the rejection fires.
- Atomicity of the throttle between concurrent callers. JavaScript runs `get` to completion, so a call is a single step.
- The forwarding of an admitted call to the request library. `Admitted` stands for it.
- `_searchPerson`, which is an empty stub returning `undefined` (index.js:112-114). The cast and director branches yield that `undefined` at index.js:127 and index.js:135. `execute` uses the promise `co` returns (`.then` at index.js:175), and that version of `co` rejects a yielded `undefined` with a `TypeError`. So both branches reject at their first `yield`, before any request is made. This rests on `co`'s documented behaviour, which is not part of this model.
- The missing `yield` before the crew discovery request (index.js:136). It is a second defect in the asynchronous plumbing, behind the rejection at index.js:135. Were index.js:135 to yield a person id, `body.results` would be `undefined`, and `movies.forEach` in `_formatMovieData` (index.js:57) would throw, so the director branch would still reject before its post-filter loop. The loop is modelled on the record list it would receive.
- The request for a matched genre's movies, and the enrichment of the title, cast and director search results. These are HTTP calls followed by `FormatMovieData`.
- The static ontology getters. They are constant strings.
- The demo invocation and the console output at the end of the file.
- Non-ASCII behaviour of `trim` and `toLowerCase`. The model trims only ASCII white space and lower-cases only `A`-`Z`.
- `Movies.FormatMovieData`: it requires every slot to hold a search stub, as every caller passes a fresh result list. The other fields of a stub are not modelled because the merge reads only `id`.

## Findings

| source | as written | input that shows it | evidently intended | confidence | as-written member | corrected member |
|---|---|---|---|---|---|---|
| index.js:143 | The director post-filter reads `data[i].directors`, but records only have `director` (index.js:97). `undefined.indexOf` throws a TypeError. The director branch currently rejects before the loop, at its first `yield` (index.js:135, where `_searchPerson` yields `undefined`); the missing `yield` at index.js:136 is a second defect behind that one. | Any non-empty record list. For example, one record whose `director` is `["James Cameron"]`, queried with `"James Cameron"`. | Keep the records whose `director` list contains the query name. | high; not executed | `Search.KeepDirectedByAsWritten`, `Search.AsWrittenRejectsMatchingRecord` | `Search.KeepDirectedBy` |
