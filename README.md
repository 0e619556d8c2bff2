# URL shortener: link registry and dashboard list, modelled in Dafny

This project models the two pieces of logic in the URL shortener.

The first is the **link registry** behind the Express server (`backend/server.js`). It is one
MongoDB collection of `Url` documents `{_id, originalUrl, shortCode, clicks, createdAt}` and
four route handlers:

- `POST /api/shorten` answers 400 when the URL is missing or empty.
  When a record with exactly that URL exists, it answers 200 with that record and the message
  "URL already shortened".
  Otherwise it saves a new record with a 6-character `nanoid` code and `clicks = 0`, and
  answers 201.
  A code that collides with the unique index on `shortCode` makes the save fail.
  The handler then answers 500, with no retry.
- `GET /api/urls` answers every record, newest first.
- `GET /:shortCode` adds one click to the record with that code and redirects (302) to its
  URL. An unknown code answers 404.
- `DELETE /api/urls/:id` removes the record with that id and answers "Deleted" whether or not it
  existed.

The registry is the class `Server.UrlRegistry`, whose field `records` is the collection in
natural order. Each handler is a method that changes `records` and returns a `Response`: a JSON
body with a status, or a redirect. The store queries the handlers issue (`findOne`, the
`findOneAndUpdate` filter and `$inc`, `find().sort`, `findByIdAndDelete`) are functions over the
sequence of records, in modules `Collection` and `Link`. The object invariant `Valid()` is
`Link.WellFormed`. It says that ids, short codes and original URLs are pairwise distinct, every
code has 6 characters and every URL is non-empty. Every handler keeps it. Every handler also
keeps `Link.Evolves`: a record's URL, code and creation time never change and its clicks never
decrease.

The second is the **dashboard's list bookkeeping** in `frontend/src/App.jsx`:

- `handleSubmit` rejects a blank input and a URL `isValidUrl` refuses.
  On a duplicate reply it moves the returned record to the front.
  On a new record it prepends it.
- `handleDelete` filters the entry out.
- `filteredUrls` is the case-insensitive search.
- `totalClicks` and the average-clicks card compute the statistics.

These are pure functions over sequences in module `Dashboard`. The JavaScript string operations
they use (`trim`, `toLowerCase`, `includes`) are in `JsString`.

The random code, the fresh ObjectId, `Date.now`, the answer of `isValidUrl`, the answer of
`window.confirm` and the outcome of each `fetch` are parameters.

Two behaviours of the source are worth stating up front:

- A short-code collision makes the save fail, and the handler answers a generic 500 with no
  retry (`backend/server.js:83`, `87-90`).
- A missing field and an empty string are both rejected with 400 (`backend/server.js:65`).

The method `Server.LifeCycle` is a verified walk-through of the registry:

1. shorten a URL;
2. shorten it again and get the same record;
3. redirect three times;
4. list the store;
5. delete the record;
6. list the store again.

Each step's answer and store are asserted from the route methods' contracts.

## Model

| member | source | states |
|---|---|---|
| `Sequences.FirstWhere` | backend/server.js:70 | the `findOne` semantics over a collection in natural order: the index found satisfies the query and no earlier one does; nothing is found iff no element satisfies it |
| `Collection.FindByUrl` | backend/server.js:70 | the index found holds a record with exactly that URL; no index is found iff no record has that URL |
| `Collection.FindByCode` | backend/server.js:106-110 | the index found holds a record with that code; no index is found iff no record has that code |
| `Collection.FindByCodeExact` | backend/server.js:31-35 | with unique codes, a record's code selects exactly that record |
| `Collection.FindByUrlExact` | backend/server.js:70-78 | with one record per URL, a record's URL selects exactly that record, so a repeated shorten returns it |
| `Collection.InsertWellFormed` | backend/server.js:80-86 | saving a record whose id, URL and code are all unused keeps ids, codes and URLs unique |
| `Collection.InsertThenFind` | backend/server.js:81-83 | after the save, the new URL and the new code both lead to the new record |
| `Collection.Clicked` | backend/server.js:106-110 | `$inc` raises that record's clicks by exactly 1 and leaves every other field and record unchanged |
| `Collection.ClickedWellFormed` | backend/server.js:106-110 | a click keeps the collection well formed and never lowers a counter or changes an immutable field |
| `Collection.NewestFirst` | backend/server.js:95 | the listing holds exactly the stored records, each as often as it is stored (multiset equality) |
| `Collection.NewestFirstCorrect` | backend/server.js:95 | the sorted listing is a permutation of the stored records with `createdAt` non-increasing |
| `Link.WithoutId` | backend/server.js:126 | removal by id only drops records: the result is no longer than the input and no record in it has that id |
| `Link.WithoutIdKeepsOthers` | backend/server.js:126 | removal by id keeps exactly the records with another id, in their original order |
| `Link.WithoutIdCounts` | backend/server.js:126 | removal by id keeps every copy of each record with another id and no record with that id (multiplicities) |
| `Link.WithoutAbsentId` | backend/server.js:126-127 | deleting an id that no record has leaves the collection unchanged |
| `Link.WithoutIdIdempotent` | backend/server.js:124-131 | deleting twice equals deleting once |
| `Link.WithoutIdConcat` | backend/server.js:126 | removal by id distributes over concatenation |
| `Link.WithoutPresentId` | backend/server.js:126 | with distinct ids, deleting a present id removes exactly that record, others kept in order |
| `Link.WithoutIdWellFormed` | backend/server.js:126 | deleting keeps ids, codes and URLs unique |
| `Server.Present` | backend/server.js:65 | the guard `!originalUrl` is false: the field is present and not the empty string |
| `Server.UrlRegistry.Shorten` | backend/server.js:60-91 | 400 for a missing or empty URL; 200 with the existing record and "URL already shortened" for a stored URL; 500 on a code collision; otherwise exactly one record appended with that URL, the given 6-character code and 0 clicks, and 201; the store is unchanged on every other path |
| `Server.UrlRegistry.List` | backend/server.js:93-101 | status 200 and a permutation of the stored records, newest first; the store is not modified |
| `Server.UrlRegistry.Redirect` | backend/server.js:104-121 | a known code gets exactly one more click, nothing else changes, and a 302 to its URL follows; an unknown code gets 404 and the store is unchanged |
| `Server.UrlRegistry.Delete` | backend/server.js:124-131 | the store becomes the old store without that id, and the answer is "Deleted" whether or not the id existed |
| `JsString.Trim` | frontend/src/App.jsx:40 | the result is a slice `s[a..b]` with only whitespace before `a` and after `b`, and it neither starts nor ends with whitespace: `s` with exactly its leading and trailing whitespace removed |
| `JsString.TrimEmptyIffWhitespace` | frontend/src/App.jsx:40 | `trim()` is empty exactly when the input is whitespace only |
| `JsString.ToLower` | frontend/src/App.jsx:114-115 | lower-casing keeps the length, leaves no ASCII capital letter and keeps every other character in place |
| `JsString.Includes` | frontend/src/App.jsx:114-115 | `s.includes(t)` holds exactly when `t` is a contiguous slice `s[i..j]` of `s` |
| `JsString.IncludesEmpty` | frontend/src/App.jsx:113-116 | every string includes the empty search term |
| `Dashboard.IsBlank` | frontend/src/App.jsx:40 | `!originalUrl.trim()` holds exactly when every character of the input is ECMAScript whitespace |
| `Dashboard.AfterShorten` | frontend/src/App.jsx:67-75 | the returned record comes first; on a duplicate reply the rest is the old list without that id (`Link.WithoutId`), order and every other copy kept; on a new record the rest is the old list, length + 1 |
| `Dashboard.HandleSubmit` | frontend/src/App.jsx:37-84 | a request is sent iff the input is not blank and the URL is valid; on rejection or failure the list and input are unchanged with the matching alert; on success the list is updated and the input cleared, with the duplicate alert exactly when the URL was already shortened |
| `Dashboard.BlankInputRejected` | frontend/src/App.jsx:40-43 | a whitespace-only input sends no request and leaves the list and the input unchanged |
| `Dashboard.HandleDelete` | frontend/src/App.jsx:93-105 | when confirmed and the request did not throw, the list becomes the old list without that id (`Link.WithoutId`), others kept in order; otherwise the list is unchanged, with the failure alert when the request threw |
| `Dashboard.FilteredUrls` | frontend/src/App.jsx:113-116 | the filtered list is no longer than the list and every entry in it matches the term |
| `Dashboard.FilteredKeepsMatches` | frontend/src/App.jsx:113-116 | the filtered list keeps exactly the entries whose lower-cased URL or code contains the lower-cased term, in their original order |
| `Dashboard.FilteredCounts` | frontend/src/App.jsx:113-116 | the filter keeps every copy of a matching entry and no other entry (multiplicities) |
| `Dashboard.EmptyTermKeepsAll` | frontend/src/App.jsx:113-116 | an empty search term keeps every entry |
| `Dashboard.TotalClicks` | frontend/src/App.jsx:118 | the `reduce` from the left over the whole list, starting at 0; its properties are the lemmas below |
| `Dashboard.TotalClicksBounds` | frontend/src/App.jsx:118 | the total is at least the clicks of every entry, and it is 0 exactly when no entry has a click |
| `Dashboard.TotalClicksConcat` | frontend/src/App.jsx:118 | the total over a concatenation is the sum of the totals |
| `Dashboard.TotalAfterNewLink` | frontend/src/App.jsx:74 | prepending a record adds its clicks to the total, so a new 0-click link leaves it unchanged |
| `Dashboard.TotalWithout` | frontend/src/App.jsx:99 | taking the entry at `i` out of a list takes exactly its clicks off the total |
| `Dashboard.TotalAfterDelete` | frontend/src/App.jsx:99 | removing a present entry from a list with distinct ids lowers the total by exactly its clicks |
| `Dashboard.RoundedMean` | frontend/src/App.jsx:159 | `Math.round(total / n)` for `n > 0`: the unique integer `q` with `n(2q-1) <= 2 total < n(2q+1)` |
| `Dashboard.AverageClicks` | frontend/src/App.jsx:159 | 0 for an empty list, with no division; otherwise the integer nearest the mean clicks, halves rounded up |

## Left out

- Express plumbing is not modelled: CORS headers, `express.json()`, the `/test` route,
  `app.listen` and all console logging. It is framework I/O.
- The MongoDB connection is not modelled. The only store failure modelled is the unique-index
  collision on save.
- Other store failures are not modelled. These include a lost connection on any route and the
  ObjectId cast error that a malformed id raises in `DELETE /api/urls/:id`. Each answers 500 in
  the source.
- `Server.UrlRegistry.Delete`: always answers 200, because the cast error on a malformed id is
  not modelled.
- `Server.UrlRegistry.List`: never answers the 500 of a failed query, because store failures
  are not modelled.
- Concurrency is not modelled. Each handler is one sequential step. Two things follow:
  - the atomicity of `$inc` is not modelled;
  - the check-then-insert race in shorten is not modelled. In the source, two concurrent
    shortens of the same URL can store it twice. The model keeps URLs unique.
- `nanoid`'s randomness and alphabet, ObjectId generation and `Date.now` are parameters of
  `Shorten`. It requires a 6-character code and an id no stored record has.
- The request body field is `Option<string>`. Non-string JSON values are not modelled: falsy
  numbers or booleans, and truthy values that Mongoose would cast to a string.
- `Collection.NewestFirstCorrect`: the store does not fix the order of records with equal
  `createdAt`. The model's insertion sort picks one such order, and only the ordering and
  permutation properties are claimed.
- `clicks` is an unbounded natural number. The precision limit of a JavaScript `Number` above
  2^53 is not modelled.
- All React rendering and the browser calls are not modelled: `fetch`, `navigator.clipboard`,
  `setTimeout`, `window.open`, `window.confirm`, `alert`. The answers of `confirm` and `fetch`
  are parameters; alerts are returned as strings.
- `fetchUrls` and `handleRedirect` are not modelled. `fetchUrls` replaces the list with the
  server's answer; `handleRedirect` opens the short URL and calls `fetchUrls` 500 ms later.
- `handleCopy` is not modelled. It writes the short URL to the clipboard and sets `copiedId`
  for 2 s; it does not touch the list.
- The `loading` and `copiedId` flags are not modelled.
- `isValidUrl` is a parameter of `HandleSubmit`. It depends on the browser's `URL` constructor.
- `JsString.ToLower`: lower-cases ASCII capitals only, because full Unicode case mapping is not
  modelled.
- `Dashboard.AverageClicks`: rounds the exact rational mean, half up. The floating-point
  rounding of `totalClicks / urls.length` before `Math.round` is not modelled.
- Date formatting (`toLocaleDateString`) is not modelled.
