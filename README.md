# Express products API — a Dafny model

This project models `server.js`, a small Express service that keeps a product
catalogue in memory and answers HTTP requests about it. Every request whose body
parses reaches a gate on the `api-key` header first; a JSON body the parser rejects
goes straight to the error handler, ahead of the gate. The model covers:

- the module-level `products` array and the handlers that change it. This is a class,
  `Store.ProductStore`, with a `seq<Product>` field and `Find`, `Create`, `Update` and
  `Delete` methods. Their loops and contracts follow `find`, `findIndex`, `push`, indexed
  assignment and `splice`;
- the `validateProduct` middleware (`Catalog.IsValid`) and the record `{ id, ...body }`
  that POST and PUT store (`Catalog.Stamp`). A request body is a record of optional
  fields, its own `id` included;
- the read-only handlers as functions over a snapshot (`Query`): the category-filtered,
  paginated listing, the name search and the per-category counts;
- the JavaScript built-ins these rely on, at the precision the service needs:
  truthiness, ASCII `toLowerCase` and `includes` (`JsString`), and `filter` and
  `slice` with negative-index clamping (`JsArray`);
- route registration as a first-match table, where a `:name` parameter matches one
  non-empty segment and literals match case-insensitively (`Router`);
- the whole pipeline as `Server.Serve`: body-parser error, API-key gate, dispatch,
  handler, error handler.

In three places the code behaves differently from what a reader of the field names
and defaults would expect. The model follows the code each time:

- One would expect only *missing* fields to fail validation. The code tests
  truthiness (`!name`, server.js:30), so an empty `name`, `description` or `category`
  is rejected too (`Catalog.EmptyTextRejected`).
- One would expect ids to be assigned by the server only. The code puts the spread after
  the server id (server.js:57 and 65), so a body `id` overrides it on POST and PUT
  (`Catalog.StampKeepsServerId`). Ids can therefore repeat, and every lookup means the
  first record with that id.
- One would expect a zero or negative `page`/`limit` to fall back to the defaults. The
  code's `parseInt(x) || d` (server.js:42-43) replaces only NaN and 0; negative values
  are kept and reach `slice` (`Query.NegativePageCountsFromEnd`).

`uuidv4()` becomes the `freshId` parameter of `Create` and `Serve`. `parseInt` becomes an
already-parsed `Option<int>`, where `None` stands for NaN. The price is a `real` that nothing
computes with, because it is only ever tested for presence.

## Model

The handlers that only read are functions: `Query.ListProducts` is GET /api/products
(server.js:37-48), `Query.Search` the search route (server.js:76-80), `Query.Stats` the
stats route (server.js:82-88), and `Router.Dispatch` the routing (server.js:37-98).
Inside them, `Query.FilterByCategory` is the optional category filter (server.js:39-41),
`Query.OrDefault` is `parseInt(x) || d` (server.js:42-43), and `Router.Match` is the
matching of one route's path pattern. The rows below name the lemmas that state what
they compute.

| member | source | states |
|---|---|---|
| `Catalog.ValidIff` | server.js:28-34 | a body is accepted exactly when name, description and category are present non-empty strings and price and inStock are present |
| `Catalog.FalsyPresentValuesAccepted` | server.js:30 | a price of 0 and an inStock of false are present values and pass validation |
| `Catalog.EmptyTextRejected` | server.js:30 | an empty name, description or category is rejected like an absent one |
| `Catalog.Stamp` | server.js:57 | `{ id, ...body }` is a well-formed record whose fields are exactly the body's, with the id taken from the body when it has one and from the server otherwise |
| `Catalog.StampKeepsServerId` | server.js:57 | the server-supplied id survives exactly when the body carries no id or the same id |
| `Catalog.StampAsBody` | server.js:57-59 | a record re-submitted as a body passes validation exactly when it is well formed, and is then reproduced unchanged |
| `Store.IndexOf` | server.js:63 | `findIndex` gives -1 exactly when no record has the id, and otherwise the first position holding it |
| `Store.RemoveAt` | server.js:72 | `splice(i, 1)` shortens the array by one, keeps the records before i, shifts the ones after down by one, and removes exactly one copy of the record at i |
| `Store.RemoveAtSubseq` | server.js:72 | the records left after a delete keep their relative order |
| `Store.DeleteRemovesId` | server.js:69-73 | when ids are unique, no record with the deleted id remains, so a later lookup yields 404 |
| `Store.DuplicateSurvivesDelete` | server.js:69-73 | when a later record shares the deleted record's id, a lookup after the delete still finds that id, no later than the later record's new position |
| `Store.AppendFreshId` | server.js:57-58 | appending a record with a new id keeps ids unique, and the record is found at the end |
| `Store.ReplaceKeepsPosition` | server.js:63-65 | a replace that keeps the id is found again at the same position and keeps ids unique |
| `Store.ProductStore.constructor` | server.js:25 | the store starts empty and valid |
| `Store.ProductStore.FindIndex` | server.js:63 | the scan returns the first position whose record has the id, or -1 |
| `Store.ProductStore.Find` | server.js:51 | the lookup returns nothing exactly when no record has the id, and otherwise the first record with it |
| `Store.ProductStore.Create` | server.js:56-59 | an invalid body gives 400 and no change; a valid one appends exactly `{ id: freshId, ...body }` at the end and returns it, and every stored record stays well formed |
| `Store.ProductStore.Update` | server.js:62-66 | an invalid body gives 400 and an unknown id gives 404, both without change (validation comes first); otherwise only the first matching position is overwritten with `{ id, ...body }` |
| `Store.ProductStore.Delete` | server.js:69-73 | an unknown id gives 404 without change; otherwise the first record with the id is removed and returned, and the rest keep their order |
| `Query.FilteredExactly` | server.js:38-41 | the filtered set is an order-preserving subsequence of the store that holds each record whose lower-cased category equals the lower-cased query as often as the store does, and no other record (all records for an absent or empty query); `total` is its length |
| `Query.PageDefaults` | server.js:42-43 | page falls back to 1 and limit to 5 when the parsed value is NaN or 0; every other value, negative ones included, is kept |
| `Query.PageWindow` | server.js:44-46 | for positive page and limit, the page is the run `[(page-1)*limit, min(page*limit, total))` of the filtered set, at most `limit` long and empty once the start reaches `total` |
| `Query.SecondOfThree` | server.js:42-47 | page 2 with limit 1 over three records is the second record, and page 10 is empty with total 3 |
| `Query.NegativePageCountsFromEnd` | server.js:42-46 | a negative page is kept, so the slice counts back from the end of the filtered set |
| `Query.SearchMember` | server.js:76-79 | a record is in the search result exactly when it is stored and the lower-cased term occurs at some position of its lower-cased name |
| `Query.SearchExactly` | server.js:76-79 | the search returns, in store order, each record whose lower-cased name contains the lower-cased term as often as the store does, and no other; with no match it returns the empty list |
| `Query.StatsCounts` | server.js:82-86 | stats has a key for a category exactly when some record is stored under it (case-sensitively), and the value is that record count |
| `Query.StatsSumIsSize` | server.js:82-86 | the stats keys are distinct and exactly the stored categories, and the counts under them sum to the number of records |
| `Query.StatsExamples` | server.js:82-86 | stats of no records is empty, and two records of one category count 2 |
| `JsString.Lower` | server.js:40 | lower-casing keeps the length |
| `JsString.LowerAt` | server.js:40 | lower-casing maps every character on its own, position by position |
| `JsString.LowerOfLowercase` | server.js:40 | a string with no upper-case letter is its own lower-case form |
| `JsString.LowerIdempotent` | server.js:40 | lower-casing twice is lower-casing once |
| `JsString.IncludesIff` | server.js:78 | the `includes` scan succeeds exactly when the term occurs at some position |
| `JsString.IncludesEmpty` | server.js:78 | the empty term is included in every string |
| `JsArray.Filter` | server.js:40 | `filter` keeps exactly the elements that pass, so it is never longer than its input |
| `JsArray.FilterSubseq` | server.js:40 | what `filter` keeps is an order-preserving subsequence of its input |
| `JsArray.FilterMultiplicity` | server.js:78 | `filter` keeps every copy of a passing element and no copy of a failing one |
| `JsArray.Resolve` | server.js:46 | a `slice` argument resolves to a position in 0..len: non-negative values are clamped to len, negative ones count from the end and are clamped to 0 |
| `JsArray.Slice` | server.js:46 | `slice` returns the contiguous run between the two resolved positions, or nothing when they cross |
| `Router.MatchSpec` | server.js:50 | a pattern matches exactly the paths of its length whose segments match one by one, and it captures each of its parameters from a segment in that parameter's position |
| `Router.LiteralMatchIgnoresCase` | server.js:50 | a lower-case literal segment matches a path segment exactly when the two agree after lower-casing |
| `Router.MatchById` | server.js:50 | `/api/products/:id` matches every three-segment path that starts with `api` and `products` in any letter case and ends in a non-empty segment, and captures that segment as `id` |
| `Router.FirstMatch` | server.js:37-98 | the first matching route in registration order: no route before it matches |
| `Router.DispatchSpec` | server.js:37-98 | dispatch finds nothing exactly when no route matches, and otherwise answers with the first matching route's handler and captures |
| `Router.DispatchFits` | server.js:50-76 | on a table whose routes capture the parameters their handlers read, every hit carries them |
| `Router.TablesFit` | server.js:50-76 | both routing tables capture the `id` and `name` parameters their handlers read |
| `Router.StatsRouteMatches` | server.js:82 | the stats route matches exactly the GET requests for `/api/products/stats` in any letter case |
| `Router.StatsShadowedById` | server.js:50-52 | in registration order, a GET of the stats path goes to the id lookup with `id` set to its last segment |
| `Router.CorrectedServesStats` | server.js:82-88 | with the stats route ahead of the id route, the stats path reaches the stats handler |
| `Router.DispatchSkips` | server.js:37-98 | a route that does not match the request can be dropped from the table without changing the dispatch |
| `Router.CorrectedAgreesElsewhere` | server.js:37-98 | the corrected table dispatches every request other than a GET of the stats path as the registered one does |
| `Server.Authorize` | server.js:15-22 | a request passes the gate exactly when its `api-key` header is present and equal to "123456" |
| `Server.RenderError` | server.js:91-95 | the error response uses the error's status unless it is missing or 0 (then 500), and its message unless it is missing or empty (then "Internal Server Error") |
| `Server.RenderErrorFixedPoint` | server.js:91-95 | an error response fed back through the error handler is unchanged |
| `Server.NotFoundIs404` | server.js:52 | a missing product is reported as 404 with "Product not found" |
| `Server.FailureResponse` | server.js:31 | a failed store operation is answered with its own status code, 400 or 404 |
| `Server.Serve` | server.js:9-100 | a request whose JSON body the parser rejects is answered by the error handler with the parser's error, whatever its key, and changes nothing; otherwise a request without the right key gets 401 and changes nothing; any other request is dispatched and has exactly the effect and response of the first matching route's handler (404 when none matches), and the store stays valid |
| `Server.StatsRequestIsLookup` | server.js:50-52 | on the registered table, GET /api/products/stats changes nothing and gives 404 unless some record has the id "stats" |
| `Server.StatsRequestCorrected` | server.js:82-88 | on the corrected table, GET /api/products/stats returns the category counts of the store |

## Findings

| source | as written | input that shows it | evidently intended | confidence | as-written member | corrected member |
|---|---|---|---|---|---|---|
| server.js:50 | `GET /api/products/:id` is registered before `GET /api/products/stats`, and `:id` matches the segment `stats` | an authorised `GET /api/products/stats` | the category counts of the store | high (not executed) | `Router.StatsShadowedById` | `Router.CorrectedServesStats` |

`Server.Serve` takes the routing table as a parameter. `Router.Registered` is the table
in registration order. `Router.Corrected` moves the stats route ahead of the id route.
`Router.CorrectedAgreesElsewhere` proves that the two tables differ only on the stats
path. `Server.StatsRequestIsLookup` and `Server.StatsRequestCorrected` give the
end-to-end effect of the stats request under each table.

## Left out

- HTTP plumbing is not modelled: `express()`, the JSON parsing inside `bodyParser.json()` (its outcome is the request's parsed `body` or its `bodyError`), `app.listen`, `res.status/json/send` and the JSON serialisation of responses. A response is a status and a payload datatype.
- The request-logging middleware is left out. It only writes to the console with the current time.
- `uuidv4()` is a foreign random generator. It is the `freshId` parameter, and uniqueness of ids is a hypothesis of the lemmas that need it.
- `parseInt` string parsing is left out. Page and limit arrive already parsed, with `None` for NaN. Integers are unbounded, so precision loss of JavaScript numbers beyond 2^53 is not modelled.
- `toLowerCase` is ASCII-only. Unicode case mapping is not modelled.
- The price is a `real` that nothing computes with, because it is only tested for presence.
- Body fields of other JSON types are not modelled: a numeric name, a string inStock, a `null` or numeric id. Extra body fields, which the spread copies into the record unread, are not modelled either.
- A `category` query value that is not a single string is not modelled. A repeated parameter would be an array, and `toLowerCase` on it throws inside the filter callback. That happens only when at least one product is stored; then the error handler answers 500. With an empty store the callback never runs and the answer is 200 with total 0.
- Errors thrown inside handlers are not modelled. With typed fields the model cannot throw, so the error handler is only reached through `next`.
- Stats is a map, so the response (`StatsJson`) carries no key order. `Query.Keys` is the first-appearance order the JavaScript object would have, and it appears only in `Query.StatsSumIsSize`; JavaScript's reordering of integer-like keys is not modelled. Object quirks for category names inherited from `Object.prototype` (such as "constructor" or "__proto__") are not modelled either.
- Routing details are not modelled: splitting and percent-decoding of the raw URL, the optional trailing slash, HEAD requests reaching GET routes, Express's automatic answer to an OPTIONS request for a registered path (200 with an `Allow` list; the model's `OtherVerb` gets the unmatched-route 404 instead), and the body of Express's own 404 page for an unmatched route (the model's `NoRoute`).
- The root banner route is modelled only as a constant response.
- Concurrency is left out. Node runs one handler at a time.
