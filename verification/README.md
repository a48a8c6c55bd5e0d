# DomClick offers harvester — a Dafny model

This project models the core of `domklick_parsing.py`, a harvester that collects
residential sale listings from the DomClick offers API. It does four things:

- **Parameter grid.** It enumerates a fixed grid of search filters. There are 7 keys, and
  the number of listed values per key is 1·1·1·2·6·5·5. The result is 300 query dicts, in
  `itertools.product` order (`Params`).
- **Signing.** Before every request it signs the session: the `Timestamp` header is the
  current second, and the `Hash` header is `"v1:"` followed by the MD5 hex digest of a
  fixed salt, the prepared URL and that timestamp (`Signing`).
- **Pagination.** For each query dict it pages through the offers endpoint: 30 items per
  page at offsets 0, 30, 60, … It stops on a body that is not JSON, on `success` false,
  or on an empty page (`Pagination`).
- **Merging.** It merges the per-query results in the order the worker tasks complete.
  Each merge concatenates and then keeps the first row of each `id`. The merge loop stops
  once 20000 rows are held (`Aggregation`, `Harvest`).

`Seqs` holds the one sequence helper they share, `Flatten`.

The pure parts are functions with lemmas about them:

- the product enumeration
- `dict(zip(...))`
- `str(int)`
- the hash string
- de-duplication

The parts of the program that proceed step by step are methods:

- the session object whose header map `__update_headers` overwrites (class
  `DomClickApi`)
- the `while True` paging loop
- the `as_completed` merge loop
- `main`

Each method is proved against a specification function:

- `FetchOffers` returns `Flatten(Pages(...))` of exactly the pages before the first one that
  stops the loop.
- `Aggregate` returns `Merged(batches, consumed)`. A lemma shows that `Merged` equals a
  single `drop_duplicates(keep='first')` of everything merged so far.

The parts of the program outside the model are parameters:

- **The HTTP server** is a function `server: ParamSet -> Response`. It gives the decoded
  answer for a query dict.
- **MD5** is a function `md5hex: string -> string`.
- **The clock** is the integer `now`.
- **The completion order of the worker tasks** is a permutation `order` of the task
  indices.

## Model

| member | source | states |
|---|---|---|
| Params.ProductSize | domklick_parsing.py:83 | the product yields exactly as many tuples as the product of the domain sizes |
| Params.ProductMembers | domklick_parsing.py:83 | a tuple is yielded if and only if it takes, position by position, one value from the matching domain |
| Params.ProductRank | domklick_parsing.py:83 | with duplicate-free domains, the tuple at index `i` has mixed-radix rank `i`: the first domain varies slowest, the last fastest, and values come in list order |
| Params.ProductAt | domklick_parsing.py:83 | the tuple at index `a·n + b` is value `a` of the first domain followed by tuple `b` of the remaining domains |
| Params.LastVariesFastest | domklick_parsing.py:83 | the last position of the tuple at index `i` holds value number `i mod n` of the last domain, `n` being that domain's size |
| Params.ProductDistinct | domklick_parsing.py:83 | with duplicate-free domains no tuple is yielded twice |
| Params.ZipAt | domklick_parsing.py:84 | with distinct keys, `dict(zip(keys, values))` maps each key to the value at its own position |
| Params.ZipKeys | domklick_parsing.py:84 | the keys of `dict(zip(keys, values))` are exactly the listed keys |
| Params.ZipLookup | domklick_parsing.py:84 | reading the keys back out of the zipped dict returns the tuple that went in |
| Params.CombinationsCount | domklick_parsing.py:83-84 | there are as many dicts as the product of the value-list sizes, for any grid |
| Params.CombinationsShape | domklick_parsing.py:83-84 | for a grid with distinct keys: as many dicts as the product of the value-list sizes, each dict has exactly the grid's keys, and each key holds one of its listed values |
| Params.CombinationsComplete | domklick_parsing.py:83-84 | every dict that assigns each key one of its listed values is generated |
| Params.CombinationsRank | domklick_parsing.py:83-84 | the values of the dict at index `i`, read in key order, have product rank `i` |
| Params.CombinationsDistinct | domklick_parsing.py:83-84 | no dict is generated twice |
| Params.GridDistinct | domklick_parsing.py:73-81 | the grid's seven keys are distinct, in declaration order, and no key lists a value twice |
| Params.GridSize | domklick_parsing.py:73-81 | the grid spans 1·1·1·2·6·5·5 = 300 combinations |
| Params.GeneratedCount | domklick_parsing.py:72-84 | `generate_param_combinations` yields exactly 300 dicts |
| Params.GeneratedShape | domklick_parsing.py:72-84 | `generate_param_combinations` yields 300 dicts, each with exactly the seven keys and a listed value under each |
| Params.GeneratedRank | domklick_parsing.py:72-84 | the dict yielded at index `i` has rank `i` in product order (`address` slowest, `time_by_car__lte` fastest) |
| Params.GeneratedDistinct | domklick_parsing.py:72-84 | no two yielded dicts are equal, so no query is fetched twice |
| Params.GeneratedLastFastest | domklick_parsing.py:80-84 | `time_by_car__lte` at index `i` is value `i mod 5` of its list |
| Signing.NatStringRoundTrip | domklick_parsing.py:30 | the decimal rendering of a natural number starts with a digit and parses back to the number |
| Signing.IntStringRoundTrip | domklick_parsing.py:30 | `str()` of an integer, including a negative one, parses back to the integer |
| Signing.IntStringInjective | domklick_parsing.py:30 | different seconds give different timestamp strings |
| Signing.HashValueTagged | domklick_parsing.py:29-35 | the `Hash` value starts with `v1:` and what follows is the digest of salt + URL + timestamp |
| Signing.SignedTextInjective | domklick_parsing.py:29-31 | for URLs of equal length, the signed text determines both the URL and the timestamp |
| Signing.DomClickApi.constructor | domklick_parsing.py:10-20 | a new session holds the library's default headers overridden and extended by the three identity headers, plus the `Timestamp` and `Hash` left by the two bootstrap GETs; the last signature is valid for the second bootstrap URL |
| Signing.DomClickApi.Bootstrap | domklick_parsing.py:19-20 | the two bootstrap GETs add `Timestamp` and `Hash` and leave every other header unchanged; the timestamp is that of the second GET and the signature is valid for its URL |
| Signing.DomClickApi.UpdateHeaders | domklick_parsing.py:27-36 | the session gains `Timestamp` = `str(now)` and `Hash` = `v1:` + md5(salt + URL + timestamp), every other header is unchanged, and the headers verify for that URL |
| Pagination.PageQueryFields | domklick_parsing.py:45-50 | request `k` sends offset 30·k and limit 30, overriding any such keys in the combination, and passes every other key unchanged |
| Pagination.StopReasonOf | domklick_parsing.py:52-67 | a stopping page is classified, in check order, as a decode failure, `success` false, or no items (each case if and only if) |
| Pagination.FirstStop | domklick_parsing.py:49-67 | if some page stops the loop, the first such page exists and is where the loop stops |
| Pagination.StopsAtUnique | domklick_parsing.py:49-67 | the stopping page is unique |
| Pagination.QueriesDistinct | domklick_parsing.py:45-63 | no two requests of one loop ask for the same query (the offsets differ) |
| Pagination.NextQuery | domklick_parsing.py:45-50 | the query built from the running offset is the query of the next page |
| Pagination.Step | domklick_parsing.py:58-63 | accepting a page appends exactly its items to the collected list |
| Pagination.FetchOffers | domklick_parsing.py:43-70 | the loop sends queries 0..n at offsets 0, 30, …, 30·n, all distinct; page n is the first stopping page and its classification is returned; the result is the concatenation of the items of pages 0..n-1 in order |
| Pagination.PagesConcatenated | domklick_parsing.py:62 | item `i` of accepted page `k` sits in the result right after the items of the pages before it |
| Seqs.FlattenSnoc | domklick_parsing.py:62 | extending by one more page appends that page's items at the end |
| Aggregation.KeepFirstSpec | domklick_parsing.py:145 | `drop_duplicates(subset=['id'], keep='first')` keeps exactly the ids not seen before, each once, and each kept row is the first row with its id |
| Aggregation.KeepFirstUnique | domklick_parsing.py:145 | a frame whose ids are already unique is left unchanged |
| Aggregation.KeepFirstAppend | domklick_parsing.py:144-145 | de-duplicating a concatenation keeps the first part's rows, then the second part's rows whose ids are new |
| Aggregation.MergeAppends | domklick_parsing.py:144-145 | merging a batch into a de-duplicated frame keeps every existing row in place and appends exactly the batch's first rows of new ids; the ids become the union |
| Aggregation.MergedIsDropDuplicates | domklick_parsing.py:138-145 | merging the batches one at a time equals one `drop_duplicates(keep='first')` of their concatenation in completion order |
| Aggregation.MergedUnique | domklick_parsing.py:138-145 | after every merge the ids are unique, they are the ids of the batches merged so far, and each row is the first delivered row with its id |
| Aggregation.MergedGrows | domklick_parsing.py:144-145 | rows are never replaced or reordered: an earlier frame is a prefix of a later one |
| Aggregation.Aggregate | domklick_parsing.py:138-148 | the loop returns the merge of the first `consumed` batches with unique ids; every earlier merge stayed below the cap, so it stops right after the first merge that reaches the cap, or when the batches run out; at least one batch is merged when there is one |
| Harvest.RunTasks | domklick_parsing.py:135-148 | every combination is fetched, and the batches are delivered in completion order to the merge loop; the final frame has unique ids, each row is the first delivered row of its id; the merging stops right after the first merge that reaches the cap (every earlier merge stayed below it), or after the last batch; at least one batch is merged when there is one |
| Harvest.Harvest | domklick_parsing.py:87-148 | `main`: 300 batches, one per generated combination, delivered in completion order; the frame has unique ids, each row is the first delivered row of its id, and merging stops right after the first merge that reaches 20000 rows (every earlier one stayed below) or after the last batch; at least one batch is merged |

## Left out

- **Network.** The HTTP session, cookies and the sending of every request, the two
  bootstrap GETs of the constructor included, are not modelled. Each request of the
  pagination loop is answered by the `server` parameter. `DomClickApi.get` is its
  signing step, `UpdateHeaders`, followed by the send.
- Signing.DomClickApi.constructor: the HTTP library's default headers (a `User-Agent`,
  `Accept-Encoding`, `Accept` and `Connection`) are the `defaults` parameter, since
  their values depend on the library's version. Header names are compared exactly, not
  case-insensitively as the library does. The bootstrap URLs are taken as their own
  prepared form.
- **Prepared URL.** `__get_prepared_url` (URL canonicalisation and query encoding by the
  `requests` library) is not part of this model. The prepared URL is the `preparedUrl`
  argument of `UpdateHeaders`. Neither `requests`' dropping of `None` values from the
  query string nor its repetition of list values is modelled; a query is the dict itself.
- **MD5 and the clock.** MD5 is the `md5hex` parameter and is not computed. The UTF-8
  encoding of the signed text is folded into it. `datetime.now()` truncated to whole
  seconds is the `now` parameter.
- **Threads.** The ten worker threads run concurrently and share one session. Their
  writes to the session headers can race between signing and sending; this is not
  modelled. Leaving the executor block waits for every task, so all combinations are
  fetched whether or not their batch is merged. The completion order is an input.
- **pandas.** `json_normalize`, the column projection to `columns_needed`, `to_csv` and
  all `print` output are left out. A record is its `id` plus an opaque field map.
  Records without an `id`, or with NaN ids, are not modelled.
- **Crashes in `fetch_offers`.** Three exceptions are not modelled. The first is the
  `KeyError` raised when `success` or `errors` is missing from the JSON body. The second
  is the `TypeError` raised when the body decodes to JSON that is not an object (a list,
  a string, a number), so that `data['success']` cannot be looked up. The third is the
  `AttributeError` raised when `result` is null. None of them is caught by the loop;
  each one ends the task with an exception that `future.result()` re-raises in `main`.
  A `null` or missing `items` is modelled as an empty page, as the source treats it.
- **How a decoded body maps to `Parsed`.** `success` is the truth value Python gives the
  decoded `success` field. `false`, `null`, `0`, `0.0`, `""`, `[]` and `{}` are false and
  stop the loop as an API error. Every other value is true, the string `"false"`
  included, and lets the loop go on. The JSON value itself is not modelled.
- Pagination.FetchOffers: requires that some page stops the loop. Against a server
  that answers every page with items the source loops forever; that run is not modelled.
- Harvest.RunTasks: requires that every combination's loop terminates, for the same
  reason.
