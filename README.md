# Product ingest: paginated fetcher and catalogue data model

This project models the core of a small product-ingestion service. The
service pulls a product catalogue from a remote GraphQL listing, 100 records
per page, and keeps it in a relational schema.

- `QueryManager` (ProductIngest.py) holds the paging state: offset, total
  count, "more to come" flag and the iterator over the current page. Its
  `_query_page` sends one page query. On an HTTP 429 rate limit it waits 1,
  2, 4, 8 and 16 seconds between at most five retries. It then takes in the
  page: the total is fixed by the first page only, the offset moves past the
  page, and `has_more` is recomputed. The `get_products` generator yields
  the buffered records and queries the next page whenever the buffer is
  used up, until `has_more` is false.
- The data model (Models.py) allows a product's default image to be set
  only to an image already linked to that product. Links and the product
  and category hierarchies are keyed by their id pairs, and brand names
  are unique.

Files:

- `wrappers.dfy`, module `Wrappers`: `Option` and `Result`.
- `paging.dfy`, module `Paging`: the fetcher's protocol as pure functions
  over a state value, with the lemmas about it. `Retry` is the retry loop,
  `FetchPage` one call of `_query_page`, `Pull` one resumption of
  `get_products` and `Drain` a whole pass.
- `product_ingest.dfy`, module `ProductIngest`: `QueryManager` as a class
  whose methods update its fields in place. Each method is proved to leave
  the fields as the matching `Paging` function says, so the `Paging` lemmas
  hold of the object.
- `models.dfy`, module `Models`: the link, hierarchy and brand tables, the
  default-image validator, and a `Product` class with its links and its
  default image.

The remote listing is a parameter. It is a function from a request
(`first`, `after`) and the index of the call (how many queries were sent
before) to a response, so a listing can refuse the first calls with a rate
limit and answer later ones. Waiting is recorded, not performed: each
`time.sleep(delay)` appends `delay` to a log, and each query appends its
variables to a request log. `Listing(c)` is the well-behaved listing of a
fixed catalogue `c`: it never fails and always answers with `c`'s size and
the requested slice.

## Model

| member | source | states |
|---|---|---|
| Paging.Initial | ProductIngest.py:35-38 | the state `__init__` sets up (with the empty iterator of line 106): offset 0, no total, `has_more` true, nothing buffered, nothing sent and nothing waited |
| Paging.Retry | ProductIngest.py:112-137 | the retry loop from a given retry count and delay: send the query; on a rate limit within the budget, wait `delay` and go on with twice the delay; otherwise stop with the answer. It sends one query more than it waits, and waits at most as often as retries remain |
| Paging.DoublingAt | ProductIngest.py:113-135 | the k-th wait of the loop is the initial delay times 2^k |
| Paging.RetryBudget | ProductIngest.py:112-137 | the retry loop sends at most MaxRetries + 1 queries, one more than it waits; its final response answers the last query; it ends on a rate limit only when the budget is spent |
| Paging.RetryLimitedBefore | ProductIngest.py:130-136 | every query before the last one was rate-limited, since only a 429 leads to another attempt |
| Paging.RetryWaits | ProductIngest.py:133-135 | the waits form a doubling series from the starting delay |
| Paging.RetryRecovers | ProductIngest.py:114-137 | n rate limits within the budget followed by anything else: the loop ends with that answer after n + 1 queries and n doubling waits |
| Paging.RetryGivesUp | ProductIngest.py:130-137 | when every allowed attempt is rate-limited the loop ends on the rate limit after MaxRetries + 1 queries and MaxRetries waits, with no wait after the last |
| Paging.RetryEnds | ProductIngest.py:114-137 | the loop's outcome, calls and waits are fixed by the index of the first query that is not rate-limited, or by the spent budget |
| Paging.FetchPage | ProductIngest.py:108-144 | a page query that succeeds with `has_more` set leaves records to yield; one that raises leaves the buffer and `has_more` as they were |
| Paging.FetchPageRequests | ProductIngest.py:116-122 | every query of a page asks for PageSize records after the current offset; 1 to MaxRetries + 1 are sent; the waits are 1 s, 2 s, 4 s, ... |
| Paging.FetchPageSuccess | ProductIngest.py:138-144 | an answered page is the answer to the last query; a missing `edges` is an empty page; the offset grows by the number of records on the page; the total is taken from the first page (0 if absent) and never changes later; `has_more` iff the page was non-empty and the offset is below the total |
| Paging.FetchPageFailure | ProductIngest.py:124-137 | a raised error is the last query's answer; offset, total, `has_more` and buffer are unchanged; a rate limit is raised only after all five waits |
| Paging.OtherErrorRaisedAtOnce | ProductIngest.py:124-137 | an error other than a rate limit is raised after one query and no wait, leaving the position unchanged |
| Paging.BackoffRecovers | ProductIngest.py:130-136 | n ≤ 5 rate limits then an answer: n + 1 queries, waits 1, 2, 4, ... seconds, and the answer's outcome |
| Paging.BackoffGivesUp | ProductIngest.py:130-137 | six rate limits in a row: the rate limit is raised after six queries and waits of exactly 1, 2, 4, 8 and 16 seconds, and the position is unchanged |
| Paging.Pull | ProductIngest.py:150-157 | one resumption of `get_products`: the next buffered record, or stop when `has_more` is false, or query a page and look again; when it stops the buffer is empty and `has_more` is false, and when it raises the buffer is empty |
| Paging.FirstPullQueries | ProductIngest.py:35-40 | the first resumption of a fresh fetcher queries offset 0 |
| Paging.PullCounts | ProductIngest.py:146-157 | one resumption keeps "offset = consumed records + buffered records" |
| Paging.PullProgress | ProductIngest.py:140-157 | each yielded record decreases a bound on the work left, so every pass ends against any listing |
| Paging.PullBuffered | ProductIngest.py:150-153 | with records buffered, a resumption yields the first of them and changes nothing else |
| Paging.Drain | ProductIngest.py:146-157 | the generator resumed until it stops or raises: the records yielded in order, the final state and the error; every pass ends with the buffer used up, and one without an error ends with `has_more` false |
| Paging.DrainItem | ProductIngest.py:150-153 | a yielded record extends the pass's output by that record, in order |
| Paging.DrainStop | ProductIngest.py:154-157 | a resumption that stops or raises ends the pass with what was yielded so far |
| Paging.DrainYieldsBufferFirst | ProductIngest.py:150-157 | the records already buffered are yielded, in order, before the termination check or any query |
| Paging.DrainAfterEnd | ProductIngest.py:154-156 | once `has_more` is false no query is sent: the pass yields just the buffer and ends without error |
| Paging.DrainAccounting | ProductIngest.py:142-157 | a pass ends with an empty buffer, and its offset counts exactly the records yielded since the state it started from |
| Paging.FetchCatalogPage | ProductIngest.py:116-144 | against a faithful listing a page query succeeds at the first attempt with the slice at the offset |
| Paging.FetchMirrors | ProductIngest.py:138-144 | against a faithful listing, the page fetched at a due offset holds the catalogue records from the offset and keeps total, offset and `has_more` in step with the catalogue |
| Paging.FetchMirrorsLog | ProductIngest.py:116-122 | that page costs exactly the next request of the walk 0, 100, 200, ... and no wait |
| Paging.WalkStep | ProductIngest.py:142-143 | the request at an offset below the total, then the walk from the end of that page, is the walk from the offset |
| Paging.PullMirrorsFetch | ProductIngest.py:146-157 | with the buffer empty and records left, a resumption against a faithful listing yields the record at the offset after one request |
| Paging.DrainMirrors | ProductIngest.py:142-157 | from any state past the first page, a faithful listing makes the pass yield the rest of the catalogue, with no waits, one request per remaining page, ending at offset = total |
| Paging.FirstPullMirrors | ProductIngest.py:146-157 | the first resumption against a non-empty catalogue yields its first record |
| Paging.FullPass | ProductIngest.py:108-157 | a full pass over a faithful listing yields the catalogue exactly, in order, without waits, querying offsets 0, 100, 200, ... up to the total; an empty catalogue costs one query |
| Paging.NonEmptyPass | ProductIngest.py:108-157 | the non-empty case of the full pass |
| Paging.EmptyPageEndsPass | ProductIngest.py:142-157 | a page query that succeeds with no records ends the pass at once, whatever total was declared: nothing is yielded, no further query is sent and no error is raised, even if the offset is still below the total |
| Paging.EmptyPageShortOfTotal | ProductIngest.py:138-157 | a listing that declares 500 records but answers with an empty page: the pass sends the single query (100, 0), waits for nothing, yields nothing and stops at offset 0 with the total 500 |
| Paging.EmptyPass | ProductIngest.py:108-157 | against the faithful listing of an empty catalogue, the pass ends after the single query (100, 0) with nothing yielded and no wait |
| Paging.ThreePages | ProductIngest.py:35 | the walk over 250 records at 100 per page is offsets 0, 100 and 200 |
| Paging.TwoHundredFifty | ProductIngest.py:142-143 | 250 records: exactly three queries of 100 records at offsets 0, 100 and 200, answered with 100, 100 and 50 records |
| ProductIngest.QueryManager.constructor | ProductIngest.py:35-40 | offset 0, `has_more` true, no total, empty iterator, nothing sent or waited |
| ProductIngest.QueryManager.QueryWithBackoff | ProductIngest.py:112-137 | the retry loop's final response, the queries it sent and the waits it made are those of `Paging.Retry` |
| ProductIngest.QueryManager.QueryPage | ProductIngest.py:108-144 | the new fields and the raised error are exactly `Paging.FetchPage` of the old fields; the class invariant (offset = yielded + buffered, no movement before the first page, every query asks for 100) is kept |
| ProductIngest.QueryManager.NextProduct | ProductIngest.py:150-157 | one resumption of the generator leaves the fields and yields what `Paging.Pull` says; a yielded record is appended to the history |
| ProductIngest.QueryManager.GetProducts | ProductIngest.py:146-157 | iterating the generator to the end yields exactly `Paging.Drain`'s records and error and leaves its final state |
| Models.InsertKeyed | Models.py:94-99 | a link row is accepted iff the same (product, image) pair is not already in the table, and is then appended |
| Models.InsertKeyedKeepsDistinct | Models.py:94-99 | inserts keep a link table free of repeats, and the same pair cannot be inserted twice |
| Models.InsertAll | Models.py:94-99 | rows inserted one at a time into a whole-row keyed table, the first refused row failing the batch with an integrity error; an accepted batch keeps the old rows and adds one row per batch row |
| Models.InsertAllDistinct | Models.py:94-99 | a batch of rows goes in iff no row repeats among the existing rows and the batch, and the table is then the old rows followed by the batch |
| Models.ProductImageLinksOnce | Models.py:94-99 | a set of product-image links is accepted iff no (product, image) pair repeats |
| Models.ChildProductEdgesOnce | Models.py:108-113 | a set of product hierarchy edges is accepted iff no (parent, child) pair repeats |
| Models.ChildCategoryEdgesOnce | Models.py:122-127 | a set of category hierarchy edges is accepted iff no (parent, child) pair repeats |
| Models.InsertBrand | Models.py:69-70 | a brand is accepted iff neither its id nor its name is taken; an accepted insert keeps ids and names unique |
| Models.SecondBrandNameRefused | Models.py:70 | once a brand is stored, another brand with the same name is refused, whatever its id |
| Models.ValidateDefaultImage | Models.py:51-63 | `None` always passes; an id passes unchanged iff some link of the product points at that image; otherwise a `ValueError` naming the image and the product |
| Models.DefaultNeedsOwnLink | Models.py:56-61 | for a product's own links, an image can be made the default iff the (product, image) link exists |
| Models.Product.constructor | Models.py:42-46 | a new product has no links and no default image, and satisfies the invariant |
| Models.Product.LinkImage | Models.py:94-101 | adding a link appends the (product, image) row unless that link exists, in which case nothing changes; afterwards the image is linked; the invariant is kept |
| Models.Product.SetDefaultImage | Models.py:51-63 | assigning the default goes through the validator: on success the value is stored, on a `ValueError` the field keeps its old value; the invariant "default is none or linked" is kept |

## Left out

- The GraphQL client, its transport, the query text, the API URL and key
  read from the environment, and `load_dotenv`. The listing is a parameter
  of the model.
- The `["node"]` projection of each edge. Records are of a generic type
  standing for the edge's node.
- How the status is read from a `TransportServerError` (the `code`,
  `status_code` and `http_status` attributes, or "429" in the message).
  The model has two error kinds: a rate limit, and any other raised error.
  Which one a listing returns is up to the listing.
- A response whose `totalCount` is present but null. The model only
  covers an absent total, which counts as 0.
- Malformed responses that make `_query_page` raise after the query
  succeeded (ProductIngest.py:138-143). A null or missing
  `getProductListing` raises at lines 138-139. An `edges` key present with
  a null value makes `len` raise at line 142, after line 141 has already
  fixed the total on a first page. The model's response always carries a
  listing whose edges are a list or absent, so it has neither raise path
  nor that partly updated state.
- Floating point: delays are exact reals, so the waits are exactly 1, 2, 4,
  8 and 16 seconds.
- The real passage of time: `time.sleep` is a log entry.
- ProductIngest.QueryManager.QueryWithBackoff: the queries and waits of one page
  query enter the logs together after the retry loop, not one by one
  inside it. Their order in the logs is the same.
- ProductIngest.QueryManager.QueryPage: requires an empty buffer. Its only
  caller runs it after the current page's iterator is exhausted.
- Generator closing: in Python, a generator that raised is finished, and a
  new `get_products()` call resumes from the manager's state. The model
  lets `NextProduct` be called again on the same state, which is the same
  thing.
- The `__main__` printing loop of ProductIngest.py.
- Engine.py (database creation and the seed script) and the playground
  scripts are not part of this model.
- The other columns of `products`, `images` and `categories`, and the
  ORM relationships' loading behaviour.
- Foreign-key constraints: SQLite does not enforce them by default.
- No uniqueness is modelled for `Image.fullpath` or `Product.sku`, since
  none is declared.
- `Brand.name` being non-null holds by its type (`string`, never absent).
- Models.Product.LinkImage: a repeated link is refused when it is
  appended. With a real session it is accepted in memory and refused by
  the primary key when the session flushes.
- Models.InsertBrand: names are compared as exact character sequences,
  as SQLite's default collation does. Case-insensitive collations are not
  modelled.
