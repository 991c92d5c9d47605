/** The paginated fetch protocol of `QueryManager` (ProductIngest.py) as pure
    functions over an abstract fetcher state: the rate-limit retry loop of
    `_query_page` (Retry), one whole page query (FetchPage), one resumption of
    the `get_products` generator (Pull) and a complete pass (Drain).

    The remote GraphQL listing is a function from a request and the index of
    the call (how many queries were sent before it) to a response; waiting
    with `time.sleep` is recorded by appending the delay to a log. */
module Paging {
  import opened Wrappers

  /** Records asked for by every page query (`_page_size`). */
  const PageSize: nat := 100
  /** Rate-limited attempts that are retried before the error is raised (`_max_retries`). */
  const MaxRetries: nat := 5
  /** Seconds waited before the first retry (`_backoff_initial`). */
  const BackoffInitial: real := 1.0

  /** The variables of one listing query: `first` records after offset `after`. */
  datatype Request = Request(first: nat, after: nat)

  /** Why a query raised: an HTTP 429 rate-limit signal, or anything else. */
  datatype Error = RateLimited | OtherError

  /** The answer to one query: the declared total count and the page's
      edges (each None when the response omits it), or a raised error. */
  datatype Response<T> = Page(totalCount: Option<int>, edges: Option<seq<T>>) | Failure(error: Error)

  /** The remote listing: the answer to a request sent as the `call`-th query. */
  type Source<T> = (Request, nat) -> Response<T>

  /** Only a rate-limit signal is retried. */
  predicate Retryable<T>(r: Response<T>) {
    r.Failure? && r.error == RateLimited
  }

  /** The fetcher's state together with the logs of what it did to the world. */
  datatype Fetch<T> = Fetch(
    offset: nat,
    totalCount: Option<int>,  // None until the first page has arrived
    hasMore: bool,
    buffer: seq<T>,           // records of the current page not yet yielded
    requests: seq<Request>,   // every query sent, in order
    sleeps: seq<real>)        // every wait, in seconds, in order

  /** The state `QueryManager.__init__` sets up: nothing fetched, sent or
      waited yet, no total known, and a page query due. */
  function Initial<T>(): (r: Fetch<T>)
    ensures r.offset == 0 && r.totalCount.None? && r.hasMore && r.buffer == []
    ensures r.requests == [] && r.sleeps == []
  {
    Fetch(0, None, true, [], [], [])
  }

  // ---------------------------------------------------------------------
  // The retry loop of `_query_page`

  /** What the retry loop ends with: the response that stopped it, how many
      queries it sent and the waits between them. */
  datatype Attempt<T> = Attempt(response: Response<T>, calls: nat, sleeps: seq<real>)

  /** The retry loop entered with `retries` retries already spent and the
      next wait `delay`, sending `req` as query number `call`. */
  function Retry<T>(src: Source<T>, req: Request, call: nat, retries: nat, delay: real): (r: Attempt<T>)
    requires retries <= MaxRetries
    ensures r.calls == |r.sleeps| + 1 && |r.sleeps| <= MaxRetries - retries
    decreases MaxRetries - retries
  {
    var response := src(req, call);
    if Retryable(response) && retries < MaxRetries then
      var rest := Retry(src, req, call + 1, retries + 1, delay * 2.0);
      Attempt(rest.response, rest.calls + 1, [delay] + rest.sleeps)
    else
      Attempt(response, 1, [])
  }

  function Pow2(k: nat): real {
    if k == 0 then 1.0 else 2.0 * Pow2(k - 1)
  }

  /** `n` waits, the first `d` and each one twice the one before. */
  function Doubling(d: real, n: nat): seq<real>
    decreases n
  {
    if n == 0 then [] else [d] + Doubling(d * 2.0, n - 1)
  }

  /** The k-th wait of a doubling series is d * 2^k. */
  lemma {:induction false} DoublingAt(d: real, n: nat, k: nat)
    requires k < n
    ensures |Doubling(d, n)| == n && Doubling(d, n)[k] == d * Pow2(k)
    decreases n
  {
    if k == 0 {
      DoublingLength(d, n);
    } else {
      DoublingAt(d * 2.0, n - 1, k - 1);
      assert (d * 2.0) * Pow2(k - 1) == d * (2.0 * Pow2(k - 1));
    }
  }

  lemma {:induction false} DoublingLength(d: real, n: nat)
    ensures |Doubling(d, n)| == n
    decreases n
  {
    if n > 0 {
      DoublingLength(d * 2.0, n - 1);
    }
  }

  /** A doubling series grows by d * 2^n at its end. */
  lemma {:induction false} DoublingSnoc(d: real, n: nat)
    ensures Doubling(d, n + 1) == Doubling(d, n) + [d * Pow2(n)]
    decreases n
  {
    if n == 0 {
      assert Doubling(d * 2.0, 0) == [];
    } else {
      var e, m := d * 2.0, n - 1;
      DoublingSnoc(e, m);
      assert m + 1 == n;
      assert d * Pow2(n) == e * Pow2(m);
      assert Doubling(d, n) == [d] + Doubling(e, m);
    }
  }

  /** The retry budget: the loop sends at most MaxRetries + 1 queries, one
      more than it waits; the response it ends with answers the last query and is a rate limit only
      once the budget is spent. */
  lemma {:induction false} RetryBudget<T>(src: Source<T>, req: Request, call: nat, retries: nat, delay: real)
    requires retries <= MaxRetries
    ensures var a := Retry(src, req, call, retries, delay);
      && a.calls == |a.sleeps| + 1
      && |a.sleeps| <= MaxRetries - retries
      && a.response == src(req, call + |a.sleeps|)
      && (Retryable(a.response) ==> |a.sleeps| == MaxRetries - retries)
    decreases MaxRetries - retries
  {
    if Retryable(src(req, call)) && retries < MaxRetries {
      RetryBudget(src, req, call + 1, retries + 1, delay * 2.0);
    }
  }

  /** Every query the retry loop sent before its last was rate-limited. */
  lemma {:induction false} RetryLimitedBefore<T>(src: Source<T>, req: Request, call: nat, retries: nat, delay: real)
    requires retries <= MaxRetries
    ensures var a := Retry(src, req, call, retries, delay);
      forall k :: call <= k < call + |a.sleeps| ==> Retryable(src(req, k))
    decreases MaxRetries - retries
  {
    if Retryable(src(req, call)) && retries < MaxRetries {
      RetryLimitedBefore(src, req, call + 1, retries + 1, delay * 2.0);
    }
  }

  /** The waits of the retry loop double from `delay`. */
  lemma {:induction false} RetryWaits<T>(src: Source<T>, req: Request, call: nat, retries: nat, delay: real)
    requires retries <= MaxRetries
    ensures var a := Retry(src, req, call, retries, delay);
      a.sleeps == Doubling(delay, |a.sleeps|)
    decreases MaxRetries - retries
  {
    if Retryable(src(req, call)) && retries < MaxRetries {
      RetryWaits(src, req, call + 1, retries + 1, delay * 2.0);
    }
  }

  /** If the query at `call` is rate-limited `n` times in a row, within the
      budget, and then answered, the loop ends with that answer after
      exactly `n` doubling waits. */
  lemma RetryRecovers<T>(src: Source<T>, req: Request, call: nat, retries: nat, delay: real, n: nat)
    requires retries <= MaxRetries && n <= MaxRetries - retries
    requires forall k :: call <= k < call + n ==> Retryable(src(req, k))
    requires !Retryable(src(req, call + n))
    ensures Retry(src, req, call, retries, delay) == Attempt(src(req, call + n), n + 1, Doubling(delay, n))
  {
    RetryBudget(src, req, call, retries, delay);
    RetryLimitedBefore(src, req, call, retries, delay);
    RetryWaits(src, req, call, retries, delay);
  }

  /** If every query the budget allows is rate-limited, the loop gives up
      with the rate limit after MaxRetries waits, without a further wait. */
  lemma RetryGivesUp<T>(src: Source<T>, req: Request, call: nat, retries: nat, delay: real)
    requires retries <= MaxRetries
    requires forall k :: call <= k <= call + MaxRetries - retries ==> Retryable(src(req, k))
    ensures var a := Retry(src, req, call, retries, delay);
      && Retryable(a.response)
      && a.calls == MaxRetries - retries + 1
      && a.sleeps == Doubling(delay, MaxRetries - retries)
  {
    RetryBudget(src, req, call, retries, delay);
    RetryWaits(src, req, call, retries, delay);
  }

  /** The loop ends at the query `n` retries in: either it is answered
      without a rate limit, or the budget is spent. */
  lemma RetryEnds<T>(src: Source<T>, req: Request, call: nat, n: nat)
    requires n <= MaxRetries
    requires forall k :: call <= k < call + n ==> Retryable(src(req, k))
    requires Retryable(src(req, call + n)) ==> n == MaxRetries
    ensures Retry(src, req, call, 0, BackoffInitial) == Attempt(src(req, call + n), n + 1, Doubling(BackoffInitial, n))
  {
    if Retryable(src(req, call + n)) {
      RetryGivesUp(src, req, call, 0, BackoffInitial);
      RetryBudget(src, req, call, 0, BackoffInitial);
    } else {
      RetryRecovers(src, req, call, 0, BackoffInitial, n);
    }
  }

  // ---------------------------------------------------------------------
  // One page query: `_query_page`

  /** A page query's new state and the error it raised, if any. */
  datatype Paged<T> = Paged(state: Fetch<T>, fault: Option<Error>)

  /** `_query_page`: send the page request at the current offset through the
      retry loop; on an answer, fix the total on the first page only, move
      the offset past the page and recompute `hasMore`. An answer whose
      `hasMore` holds has a non-empty page. */
  function FetchPage<T>(src: Source<T>, s: Fetch<T>): (r: Paged<T>)
    ensures r.fault.None? && r.state.hasMore ==> |r.state.buffer| > 0
    ensures r.fault.Some? ==> r.state.buffer == s.buffer && r.state.hasMore == s.hasMore
  {
    var req := Request(PageSize, s.offset);
    var a := Retry(src, req, |s.requests|, 0, BackoffInitial);
    var logged := s.(requests := s.requests + seq(a.calls, _ => req), sleeps := s.sleeps + a.sleeps);
    match a.response
    case Failure(e) => Paged(logged, Some(e))
    case Page(declared, listed) =>
      var edges := listed.GetOr([]);
      var total := if s.totalCount.None? then declared.GetOr(0) else s.totalCount.value;
      var offset := s.offset + |edges|;
      Paged(logged.(totalCount := Some(total), offset := offset,
                    hasMore := |edges| > 0 && offset < total, buffer := edges), None)
  }

  /** Every query of a page asks for PageSize records at the current offset;
      at most MaxRetries + 1 are sent, and the waits between them are
      BackoffInitial, twice that, and so on. */
  lemma FetchPageRequests<T>(src: Source<T>, s: Fetch<T>)
    ensures var r := FetchPage(src, s).state;
      && |s.requests| < |r.requests| <= |s.requests| + MaxRetries + 1
      && r.requests[..|s.requests|] == s.requests
      && (forall i :: |s.requests| <= i < |r.requests| ==> r.requests[i] == Request(PageSize, s.offset))
      && r.sleeps == s.sleeps + Doubling(BackoffInitial, |r.requests| - |s.requests| - 1)
  {
    RetryBudget(src, Request(PageSize, s.offset), |s.requests|, 0, BackoffInitial);
    RetryWaits(src, Request(PageSize, s.offset), |s.requests|, 0, BackoffInitial);
  }

  /** A page that arrives is the answer to the last query sent; the offset
      moves by exactly its size; the total is taken from the first page
      (0 when absent) and never changes afterwards; and `hasMore` holds
      exactly when the page was non-empty and the offset is still below the
      total. */
  lemma FetchPageSuccess<T>(src: Source<T>, s: Fetch<T>)
    requires FetchPage(src, s).fault.None?
    ensures var r := FetchPage(src, s).state;
      var last := src(Request(PageSize, s.offset), |r.requests| - 1);
      && |r.requests| > 0
      && last.Page? && r.buffer == last.edges.GetOr([])
      && r.offset == s.offset + |r.buffer|
      && (s.totalCount.None? ==> r.totalCount == Some(last.totalCount.GetOr(0)))
      && (s.totalCount.Some? ==> r.totalCount == s.totalCount)
      && r.totalCount.Some?
      && (r.hasMore <==> |r.buffer| > 0 && r.offset < r.totalCount.value)
  {
    RetryBudget(src, Request(PageSize, s.offset), |s.requests|, 0, BackoffInitial);
  }

  /** A raised error is the answer to the last query; it leaves offset,
      total, `hasMore` and buffer as they were; a rate limit is raised only
      after all MaxRetries waits. */
  lemma FetchPageFailure<T>(src: Source<T>, s: Fetch<T>)
    requires FetchPage(src, s).fault.Some?
    ensures var r := FetchPage(src, s);
      && |r.state.requests| > 0
      && src(Request(PageSize, s.offset), |r.state.requests| - 1) == Failure(r.fault.value)
      && r.state.offset == s.offset && r.state.totalCount == s.totalCount
      && r.state.hasMore == s.hasMore && r.state.buffer == s.buffer
      && (r.fault.value == RateLimited ==> |r.state.sleeps| == |s.sleeps| + MaxRetries)
  {
    RetryBudget(src, Request(PageSize, s.offset), |s.requests|, 0, BackoffInitial);
  }

  /** Any error other than a rate limit is raised at its first occurrence:
      one query, no wait, and the fetcher's position as it was. */
  lemma OtherErrorRaisedAtOnce<T>(src: Source<T>, s: Fetch<T>)
    requires src(Request(PageSize, s.offset), |s.requests|) == Failure(OtherError)
    ensures FetchPage(src, s) == Paged(s.(requests := s.requests + [Request(PageSize, s.offset)]), Some(OtherError))
  {
    assert seq(1, _ => Request(PageSize, s.offset)) == [Request(PageSize, s.offset)];
  }

  /** Backoff that recovers: when the first `n` queries of a page (n at most
      MaxRetries) are rate-limited and the next is answered, the page query
      ends with that answer after n + 1 queries and the waits 1, 2, 4, ...
      seconds. */
  lemma BackoffRecovers<T>(src: Source<T>, s: Fetch<T>, n: nat)
    requires n <= MaxRetries
    requires forall k :: |s.requests| <= k < |s.requests| + n ==> Retryable(src(Request(PageSize, s.offset), k))
    requires !Retryable(src(Request(PageSize, s.offset), |s.requests| + n))
    ensures var r := FetchPage(src, s);
      && |r.state.requests| == |s.requests| + n + 1
      && r.state.sleeps == s.sleeps + Doubling(BackoffInitial, n)
      && (r.fault.None? <==> src(Request(PageSize, s.offset), |s.requests| + n).Page?)
  {
    RetryRecovers(src, Request(PageSize, s.offset), |s.requests|, 0, BackoffInitial, n);
  }

  /** Backoff that gives up: when six queries in a row are rate-limited the
      page query raises the rate limit after exactly six queries and five
      waits of 1, 2, 4, 8 and 16 seconds, leaving the position unchanged. */
  lemma BackoffGivesUp<T>(src: Source<T>, s: Fetch<T>)
    requires forall k :: |s.requests| <= k <= |s.requests| + MaxRetries ==> Retryable(src(Request(PageSize, s.offset), k))
    ensures var r := FetchPage(src, s);
      && r.fault == Some(RateLimited)
      && |r.state.requests| == |s.requests| + 6
      && r.state.sleeps == s.sleeps + [1.0, 2.0, 4.0, 8.0, 16.0]
      && r.state.offset == s.offset && r.state.totalCount == s.totalCount && r.state.buffer == s.buffer
  {
    RetryGivesUp(src, Request(PageSize, s.offset), |s.requests|, 0, BackoffInitial);
    assert Doubling(BackoffInitial, 5) == [1.0, 2.0, 4.0, 8.0, 16.0];
  }

  // ---------------------------------------------------------------------
  // One resumption of the `get_products` generator

  /** What one resumption of the generator produces. */
  datatype Yield<T> = Item(item: T) | Exhausted | Raised(error: Error)

  datatype Pulled<T> = Pulled(state: Fetch<T>, out: Yield<T>)

  /** `get_products` resumed once: yield the next buffered record; with the
      buffer empty, stop when `hasMore` is false, or else query a page and
      look again. */
  function Pull<T>(src: Source<T>, s: Fetch<T>): (r: Pulled<T>)
    ensures r.out.Exhausted? ==> r.state.buffer == [] && !r.state.hasMore
    ensures r.out.Raised? ==> r.state.buffer == []
    decreases if |s.buffer| == 0 && s.hasMore then 1 else 0
  {
    if |s.buffer| > 0 then Pulled(s.(buffer := s.buffer[1..]), Item(s.buffer[0]))
    else if !s.hasMore then Pulled(s, Exhausted)
    else
      var p := FetchPage(src, s);
      if p.fault.Some? then Pulled(p.state, Raised(p.fault.value))
      else Pull(src, p.state)
  }

  /** The first resumption of a fresh fetcher always queries the page at
      offset 0. */
  lemma FirstPullQueries<T>(src: Source<T>)
    ensures var r := Pull(src, Initial<T>()).state;
      |r.requests| > 0 && r.requests[0] == Request(PageSize, 0)
  {
    FetchPageRequests(src, Initial<T>());
  }

  /** Records consumed so far (offset minus buffered) grow by one per
      yielded record and otherwise stay put. */
  lemma PullCounts<T>(src: Source<T>, s: Fetch<T>)
    ensures var p := Pull(src, s);
      p.state.offset + |s.buffer| == s.offset + |p.state.buffer| + (if p.out.Item? then 1 else 0)
  {
    if |s.buffer| == 0 && s.hasMore {
      var p := FetchPage(src, s);
      if p.fault.Some? {
        FetchPageFailure(src, s);
      } else {
        FetchPageSuccess(src, s);
      }
    }
  }

  function Unstarted<T>(s: Fetch<T>): nat {
    if s.totalCount.None? then 1 else 0
  }

  /** Upper bound, plus one, on the records still to be fetched once the
      total is known; 0 once `hasMore` is false. */
  function Budget<T>(s: Fetch<T>): nat {
    if !s.hasMore || s.totalCount.None? then 0
    else if s.offset < s.totalCount.value then s.totalCount.value - s.offset + 1
    else 1
  }

  /** Every yielded record makes progress: the first page fixes the total,
      each later page either shrinks the distance to the total or clears
      `hasMore`, and otherwise the buffer shrinks. So against any source the
      generator yields finitely many records. */
  lemma PullProgress<T>(src: Source<T>, s: Fetch<T>)
    requires Pull(src, s).out.Item?
    ensures var t := Pull(src, s).state;
      || Unstarted(t) < Unstarted(s)
      || (Unstarted(t) == Unstarted(s) && Budget(t) < Budget(s))
      || (Unstarted(t) == Unstarted(s) && Budget(t) == Budget(s) && |t.buffer| < |s.buffer|)
  {
    if |s.buffer| == 0 {
      FetchPageSuccess(src, s);
    }
  }

  // ---------------------------------------------------------------------
  // A whole pass: `for product in get_products()`

  /** Everything a pass yields, the state it ends in and the error that
      ended it, if any. */
  datatype Pass<T> = Pass(items: seq<T>, last: Fetch<T>, fault: Option<Error>)

  /** Resume the generator until it stops or raises. A pass always ends
      with the buffer used up, and one that raises nothing ends with
      `hasMore` false. */
  function Drain<T>(src: Source<T>, s: Fetch<T>): (r: Pass<T>)
    ensures r.last.buffer == [] && (r.fault.None? ==> !r.last.hasMore)
    decreases Unstarted(s), Budget(s), |s.buffer|
  {
    var p := Pull(src, s);
    match p.out
    case Exhausted => Pass([], p.state, None)
    case Raised(e) => Pass([], p.state, Some(e))
    case Item(x) =>
      PullProgress(src, s);
      var rest := Drain(src, p.state);
      Pass([x] + rest.items, rest.last, rest.fault)
  }

  /** `items` were yielded on the way from `start` to `s`: the pass from
      `start` is those records followed by the pass from `s`. */
  ghost predicate DrainsVia<T>(src: Source<T>, start: Fetch<T>, items: seq<T>, s: Fetch<T>) {
    var rest := Drain(src, s);
    Drain(src, start) == Pass(items + rest.items, rest.last, rest.fault)
  }

  /** A resumption that yields a record extends the records on the way. */
  lemma DrainItem<T>(src: Source<T>, start: Fetch<T>, items: seq<T>, s: Fetch<T>)
    requires DrainsVia(src, start, items, s) && Pull(src, s).out.Item?
    ensures DrainsVia(src, start, items + [Pull(src, s).out.item], Pull(src, s).state)
  {
    var p := Pull(src, s);
    PullProgress(src, s);
    var rest := Drain(src, p.state);
    assert Drain(src, s) == Pass([p.out.item] + rest.items, rest.last, rest.fault);
    assert items + ([p.out.item] + rest.items) == (items + [p.out.item]) + rest.items;
  }

  /** A resumption that stops or raises ends the pass with the records on
      the way, in the state it leaves and with the error it raised. */
  lemma DrainStop<T>(src: Source<T>, start: Fetch<T>, items: seq<T>, s: Fetch<T>)
    requires DrainsVia(src, start, items, s) && !Pull(src, s).out.Item?
    ensures var p := Pull(src, s);
      Drain(src, start) == Pass(items, p.state, if p.out.Raised? then Some(p.out.error) else None)
  {
    assert items + [] == items;
  }

  /** The records already buffered are yielded, in order, before anything
      else happens, whatever `hasMore` says. */
  lemma {:induction false} DrainYieldsBufferFirst<T>(src: Source<T>, s: Fetch<T>)
    ensures s.buffer <= Drain(src, s).items
    decreases |s.buffer|
  {
    if |s.buffer| > 0 {
      var t := s.(buffer := s.buffer[1..]);
      assert Pull(src, s) == Pulled(t, Item(s.buffer[0]));
      PullProgress(src, s);
      DrainYieldsBufferFirst(src, t);
      assert Drain(src, s).items == [s.buffer[0]] + Drain(src, t).items;
      assert s.buffer == [s.buffer[0]] + t.buffer;
    }
  }

  /** Once `hasMore` is false no query is sent again: the pass yields just
      the buffer and ends without an error. */
  lemma {:induction false} DrainAfterEnd<T>(src: Source<T>, s: Fetch<T>)
    requires !s.hasMore
    ensures Drain(src, s) == Pass(s.buffer, s.(buffer := []), None)
    decreases |s.buffer|
  {
    if |s.buffer| > 0 {
      var t := s.(buffer := s.buffer[1..]);
      assert Pull(src, s) == Pulled(t, Item(s.buffer[0]));
      PullProgress(src, s);
      DrainAfterEnd(src, t);
      assert s.buffer == [s.buffer[0]] + t.buffer;
    }
  }

  /** A pass ends with an empty buffer and an offset that counts exactly
      the records it yielded beyond those consumed before it. From the
      initial state the offset equals the number of records yielded. */
  lemma {:induction false} DrainAccounting<T>(src: Source<T>, s: Fetch<T>)
    ensures var r := Drain(src, s);
      r.last.buffer == [] && r.last.offset + |s.buffer| == s.offset + |r.items|
    decreases Unstarted(s), Budget(s), |s.buffer|
  {
    var p := Pull(src, s);
    PullCounts(src, s);
    match p.out
    case Exhausted =>
    case Raised(e) =>
      FetchPageFailure(src, s);
    case Item(x) =>
      PullProgress(src, s);
      DrainAccounting(src, p.state);
  }

  // ---------------------------------------------------------------------
  // A pass against a listing that serves a fixed catalog

  function Min(a: int, b: int): int {
    if a <= b then a else b
  }

  /** The slice of catalog `c` that a faithful listing answers `req` with. */
  function CatalogPage<T>(c: seq<T>, req: Request): seq<T> {
    c[Min(req.after, |c|)..Min(req.after + req.first, |c|)]
  }

  /** The listing of a fixed catalog: it never fails and answers every
      query with the catalog's size and the requested slice of it. */
  function Listing<T>(c: seq<T>): Source<T> {
    (req: Request, call: nat) => Page(Some(|c|), Some(CatalogPage(c, req)))
  }

  /** The page requests sent from offset `o` on against `n` records. */
  function Walk(o: nat, n: nat): seq<Request>
    decreases n - o
  {
    if o >= n then [] else [Request(PageSize, o)] + Walk(o + PageSize, n)
  }

  /** A state reached after the first page of catalog `c`: the total is
      the catalog's size, the buffer holds the records just before the
      offset, and `hasMore` says whether records remain. */
  ghost predicate Mirrors<T>(c: seq<T>, s: Fetch<T>) {
    && s.totalCount == Some(|c|)
    && |s.buffer| <= s.offset <= |c|
    && s.buffer == c[s.offset - |s.buffer|..s.offset]
    && s.hasMore == (s.offset < |c|)
  }

  /** A faithful listing answers a page query at the first attempt, with
      the slice at the current offset. */
  lemma FetchCatalogPage<T>(c: seq<T>, s: Fetch<T>)
    ensures var req := Request(PageSize, s.offset);
      var page := CatalogPage(c, req);
      var total := if s.totalCount.None? then |c| else s.totalCount.value;
      var offset := s.offset + |page|;
      FetchPage(Listing(c), s) == Paged(s.(requests := s.requests + [req], totalCount := Some(total),
                                    offset := offset, hasMore := |page| > 0 && offset < total,
                                    buffer := page), None)
  {
    var req := Request(PageSize, s.offset);
    RetryRecovers(Listing(c), req, |s.requests|, 0, BackoffInitial, 0);
    assert seq(1, _ => req) == [req];
  }

  /** With records buffered, a resumption yields the first of them and
      changes nothing else. */
  lemma PullBuffered<T>(src: Source<T>, s: Fetch<T>)
    requires |s.buffer| > 0
    ensures Pull(src, s) == Pulled(s.(buffer := s.buffer[1..]), Item(s.buffer[0]))
  {
  }

  /** A state that must query the page at its offset, before or after the
      first page of catalog `c`, with records of `c` left. */
  ghost predicate Due<T>(c: seq<T>, s: Fetch<T>) {
    && (s.totalCount.None? || s.totalCount == Some(|c|))
    && s.buffer == [] && s.hasMore && s.offset < |c|
  }

  /** With the buffer empty and records left, a faithful listing's page
      arrives at the first attempt, holds the records from the offset on and
      leaves a state past the first page. */
  lemma FetchMirrors<T>(c: seq<T>, s: Fetch<T>)
    requires Due(c, s)
    ensures var p := FetchPage(Listing(c), s);
      && p.fault.None?
      && s.offset < p.state.offset
      && p.state.buffer == c[s.offset..p.state.offset]
      && Mirrors(c, p.state)
  {
    FetchCatalogPage(c, s);
    var q := FetchPage(Listing(c), s).state;
    assert q.buffer == c[s.offset..Min(s.offset + PageSize, |c|)];
  }

  /** ... and it costs exactly the next request of the walk and no wait. */
  lemma FetchMirrorsLog<T>(c: seq<T>, s: Fetch<T>)
    requires Due(c, s)
    ensures var p := FetchPage(Listing(c), s);
      && p.state.requests + Walk(p.state.offset, |c|) == s.requests + Walk(s.offset, |c|)
      && p.state.sleeps == s.sleeps
  {
    var req := Request(PageSize, s.offset);
    var q := FetchPage(Listing(c), s).state;
    assert q.requests == s.requests + [req] && q.offset == Min(s.offset + PageSize, |c|) && q.sleeps == s.sleeps by {
      FetchCatalogPage(c, s);
    }
    WalkStep(s.requests, s.offset, |c|);
  }

  /** Sending the query at an offset below the total, then walking on from
      the end of that page, is the walk from that offset. */
  lemma WalkStep(sent: seq<Request>, o: nat, n: nat)
    requires o < n
    ensures (sent + [Request(PageSize, o)]) + Walk(Min(o + PageSize, n), n) == sent + Walk(o, n)
  {
    assert Walk(Min(o + PageSize, n), n) == Walk(o + PageSize, n);
  }

  /** With the buffer empty and records left, a resumption against a
      faithful listing sends one request, waits for nothing, yields the
      record at the offset and reaches another state past the first page. */
  lemma PullMirrorsFetch<T>(c: seq<T>, s: Fetch<T>)
    requires Due(c, s)
    ensures var p := Pull(Listing(c), s);
      && p.out == Item(c[s.offset])
      && Mirrors(c, p.state)
      && p.state.offset - |p.state.buffer| == s.offset + 1
      && p.state.requests + Walk(p.state.offset, |c|) == s.requests + Walk(s.offset, |c|)
      && p.state.sleeps == s.sleeps
  {
    FetchMirrors(c, s);
    FetchMirrorsLog(c, s);
    var q := FetchPage(Listing(c), s).state;
    assert Pull(Listing(c), s) == Pull(Listing(c), q);
    PullBuffered(Listing(c), q);
  }

  /** From a state past the first page, a faithful listing makes the pass
      yield the rest of the catalog (buffer included), with no waits, one
      request per remaining page, and an offset that ends at the total. */
  lemma {:induction false} DrainMirrors<T>(c: seq<T>, s: Fetch<T>)
    requires Mirrors(c, s)
    ensures var r := Drain(Listing(c), s);
      && r.items == c[s.offset - |s.buffer|..]
      && r.fault.None?
      && r.last.requests == s.requests + Walk(s.offset, |c|)
      && r.last.sleeps == s.sleeps
      && r.last.offset == |c|
    decreases Budget(s), |s.buffer|
  {
    if |s.buffer| > 0 || s.hasMore {
      if |s.buffer| > 0 {
        PullBuffered(Listing(c), s);
      } else {
        PullMirrorsFetch(c, s);
      }
      PullProgress(Listing(c), s);
      var t := Pull(Listing(c), s).state;
      DrainMirrors(c, t);
      assert c[s.offset - |s.buffer|..] == [c[s.offset - |s.buffer|]] + c[t.offset - |t.buffer|..];
    }
  }

  /** The first resumption against a faithful listing of a non-empty
      catalog yields its first record and reaches a state past the first
      page. */
  lemma FirstPullMirrors<T>(c: seq<T>)
    requires |c| > 0
    ensures var p := Pull(Listing(c), Initial<T>());
      && p.out == Item(c[0])
      && Mirrors(c, p.state)
      && p.state.offset - |p.state.buffer| == 1
      && p.state.requests + Walk(p.state.offset, |c|) == Walk(0, |c|)
      && p.state.sleeps == []
  {
    PullMirrorsFetch(c, Initial<T>());
    assert [] + Walk(0, |c|) == Walk(0, |c|);
  }

  /** A pass over a listing that serves catalog `c` yields exactly `c`, in
      order, without a single wait, querying offsets 0, PageSize,
      2 * PageSize, ... and stopping after the page that reaches the total;
      an empty catalog costs one query. */
  lemma FullPass<T>(c: seq<T>)
    ensures var r := Drain(Listing(c), Initial<T>());
      && r.items == c
      && r.fault.None?
      && r.last.sleeps == []
      && r.last.offset == |c|
      && r.last.requests == (if |c| == 0 then [Request(PageSize, 0)] else Walk(0, |c|))
  {
    if |c| > 0 {
      NonEmptyPass(c);
    } else {
      EmptyPass(c);
    }
  }

  lemma NonEmptyPass<T>(c: seq<T>)
    requires |c| > 0
    ensures var r := Drain(Listing(c), Initial<T>());
      && r.items == c && r.fault.None? && r.last.sleeps == [] && r.last.offset == |c|
      && r.last.requests == Walk(0, |c|)
  {
    var s0 := Initial<T>();
    FirstPullMirrors(c);
    PullProgress(Listing(c), s0);
    var t := Pull(Listing(c), s0).state;
    DrainMirrors(c, t);
    assert c == [c[0]] + c[1..];
  }

  /** An empty page ends the pass, whatever total was declared: once a page
      query succeeds with no records, the pass sends no further query and
      yields nothing, even if the offset is still below the total. */
  lemma EmptyPageEndsPass<T>(src: Source<T>, s: Fetch<T>)
    requires s.buffer == [] && s.hasMore
    requires FetchPage(src, s).fault.None? && FetchPage(src, s).state.buffer == []
    ensures Drain(src, s) == Pass([], FetchPage(src, s).state, None)
  {
    var t := FetchPage(src, s).state;
    FetchPageSuccess(src, s);
    assert Pull(src, t) == Pulled(t, Exhausted);
    assert Pull(src, s) == Pulled(t, Exhausted);
  }

  /** A listing that declares 500 records but answers the first query with
      an empty page: the pass ends after that one query, yields nothing, and
      stops at offset 0, short of the declared total. */
  lemma EmptyPageShortOfTotal<T>(src: Source<T>)
    requires forall req, call :: src(req, call) == Page(Some(500), Some([]))
    ensures var r := Drain(src, Initial<T>());
      && r.items == [] && r.fault.None? && r.last.offset == 0
      && r.last.totalCount == Some(500) && r.last.requests == [Request(PageSize, 0)]
      && r.last.sleeps == []
  {
    var s0 := Initial<T>();
    assert src(Request(PageSize, 0), 0) == Page(Some(500), Some([]));
    EmptyPageEndsPass(src, s0);
  }

  /** The empty catalogue: the faithful listing answers the first query with
      an empty page, and the pass ends there. */
  lemma EmptyPass<T>(c: seq<T>)
    requires |c| == 0
    ensures var r := Drain(Listing(c), Initial<T>());
      && r.items == c && r.fault.None? && r.last.sleeps == [] && r.last.offset == |c|
      && r.last.requests == [Request(PageSize, 0)]
  {
    var s0 := Initial<T>();
    FetchCatalogPage(c, s0);
    EmptyPageEndsPass(Listing(c), s0);
  }

  /** 250 records at 100 per page: exactly three queries, at offsets 0,
      100 and 200, answered with 100, 100 and 50 records. */
  lemma TwoHundredFifty<T>(c: seq<T>)
    requires |c| == 250
    ensures var r := Drain(Listing(c), Initial<T>());
      && r.items == c
      && r.last.requests == [Request(100, 0), Request(100, 100), Request(100, 200)]
      && |CatalogPage(c, r.last.requests[0])| == 100
      && |CatalogPage(c, r.last.requests[1])| == 100
      && |CatalogPage(c, r.last.requests[2])| == 50
  {
    FullPass(c);
    ThreePages();
  }

  lemma ThreePages()
    ensures Walk(0, 250) == [Request(100, 0), Request(100, 100), Request(100, 200)]
  {
    assert Walk(300, 250) == [];
  }
}
