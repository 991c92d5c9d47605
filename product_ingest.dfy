/** `QueryManager` of ProductIngest.py: the paginated fetcher as an object
    whose methods update its fields in place. Each method is proved to do
    what the Paging function of the same step specifies, so every lemma
    proved there holds of the object. */
module ProductIngest {
  import opened Wrappers
  import opened Paging

  class QueryManager<T> {
    /** The remote listing behind the GraphQL client. */
    const source: Source<T>

    var offset: nat
    var totalCount: Option<int>
    var hasMore: bool
    /** What is left of the iterator over the current page. */
    var currentProducts: seq<T>
    /** The queries sent to the listing, in order (the outside world's view of the client). */
    var requests: seq<Request>
    /** The `time.sleep` calls made, in order. */
    var sleeps: seq<real>

    /** Every record the generator has yielded so far. */
    ghost var yielded: seq<T>

    /** The fields as a Paging state. */
    function State(): Fetch<T>
      reads this
    {
      Fetch(offset, totalCount, hasMore, currentProducts, requests, sleeps)
    }

    /** The offset counts every record yielded or still buffered; before the
        first page nothing has moved; every query asks for a full page. */
    ghost predicate Valid()
      reads this
    {
      && offset == |yielded| + |currentProducts|
      && (totalCount.None? ==> offset == 0 && hasMore && currentProducts == [])
      && (forall i :: 0 <= i < |requests| ==> requests[i].first == PageSize)
    }

    /** `__init__`: offset 0, more to come, no total yet and an empty iterator. */
    constructor (source: Source<T>)
      ensures Valid() && this.source == source && yielded == []
      ensures State() == Initial()
    {
      this.source := source;
      offset, totalCount, hasMore, currentProducts := 0, None, true, [];
      requests, sleeps := [], [];
      yielded := [];
    }

    /** The `while True` loop of `_query_page` around `_client.execute`:
        send `req`, and while the answer is a rate limit and fewer than
        MaxRetries retries were made, wait, double the wait and send it
        again. */
    method QueryWithBackoff(req: Request) returns (response: Response<T>)
      modifies this`requests, this`sleeps
      ensures var a := Retry(source, req, |old(requests)|, 0, BackoffInitial);
        && response == a.response
        && requests == old(requests) + seq(a.calls, _ => req)
        && sleeps == old(sleeps) + a.sleeps
    {
      var first := |requests|;
      var retries: nat := 0;
      var delay := BackoffInitial;
      var sent, waited := [req], [];
      response := source(req, first);
      while Retryable(response) && retries < MaxRetries
        invariant retries <= MaxRetries && unchanged(this)
        invariant sent == seq(retries + 1, _ => req)
        invariant waited == Doubling(BackoffInitial, retries)
        invariant delay == BackoffInitial * Pow2(retries)
        invariant response == source(req, first + retries)
        invariant forall k :: first <= k < first + retries ==> Retryable(source(req, k))
        decreases MaxRetries - retries
      {
        DoublingSnoc(BackoffInitial, retries);
        waited := waited + [delay];
        retries := retries + 1;
        delay := delay * 2.0;
        response := source(req, first + retries);
        sent := sent + [req];
      }
      RetryEnds(source, req, first, retries);
      requests := requests + sent;
      sleeps := sleeps + waited;
    }

    /** `_query_page`: query the page at the current offset through the
        retry loop, then take in the page: fix the total on the first page
        only, move the offset past the page, recompute `hasMore` and make
        the page the current iterator. Only called once the current page is
        used up. */
    method QueryPage() returns (fault: Option<Error>)
      requires Valid() && currentProducts == []
      modifies this
      ensures Valid() && yielded == old(yielded)
      ensures Paged(State(), fault) == FetchPage(source, old(State()))
    {
      var req := Request(PageSize, offset);
      var response := QueryWithBackoff(req);
      assert forall i :: |old(requests)| <= i < |requests| ==> requests[i] == req;
      match response
      case Failure(e) =>
        fault := Some(e);
      case Page(declared, listed) =>
        var edges := listed.GetOr([]);
        if totalCount.None? {
          totalCount := Some(declared.GetOr(0));
        }
        offset := offset + |edges|;
        hasMore := |edges| > 0 && offset < totalCount.value;
        currentProducts := edges;
        fault := None;
    }

    /** One resumption of the `get_products` generator: yield the next
        buffered record, or stop once the buffer is empty and `hasMore` is
        false, or query another page and look again. */
    method NextProduct() returns (y: Yield<T>)
      requires Valid()
      modifies this
      ensures Valid()
      ensures Pulled(State(), y) == Pull(source, old(State()))
      ensures yielded == old(yielded) + (if y.Item? then [y.item] else [])
    {
      while currentProducts == [] && hasMore
        invariant Valid() && yielded == old(yielded)
        invariant Pull(source, State()) == Pull(source, old(State()))
        decreases if currentProducts == [] && hasMore then 1 else 0
      {
        var fault := QueryPage();
        if fault.Some? {
          return Raised(fault.value);
        }
      }
      if currentProducts == [] {
        return Exhausted;
      }
      y := Item(currentProducts[0]);
      currentProducts := currentProducts[1..];
      yielded := yielded + [y.item];
    }

    /** Iterating `get_products` to the end: every record yielded, in order,
        and the error that cut the pass short, if any. */
    method GetProducts() returns (items: seq<T>, fault: Option<Error>)
      requires Valid()
      modifies this
      ensures Valid() && yielded == old(yielded) + items
      ensures Drain(source, old(State())) == Pass(items, State(), fault)
    {
      items, fault := [], None;
      var done := false;
      while !done
        invariant Valid() && yielded == old(yielded) + items
        invariant !done ==> fault.None? && DrainsVia(source, old(State()), items, State())
        invariant done ==> Drain(source, old(State())) == Pass(items, State(), fault)
        decreases !done, Unstarted(State()), Budget(State()), |currentProducts|
      {
        ghost var before := State();
        var y := NextProduct();
        match y
        case Item(x) =>
          PullProgress(source, before);
          DrainItem(source, old(State()), items, before);
          items := items + [x];
        case Exhausted =>
          DrainStop(source, old(State()), items, before);
          done := true;
        case Raised(e) =>
          DrainStop(source, old(State()), items, before);
          fault := Some(e);
          done := true;
      }
    }
  }
}
