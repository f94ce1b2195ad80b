/**
 The pagination loop of VirginMobile.iter_history_step: for one window it asks
 for pages 0, 1, 2, ... of 500 records each and stops right after the first
 page that comes back with fewer than 500 records. The HTTP service is a
 function from the request's parameters to the records it answers with.
 */
module Pagination {
  import opened Calendar
  import opened Entries

  /** The pageSize parameter of every request. */
  const PageSize: nat := 500

  /** The parameters of one callHistory GET: the msisdn header, the window
      bounds, the page index and the page size. */
  datatype Request = Request(number: string, start: int, end: int, page: nat, pageSize: nat)

  /** The remote service, seen through the records it answers a request with. */
  type Transport = Request -> seq<Entry>

  /** What a fetch did: the requests it sent, in order, and the records it yielded, in order. */
  datatype Trace = Trace(requests: seq<Request>, records: seq<Entry>)

  /** The request for page `page` of window `w`. */
  function PageRequest(number: string, w: Interval, page: nat): Request {
    Request(number, w.start, w.end, page, PageSize)
  }

  /** Some page of window `w` from `page` up to `bound` comes back short, so
      the loop started at `page` stops by page `bound`. Without such a page the
      source loops forever. */
  predicate ShortWithin(t: Transport, number: string, w: Interval, page: nat, bound: nat) {
    exists k :: page <= k <= bound && |t(PageRequest(number, w, k))| < PageSize
  }

  /** A full page is not the short one, so the short page lies further on. */
  lemma ShortWithinNext(t: Transport, number: string, w: Interval, page: nat, bound: nat)
    requires ShortWithin(t, number, w, page, bound)
    requires |t(PageRequest(number, w, page))| >= PageSize
    ensures page + 1 <= bound && ShortWithin(t, number, w, page + 1, bound)
  {
    var k :| page <= k <= bound && |t(PageRequest(number, w, k))| < PageSize;
    assert k != page;
  }

  /** A later bound is still a bound. */
  lemma ShortWithinWiden(t: Transport, number: string, w: Interval, page: nat, bound: nat, bound2: nat)
    requires ShortWithin(t, number, w, page, bound) && bound <= bound2
    ensures ShortWithin(t, number, w, page, bound2)
  {
    var k :| page <= k <= bound && |t(PageRequest(number, w, k))| < PageSize;
    assert page <= k <= bound2;
  }

  /** The records a run of requests is answered with, concatenated in request order. */
  function Served(t: Transport, reqs: seq<Request>): seq<Entry> {
    if reqs == [] then [] else t(reqs[0]) + Served(t, reqs[1..])
  }

  lemma {:induction false} ServedAppend(t: Transport, a: seq<Request>, b: seq<Request>)
    ensures Served(t, a + b) == Served(t, a) + Served(t, b)
  {
    if a == [] {
      assert a + b == b;
    } else {
      TailOfAppend(a, b);
      ServedAppend(t, a[1..], b);
    }
  }

  /** The loop from page `page` on: one request per page, same window and page
      size throughout, until the first short page, whose records are the last
      ones yielded. */
  function FetchFrom(t: Transport, number: string, w: Interval, page: nat, bound: nat): (f: Trace)
    requires ShortWithin(t, number, w, page, bound)
    ensures 1 <= |f.requests| <= bound - page + 1
    ensures forall k :: 0 <= k < |f.requests| ==> f.requests[k] == PageRequest(number, w, page + k)
    ensures forall k :: 0 <= k < |f.requests| - 1 ==> |t(f.requests[k])| >= PageSize
    ensures |t(f.requests[|f.requests| - 1])| < PageSize
    ensures f.records == Served(t, f.requests)
    decreases bound - page
  {
    var req := PageRequest(number, w, page);
    var records := t(req);
    if |records| < PageSize then
      assert Served(t, [req]) == records + Served(t, []);
      Trace([req], records)
    else
      ShortWithinNext(t, number, w, page, bound);
      var rest := FetchFrom(t, number, w, page + 1, bound);
      FullPageFirst(t, number, w, page, rest.requests);
      Trace([req] + rest.requests, records + rest.records)
  }

  /** Putting a full page `page` in front of a run of requests for pages
      page+1, page+2, ... keeps the pages consecutive, keeps every page but
      the last full, and puts the page's records first. */
  lemma FullPageFirst(t: Transport, number: string, w: Interval, page: nat, reqs: seq<Request>)
    requires reqs != []
    requires forall k :: 0 <= k < |reqs| ==> reqs[k] == PageRequest(number, w, page + 1 + k)
    requires forall k :: 0 <= k < |reqs| - 1 ==> |t(reqs[k])| >= PageSize
    requires |t(PageRequest(number, w, page))| >= PageSize
    ensures var all := [PageRequest(number, w, page)] + reqs;
      && (forall k :: 0 <= k < |all| ==> all[k] == PageRequest(number, w, page + k))
      && (forall k :: 0 <= k < |all| - 1 ==> |t(all[k])| >= PageSize)
      && all[|all| - 1] == reqs[|reqs| - 1]
      && Served(t, all) == t(PageRequest(number, w, page)) + Served(t, reqs)
  {
    var all := [PageRequest(number, w, page)] + reqs;
    assert all[1..] == reqs;
    forall k | 1 <= k < |all| ensures all[k] == reqs[k - 1] {
    }
  }

  /** iter_history_step: the loop started at page 0. Request k asks for page k
      of window `w`; every page but the last was full; the records are every
      page's records, in page order and in-page order. */
  function FetchWindow(t: Transport, number: string, w: Interval, bound: nat): (f: Trace)
    requires ShortWithin(t, number, w, 0, bound)
    ensures 1 <= |f.requests| <= bound + 1
    ensures forall k :: 0 <= k < |f.requests| ==> f.requests[k] == Request(number, w.start, w.end, k, PageSize)
    ensures forall k :: 0 <= k < |f.requests| - 1 ==> |t(f.requests[k])| >= PageSize
    ensures |t(f.requests[|f.requests| - 1])| < PageSize
    ensures f.records == Served(t, f.requests)
  {
    FetchFrom(t, number, w, 0, bound)
  }

  /** Which page comes back short first is all that matters: any bound at or
      past it gives the same fetch. */
  lemma {:induction false} FetchBoundIrrelevant(t: Transport, number: string, w: Interval, page: nat, b1: nat, b2: nat)
    requires ShortWithin(t, number, w, page, b1)
    requires ShortWithin(t, number, w, page, b2)
    ensures FetchFrom(t, number, w, page, b1) == FetchFrom(t, number, w, page, b2)
    decreases b1 - page
  {
    FetchFromUnfold(t, number, w, page, b1);
    FetchFromUnfold(t, number, w, page, b2);
    if |t(PageRequest(number, w, page))| >= PageSize {
      ShortWithinNext(t, number, w, page, b1);
      ShortWithinNext(t, number, w, page, b2);
      FetchBoundIrrelevant(t, number, w, page + 1, b1, b2);
    }
  }

  /** One turn of the loop: a short page ends the fetch, a full one is
      followed by the fetch from the next page. */
  lemma FetchFromUnfold(t: Transport, number: string, w: Interval, page: nat, bound: nat)
    requires ShortWithin(t, number, w, page, bound)
    ensures var req := PageRequest(number, w, page);
      if |t(req)| < PageSize then FetchFrom(t, number, w, page, bound) == Trace([req], t(req))
      else
        && page + 1 <= bound
        && var rest := FetchFrom(t, number, w, page + 1, bound);
           FetchFrom(t, number, w, page, bound) == Trace([req] + rest.requests, t(req) + rest.records)
  {
    var req := PageRequest(number, w, page);
    if |t(req)| < PageSize {
      assert FetchFrom(t, number, w, page, bound) == Trace([req], t(req));
    } else {
      ShortWithinNext(t, number, w, page, bound);
      var rest := FetchFrom(t, number, w, page + 1, bound);
      assert FetchFrom(t, number, w, page, bound) == Trace([req] + rest.requests, t(req) + rest.records);
    }
  }

  /** A full page at `page` is followed by the fetch from the next page. */
  lemma FetchFromFullPage(t: Transport, number: string, w: Interval, page: nat, bound: nat)
    requires ShortWithin(t, number, w, page, bound)
    requires |t(PageRequest(number, w, page))| >= PageSize
    ensures page + 1 <= bound
    ensures var f, rest := FetchFrom(t, number, w, page, bound), FetchFrom(t, number, w, page + 1, bound);
      && f.records == t(PageRequest(number, w, page)) + rest.records
      && |f.requests| == 1 + |rest.requests|
  {
    ShortWithinNext(t, number, w, page, bound);
  }

  /** Page `k` of a service that holds `data` for the window: records k*500 up to (k+1)*500. */
  function PageOf(data: seq<Entry>, k: nat): (p: seq<Entry>)
    ensures |p| <= PageSize
  {
    var lo := if k * PageSize <= |data| then k * PageSize else |data|;
    var hi := if (k + 1) * PageSize <= |data| then (k + 1) * PageSize else |data|;
    data[lo..hi]
  }

  /** Where a paged service holds `data`, page n = floor(|data| / 500) is the
      first short page, and every page before it is full. */
  lemma PagedDataShape(data: seq<Entry>, p: nat)
    requires p <= |data| / PageSize
    ensures p < |data| / PageSize ==> PageOf(data, p) == data[p * PageSize..(p + 1) * PageSize]
    ensures p < |data| / PageSize ==> |PageOf(data, p)| == PageSize
    ensures p == |data| / PageSize ==> PageOf(data, p) == data[p * PageSize..]
    ensures p == |data| / PageSize ==> |PageOf(data, p)| < PageSize
  {
    var n := |data| / PageSize;
    assert n * PageSize <= |data| < (n + 1) * PageSize;
    assert p * PageSize <= n * PageSize;
    if p < n {
      assert (p + 1) * PageSize <= n * PageSize;
    }
  }

  lemma SliceSplit<T>(s: seq<T>, lo: int, hi: int)
    requires 0 <= lo <= hi <= |s|
    ensures s[lo..] == s[lo..hi] + s[hi..]
  {
  }

  /** A service that holds `data` and answers page `k` of any request with
      records k*500 up to (k+1)*500. */
  function PagedService(data: seq<Entry>): Transport {
    (r: Request) => PageOf(data, r.page)
  }

  /** Asking a paged service for pages p, p+1, ..., floor(|data| / 500), in
      that order, collects everything from record p*500 on. */
  lemma {:induction false} ServedPagedData(number: string, w: Interval, data: seq<Entry>, reqs: seq<Request>, p: nat)
    requires forall k :: 0 <= k < |reqs| ==> reqs[k] == PageRequest(number, w, p + k)
    requires p <= |data| / PageSize && p + |reqs| == |data| / PageSize + 1
    ensures Served(PagedService(data), reqs) == data[p * PageSize..]
    decreases |reqs|
  {
    var n := |data| / PageSize;
    var t := PagedService(data);
    PagedDataShape(data, p);
    var lo := p * PageSize;
    if p < n {
      var hi := lo + PageSize;
      assert hi == (p + 1) * PageSize;
      assert t(reqs[0]) == data[lo..hi];
      ServedPagedData(number, w, data, reqs[1..], p + 1);
      SliceSplit(data, lo, hi);
    } else {
      assert reqs == [reqs[0]];
      assert t(reqs[0]) == data[lo..];
    }
  }

  /** Against a service that pages through `data`, fetching from page `p`
      yields everything from record p*500 on, in floor(|data| / 500) - p + 1 requests. */
  lemma FetchFromPagedData(number: string, w: Interval, data: seq<Entry>, p: nat)
    requires p <= |data| / PageSize
    ensures ShortWithin(PagedService(data), number, w, p, |data| / PageSize)
    ensures var f := FetchFrom(PagedService(data), number, w, p, |data| / PageSize);
      && f.records == data[p * PageSize..]
      && |f.requests| == |data| / PageSize - p + 1
  {
    var t := PagedService(data);
    var n := |data| / PageSize;
    assert ShortWithin(t, number, w, p, n) by {
      PagedDataShape(data, n);
      assert |t(PageRequest(number, w, n))| < PageSize;
    }
    var f := FetchFrom(t, number, w, p, n);
    var last := |f.requests| - 1;
    assert f.requests[last] == PageRequest(number, w, p + last);
    ServedPagedData(number, w, data, f.requests, p);
  }

  /** Nothing is lost or repeated against a service that pages through `data`:
      the fetch yields `data` exactly, in floor(|data| / 500) + 1 requests; when
      |data| is a multiple of 500 the last request costs an empty page. */
  lemma FetchWindowPagedData(number: string, w: Interval, data: seq<Entry>)
    ensures ShortWithin(PagedService(data), number, w, 0, |data| / PageSize)
    ensures var t := PagedService(data);
      var f := FetchWindow(t, number, w, |data| / PageSize);
      && f.records == data
      && |f.requests| == |data| / PageSize + 1
      && (|data| % PageSize == 0 ==> t(f.requests[|f.requests| - 1]) == [])
  {
    FetchFromPagedData(number, w, data, 0);
    var n := |data| / PageSize;
    PagedDataShape(data, n);
  }
}
