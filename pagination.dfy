/**
 * Pagination with bounded retry over one list endpoint.
 *
 * Pages 1, 2, 3, ... are requested in turn; each page gets at most
 * MaxAttempts attempts, and the first answer with status 200 decides it.
 * Pagination stops at the first page that is abandoned after MaxAttempts
 * failures or whose items are empty, and returns the items of the pages
 * before it, in order.
 */
module Pagination {
  import opened Wrappers
  import opened GitHub

  /** Attempts allowed per page before pagination gives up. */
  const MaxAttempts: nat := 3

  /**
   * What the retry loop makes of one page: the body of the first answer with
   * status 200 and the number of requests that took, or Abandoned.
   */
  datatype PageFetch<T> = Fetched(items: seq<T>, attempts: nat) | Abandoned

  /** The retry loop for `page`, started at attempt `attempt`. */
  function FetchFrom<T>(respond: PageOracle<T>, page: nat, attempt: nat): (f: PageFetch<T>)
    requires attempt <= MaxAttempts
    ensures f.Fetched? ==>
              && attempt < f.attempts <= MaxAttempts
              && respond(page, f.attempts - 1).status == 200
              && f.items == respond(page, f.attempts - 1).body
    ensures forall a :: attempt <= a < (if f.Fetched? then f.attempts - 1 else MaxAttempts) ==>
              respond(page, a).status != 200
    decreases MaxAttempts - attempt
  {
    if attempt == MaxAttempts then Abandoned
    else if respond(page, attempt).status == 200 then Fetched(respond(page, attempt).body, attempt + 1)
    else FetchFrom(respond, page, attempt + 1)
  }

  function FetchPage<T>(respond: PageOracle<T>, page: nat): (f: PageFetch<T>)
  {
    FetchFrom(respond, page, 0)
  }

  /** After `attempt` failed attempts the retry loop's outcome is decided by the attempts still to come. */
  lemma {:induction false} FetchPageAfterFailures<T>(respond: PageOracle<T>, page: nat, attempt: nat)
    requires attempt <= MaxAttempts
    requires forall a :: 0 <= a < attempt ==> respond(page, a).status != 200
    ensures FetchPage(respond, page) == FetchFrom(respond, page, attempt)
    decreases attempt
  {
    if attempt > 0 {
      FetchPageAfterFailures(respond, page, attempt - 1);
    }
  }

  /** How many requests the retry loop sent for a page. */
  function Requests<T>(f: PageFetch<T>): (n: nat)
  {
    if f.Fetched? then f.attempts else MaxAttempts
  }

  function Items<T>(f: PageFetch<T>): (items: seq<T>)
  {
    if f.Fetched? then f.items else []
  }

  /** Page `page` ends pagination: it was abandoned, or it came back empty. */
  predicate StopsAt<T>(respond: PageOracle<T>, page: nat)
  {
    var f := FetchPage(respond, page);
    f.Abandoned? || |f.items| == 0
  }

  /** Some page ends pagination; without one the loop never returns. */
  ghost predicate Terminates<T>(respond: PageOracle<T>)
  {
    exists k: nat :: 1 <= k && StopsAt(respond, k)
  }

  /** No page before `k` ends pagination. */
  ghost predicate NoStopBefore<T>(respond: PageOracle<T>, k: nat)
  {
    forall p: nat :: 1 <= p < k ==> !StopsAt(respond, p)
  }

  lemma NoStopBeforeNext<T>(respond: PageOracle<T>, k: nat)
    requires NoStopBefore(respond, k) && !StopsAt(respond, k)
    ensures NoStopBefore(respond, k + 1)
  {
  }

  ghost predicate IsFirstStop<T>(respond: PageOracle<T>, k: nat)
  {
    && 1 <= k
    && StopsAt(respond, k)
    && NoStopBefore(respond, k)
  }

  lemma {:induction false} FirstStopExists<T>(respond: PageOracle<T>, b: nat)
    requires 1 <= b && StopsAt(respond, b)
    ensures exists k: nat :: IsFirstStop(respond, k)
    decreases b
  {
    if p: nat :| 1 <= p < b && StopsAt(respond, p) {
      FirstStopExists(respond, p);
    } else {
      assert IsFirstStop(respond, b);
    }
  }

  /** The page at which pagination ends. */
  ghost function FirstStop<T>(respond: PageOracle<T>): (k: nat)
    requires Terminates(respond)
    ensures IsFirstStop(respond, k)
  {
    var b: nat :| 1 <= b && StopsAt(respond, b);
    FirstStopExists(respond, b);
    var k: nat :| IsFirstStop(respond, k);
    k
  }

  lemma FirstStopUnique<T>(respond: PageOracle<T>, k: nat)
    requires IsFirstStop(respond, k)
    ensures Terminates(respond) && FirstStop(respond) == k
  {
    var j := FirstStop(respond);
    assert !(j < k) && !(k < j);
  }

  /** The items of pages 1 .. k-1, concatenated in page order. */
  function ItemsBefore<T>(respond: PageOracle<T>, k: nat): (items: seq<T>)
  {
    if k <= 1 then [] else ItemsBefore(respond, k - 1) + Items(FetchPage(respond, k - 1))
  }

  function Repeat<T>(x: T, n: nat): (r: seq<T>)
    ensures |r| == n && forall i :: 0 <= i < n ==> r[i] == x
  {
    seq(n, _ => x)
  }

  lemma RepeatOneMore<T>(x: T, n: nat)
    ensures Repeat(x, n) + [x] == Repeat(x, n + 1)
  {
  }

  /** The pages requested for pages 1 .. k, one entry per request, in order. */
  function RequestsThrough<T>(respond: PageOracle<T>, k: nat): (log: seq<nat>)
  {
    if k == 0 then [] else RequestsThrough(respond, k - 1) + Repeat(k, Requests(FetchPage(respond, k)))
  }

  /** What `fetch_paginated_data` returns. */
  ghost function Paginated<T>(respond: PageOracle<T>): (items: seq<T>)
    requires Terminates(respond)
  {
    ItemsBefore(respond, FirstStop(respond))
  }

  /** Every page request `fetch_paginated_data` sends, in order. */
  ghost function RequestLog<T>(respond: PageOracle<T>): (log: seq<nat>)
    requires Terminates(respond)
  {
    RequestsThrough(respond, FirstStop(respond))
  }

  /**
   * The retry loop for one page: at most MaxAttempts requests, stopping at the
   * first answer with status 200. `sent` records the page number once per
   * request sent.
   */
  method RequestPage<T>(respond: PageOracle<T>, page: nat) returns (response: Option<Response<seq<T>>>, sent: seq<nat>)
    ensures sent == Repeat(page, Requests(FetchPage(respond, page)))
    ensures FetchPage(respond, page).Abandoned? <==> response.None? || response.value.status != 200
    ensures FetchPage(respond, page).Fetched? ==> response.Some? && response.value.body == FetchPage(respond, page).items
  {
    sent := [];
    var retries: nat := MaxAttempts;
    response := None;
    while retries > 0
      invariant retries <= MaxAttempts
      invariant response.None? ==> retries == MaxAttempts
      invariant response.Some? ==> response.value.status != 200
      invariant forall a :: 0 <= a < MaxAttempts - retries ==> respond(page, a).status != 200
      invariant sent == Repeat(page, MaxAttempts - retries)
    {
      response := Some(respond(page, MaxAttempts - retries));
      RepeatOneMore(page, MaxAttempts - retries);
      sent := sent + [page];
      if response.value.status != 200 {
        retries := retries - 1;
        continue;
      } else {
        break;
      }
    }
    FetchPageAfterFailures(respond, page, MaxAttempts - retries);
  }

  /**
   * The paginated fetch. `requests` records the page number of every request
   * sent, in the order sent (the network traffic, made observable).
   */
  method FetchPaginatedData<T>(respond: PageOracle<T>) returns (results: seq<T>, requests: seq<nat>)
    requires Terminates(respond)
    ensures results == Paginated(respond)
    ensures requests == RequestLog(respond)
  {
    ghost var bound: nat :| 1 <= bound && StopsAt(respond, bound);
    var page: nat := 1;
    results := [];
    requests := [];
    while true
      invariant 1 <= page <= bound
      invariant NoStopBefore(respond, page)
      invariant results == ItemsBefore(respond, page)
      invariant requests == RequestsThrough(respond, page - 1)
      decreases bound - page
    {
      var response, sent := RequestPage(respond, page);
      requests := requests + sent;
      assert requests == RequestsThrough(respond, page);
      if response.None? || response.value.status != 200 {
        // every attempt failed: the page is abandoned
        FirstStopUnique(respond, page);
        break;
      }
      var data := response.value.body;
      if |data| == 0 {
        FirstStopUnique(respond, page);
        break;
      }
      assert FetchPage(respond, page) == Fetched(data, Requests(FetchPage(respond, page)));
      assert !StopsAt(respond, page) && page < bound;
      NoStopBeforeNext(respond, page);
      results := results + data;
      page := page + 1;
    }
  }

  lemma {:induction false} SameAnswersSameFetch<T>(r1: PageOracle<T>, r2: PageOracle<T>, page: nat, attempt: nat)
    requires attempt <= MaxAttempts
    requires forall a :: attempt <= a < MaxAttempts ==> r1(page, a) == r2(page, a)
    ensures FetchFrom(r1, page, attempt) == FetchFrom(r2, page, attempt)
    decreases MaxAttempts - attempt
  {
    if attempt < MaxAttempts {
      SameAnswersSameFetch(r1, r2, page, attempt + 1);
    }
  }

  lemma {:induction false} SameFetchesSameTraffic<T>(r1: PageOracle<T>, r2: PageOracle<T>, k: nat)
    requires forall p: nat :: 1 <= p <= k ==> FetchPage(r1, p) == FetchPage(r2, p)
    ensures ItemsBefore(r1, k) == ItemsBefore(r2, k)
    ensures RequestsThrough(r1, k) == RequestsThrough(r2, k)
    decreases k
  {
    if k > 0 {
      SameFetchesSameTraffic(r1, r2, k - 1);
    }
  }

  /**
   * Answers for pages after the first stopping page change nothing: neither
   * what pagination returns nor which requests it sends.
   */
  lemma LaterPagesIgnored<T>(r1: PageOracle<T>, r2: PageOracle<T>)
    requires Terminates(r1)
    requires forall p: nat, a: nat :: 1 <= p <= FirstStop(r1) && a < MaxAttempts ==> r1(p, a) == r2(p, a)
    ensures Terminates(r2)
    ensures Paginated(r2) == Paginated(r1) && RequestLog(r2) == RequestLog(r1)
  {
    var k := FirstStop(r1);
    forall p: nat | 1 <= p <= k
      ensures FetchPage(r1, p) == FetchPage(r2, p) && StopsAt(r1, p) == StopsAt(r2, p)
    {
      SameAnswersSameFetch(r1, r2, p, 0);
    }
    assert IsFirstStop(r2, k);
    FirstStopUnique(r2, k);
    SameFetchesSameTraffic(r1, r2, k);
  }

  lemma {:induction false} RepeatCount<T>(x: T, n: nat, y: T)
    ensures multiset(Repeat(x, n))[y] == if y == x then n else 0
    decreases n
  {
    if n > 0 {
      RepeatCount(x, n - 1, y);
      RepeatOneMore(x, n - 1);
    }
  }

  lemma {:induction false} RequestCountThrough<T>(respond: PageOracle<T>, k: nat, p: nat)
    ensures multiset(RequestsThrough(respond, k))[p] == if 1 <= p <= k then Requests(FetchPage(respond, p)) else 0
    decreases k
  {
    if k > 0 {
      RequestCountThrough(respond, k - 1, p);
      RepeatCount(k, Requests(FetchPage(respond, k)), p);
    }
  }

  /**
   * Each page is requested at most MaxAttempts times, exactly the pages up to
   * the first stopping page are requested, and a page that is abandoned (every
   * one of its MaxAttempts answers failed) is the last page requested.
   */
  lemma RequestsPerPage<T>(respond: PageOracle<T>, p: nat)
    requires Terminates(respond)
    ensures multiset(RequestLog(respond))[p] <= MaxAttempts
    ensures multiset(RequestLog(respond))[p] > 0 <==> 1 <= p <= FirstStop(respond)
    ensures 1 <= p <= FirstStop(respond) && FetchPage(respond, p).Abandoned? ==>
              && p == FirstStop(respond)
              && forall a :: 0 <= a < MaxAttempts ==> respond(p, a).status != 200
  {
    RequestCountThrough(respond, FirstStop(respond), p);
    if 1 <= p <= FirstStop(respond) && FetchPage(respond, p).Abandoned? {
      assert StopsAt(respond, p);
    }
  }
}
