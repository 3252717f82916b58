/** The mirror-node client's pagination, its retry loops for immature records, and the result cache. */
module MirrorNode {
  import opened Prelude

  const EMPTY_HEX := "0x"

  /** A contract result or a log; `index` only matters for logs. */
  datatype Record = Record(
    transactionIndex: Option<nat>,
    blockNumber: Option<nat>,
    index: Option<nat>,
    blockHash: string,
    result: string)

  datatype Error = Upstream | PaginationMax | ImmatureRecords

  // ---------- pagination ----------

  /** The answer to one page request: a failure, nothing, or records with an optional next link. */
  datatype Response = Failed | Nothing | Page(records: seq<Option<Record>>, next: Option<string>)

  /** What a call ends with, and how many requests it took. */
  datatype Fetched = Fetched(outcome: Result<seq<Option<Record>>, Error>, requests: nat)

  function Records(r: Response): seq<Option<Record>> {
    if r.Page? then r.records else []
  }

  function Next(r: Response): Option<string> {
    if r.Page? then r.next else None
  }

  /** `getPaginatedResults`: accumulator recursion over next links. */
  function GetPaginated(get: string -> Response, url: string, results: seq<Option<Record>>, page: int, pageMax: int): Fetched
    decreases if page < pageMax then pageMax - page else 0
  {
    var response := get(url);
    if response.Failed? then Fetched(Err(Upstream), 1)
    else if page == pageMax then Fetched(Err(PaginationMax), 1)
    else if Next(response).Some? && page < pageMax then
      var more := GetPaginated(get, Next(response).value, results + Records(response), page + 1, pageMax);
      more.(requests := more.requests + 1)
    else Fetched(Ok(results + Records(response)), 1)
  }

  /** The first `k` urls met when following next links; fewer if the chain ends or a request fails. */
  function Walk(get: string -> Response, url: string, k: nat): (urls: seq<string>)
    ensures |urls| <= k
    decreases k
  {
    if k == 0 then []
    else [url] + (if Next(get(url)).Some? then Walk(get, Next(get(url)).value, k - 1) else [])
  }

  function AllRecords(get: string -> Response, urls: seq<string>): seq<Option<Record>> {
    if urls == [] then [] else Records(get(urls[0])) + AllRecords(get, urls[1..])
  }

  predicate SomeFails(get: string -> Response, urls: seq<string>) {
    urls != [] && (get(urls[0]).Failed? || SomeFails(get, urls[1..]))
  }

  /**
   Pagination: shorter chains than the limit are returned whole and in order after one request a page;
   all others, cyclic ones included, end in an error after exactly `pageMax` requests; a failing page
   ends the call at that page.
   */
  lemma {:induction false} PaginationRefines(get: string -> Response, url: string, results: seq<Option<Record>>,
                                             page: int, pageMax: int)
    requires page <= pageMax
    ensures var r := GetPaginated(get, url, results, page, pageMax);
      var urls := Walk(get, url, pageMax - page + 1);
      && r.requests == |urls|
      && r.outcome == (
           if SomeFails(get, urls) then Err(Upstream)
           else if |urls| == pageMax - page + 1 then Err(PaginationMax)
           else Ok(results + AllRecords(get, urls)))
    decreases pageMax - page
  {
    if get(url).Failed? || page == pageMax || Next(get(url)).None? {
      WalkEnds(get, url, pageMax - page + 1);
    } else {
      var next := Next(get(url)).value;
      PaginationRefines(get, next, results + Records(get(url)), page + 1, pageMax);
      WalkGoesOn(get, url, pageMax - page + 1, results);
    }
  }

  /** The walk stops here: at a failure, at the limit, or at a page without a next link. */
  lemma {:induction false} WalkEnds(get: string -> Response, url: string, k: nat)
    requires k >= 1 && (k == 1 || Next(get(url)).None?)
    ensures Walk(get, url, k) == [url]
    ensures SomeFails(get, [url]) == get(url).Failed? && AllRecords(get, [url]) == Records(get(url))
  {
    assert [url][1..] == [];
    if Next(get(url)).Some? {
      assert Walk(get, Next(get(url)).value, 0) == [];
    }
    assert Records(get(url)) + [] == Records(get(url));
  }

  lemma {:induction false} WalkGoesOn(get: string -> Response, url: string, k: nat, results: seq<Option<Record>>)
    requires k >= 2 && Next(get(url)).Some?
    ensures var urls, rest := Walk(get, url, k), Walk(get, Next(get(url)).value, k - 1);
      && |urls| == |rest| + 1
      && SomeFails(get, urls) == SomeFails(get, rest)
      && results + AllRecords(get, urls) == results + Records(get(url)) + AllRecords(get, rest)
  {
    var urls, rest := Walk(get, url, k), Walk(get, Next(get(url)).value, k - 1);
    assert urls[1..] == rest;
  }

  /** Pages under these urls, each but the last linking to the next. */
  ghost predicate IsChain(get: string -> Response, urls: seq<string>, pages: seq<seq<Option<Record>>>) {
    |urls| == |pages| > 0 && forall i :: 0 <= i < |urls| ==> IsLink(get, urls, pages, i)
  }

  ghost predicate IsLink(get: string -> Response, urls: seq<string>, pages: seq<seq<Option<Record>>>, i: int)
    requires 0 <= i < |urls| == |pages|
  {
    get(urls[i]) == Page(pages[i], if i + 1 < |urls| then Some(urls[i + 1]) else None)
  }

  function Concat(pages: seq<seq<Option<Record>>>): seq<Option<Record>> {
    if pages == [] then [] else pages[0] + Concat(pages[1..])
  }

  /**
   A chain of n pages: their concatenation in order after n requests if n is below the limit, and the
   pagination error after exactly `pageMax` requests if it is not.
   */
  lemma {:induction false} ChainFetched(get: string -> Response, urls: seq<string>, pages: seq<seq<Option<Record>>>,
                                        results: seq<Option<Record>>, page: int, pageMax: int)
    requires IsChain(get, urls, pages) && page <= pageMax
    ensures GetPaginated(get, urls[0], results, page, pageMax) == (
      if |pages| < pageMax - page + 1 then Fetched(Ok(results + Concat(pages)), |pages|)
      else Fetched(Err(PaginationMax), pageMax - page + 1))
    decreases |urls|
  {
    assert IsLink(get, urls, pages, 0);
    if |urls| == 1 {
      assert Concat(pages[1..]) == [];
      assert pages[0] + [] == pages[0];
    } else if page < pageMax {
      forall i | 0 <= i < |urls| - 1 ensures IsLink(get, urls[1..], pages[1..], i) {
        assert IsLink(get, urls, pages, i + 1);
      }
      ChainFetched(get, urls[1..], pages[1..], results + pages[0], page + 1, pageMax);
      assert results + pages[0] + Concat(pages[1..]) == results + (pages[0] + Concat(pages[1..]));
    }
  }

  /** Pages that always link on, as in a cycle, end in the pagination error after exactly `pageMax` requests. */
  lemma {:induction false} EndlessFetched(get: string -> Response, urls: set<string>, url: string,
                                          results: seq<Option<Record>>, page: int, pageMax: int)
    requires url in urls && page <= pageMax
    requires forall u <- urls :: get(u).Page? && get(u).next.Some? && get(u).next.value in urls
    ensures GetPaginated(get, url, results, page, pageMax) == Fetched(Err(PaginationMax), pageMax - page + 1)
    decreases pageMax - page
  {
    if page < pageMax {
      EndlessFetched(get, urls, get(url).next.value, results + Records(get(url)), page + 1, pageMax);
    }
  }

  // ---------- immature records ----------

  predicate IsMature(r: Record, isLog: bool) {
    && r.transactionIndex.Some? && r.blockNumber.Some? && r.blockHash != EMPTY_HEX
    && (isLog ==> r.index.Some?)
  }

  /** No record that is present is immature. */
  predicate AllMature(records: seq<Option<Record>>, isLog: bool) {
    forall i :: 0 <= i < |records| && records[i].Some? ==>
      && records[i].value.transactionIndex != None && records[i].value.blockNumber != None
      && records[i].value.blockHash != "0x" && (isLog ==> records[i].value.index != None)
  }

  /** One fetch of the retry loops. */
  datatype Snapshot = Threw(error: Error) | Null | Got(records: seq<Option<Record>>)

  /** A snapshot that ends the loop: an exception, nothing, or mature records only. */
  predicate IsSettled(s: Snapshot, isLog: bool) {
    s.Threw? || s.Null? || AllMature(s.records, isLog)
  }

  /** The records of a snapshot, or the exception; `Ok(None)` is a null answer. */
  function Answer(s: Snapshot): Result<Option<seq<Option<Record>>>, Error> {
    match s
    case Threw(e) => Err(e)
    case Null => Ok(None)
    case Got(records) => Ok(Some(records))
  }

  /** The loop over one snapshot's records. */
  method FindImmature(records: seq<Option<Record>>, isLog: bool) returns (found: bool)
    ensures found <==> !AllMature(records, isLog)
  {
    for i := 0 to |records|
      invariant forall j :: 0 <= j < i && records[j].Some? ==> IsMature(records[j].value, isLog)
    {
      if records[i].Some? && !IsMature(records[i].value, isLog) {
        return true;
      }
    }
    return false;
  }

  /**
   `getContractResultWithRetry` and `getContractResultsLogsWithRetry`; `fetch(i)` is what the i-th call
   of the wrapped method gives. With a positive retry count the first settled snapshot among the first
   `retryCount` is the answer, and without one the call throws after `retryCount` fetches.
   */
  method WithRetry(fetch: nat -> Snapshot, retryCount: nat, isLog: bool)
      returns (r: Result<Option<seq<Option<Record>>>, Error>, fetches: nat)
    ensures 1 <= fetches && (retryCount >= 1 ==> fetches <= retryCount)
    ensures forall i :: 0 <= i < fetches - 1 ==> !IsSettled(fetch(i), isLog)
    ensures retryCount == 0 ==> fetches == 1 && r == Answer(fetch(0))
    ensures var last := fetch(fetches - 1);
      && (last.Threw? ==> r == Err(last.error)) && (last.Null? ==> r == Ok(None))
      && (last.Got? && (retryCount == 0 || IsSettled(last, isLog)) ==> r == Ok(Some(last.records)))
    ensures retryCount >= 1 && IsSettled(fetch(fetches - 1), isLog) ==> r == Answer(fetch(fetches - 1))
    ensures retryCount >= 1 && !IsSettled(fetch(fetches - 1), isLog) ==> fetches == retryCount && r == Err(ImmatureRecords)
  {
    var result := fetch(0);
    fetches := 1;
    if result.Threw? {
      return Err(result.error), fetches;
    }
    for i := 0 to retryCount
      invariant fetches == i + 1 && (retryCount >= 1 ==> i < retryCount)
      invariant result == fetch(i) && !result.Threw?
      invariant forall j :: 0 <= j < i ==> !IsSettled(fetch(j), isLog)
    {
      var isLastAttempt := i == retryCount - 1;
      if result.Null? {
        break;
      }
      var foundImmature := FindImmature(result.records, isLog);
      if !foundImmature {
        return Ok(Some(result.records)), fetches;
      }
      if isLastAttempt {
        return Err(ImmatureRecords), fetches;
      }
      result := fetch(i + 1);
      fetches := fetches + 1;
      if result.Threw? {
        return Err(result.error), fetches;
      }
    }
    r := Answer(result);
  }

  /** The mirror node as it answers during the i-th fetch. */
  function GetAt(gets: (nat, string) -> Response, i: nat): string -> Response {
    (url: string) => gets(i, url)
  }

  /** The i-th fetch of the log loop is a whole pagination; `gets` is the mirror node at that time. */
  function LogSnapshot(gets: (nat, string) -> Response, url: string, pageMax: int, i: nat): Snapshot {
    var r := GetPaginated(GetAt(gets, i), url, [], 1, pageMax).outcome;
    if r.Ok? then Got(r.value) else Threw(r.error)
  }

  /** Logs that are returned are one mirror-node state's whole chain, in order, and mature. */
  method GetLogsWithRetry(gets: (nat, string) -> Response, url: string, pageMax: int, retryCount: nat)
      returns (r: Result<Option<seq<Option<Record>>>, Error>, fetches: nat)
    requires pageMax >= 1
    ensures 1 <= fetches && (fetches == 1 || fetches <= retryCount)
    ensures r.Ok? ==>
      var get := GetAt(gets, fetches - 1);
      var urls := Walk(get, url, pageMax);
      && |urls| < pageMax && !SomeFails(get, urls)
      && r.value == Some(AllRecords(get, urls))
      && (retryCount >= 1 ==> AllMature(r.value.value, true))
    ensures r == Err(PaginationMax) ==> |Walk(GetAt(gets, fetches - 1), url, pageMax)| == pageMax
    ensures r == Err(Upstream) ==> SomeFails(GetAt(gets, fetches - 1), Walk(GetAt(gets, fetches - 1), url, pageMax))
    ensures r == Err(ImmatureRecords) ==> fetches == retryCount
  {
    var fetch := (i: nat) => LogSnapshot(gets, url, pageMax, i);
    r, fetches := WithRetry(fetch, retryCount, true);
    ghost var get := GetAt(gets, fetches - 1);
    assert fetch(fetches - 1) == LogSnapshot(gets, url, pageMax, fetches - 1);
    PaginationRefines(get, url, [], 1, pageMax);
    assert [] + AllRecords(get, Walk(get, url, pageMax)) == AllRecords(get, Walk(get, url, pageMax));
  }

  // ---------- the contract result cache ----------

  /** The guard in front of the cache. */
  predicate IsCacheable(r: Record) {
    IsMature(r, false) && r.result == "SUCCESS"
  }

  /** An answer that makes the loop ask again: a result, and an immature one. */
  predicate IsImmature(r: Result<Option<Record>, Error>) {
    r.Ok? && r.value.Some?
    && (r.value.value.transactionIndex == None || r.value.value.blockNumber == None || r.value.value.blockHash == "0x")
  }

  /** An answer that is stored. */
  predicate IsStored(r: Result<Option<Record>, Error>) {
    r.Ok? && r.value.Some?
    && r.value.value.transactionIndex != None && r.value.value.blockNumber != None
    && r.value.value.blockHash != "0x" && r.value.value.result == "SUCCESS"
  }

  class Client {
    var cache: map<string, Record>
    var requests: nat

    ghost predicate Valid()
      reads this
    {
      forall id :: id in cache ==> IsCacheable(cache[id])
    }

    constructor ()
      ensures Valid() && cache == map[] && requests == 0
    {
      cache, requests := map[], 0;
    }

    /** `response` is what the mirror node would answer now; an error is thrown on. */
    method GetContractResult(id: string, response: Result<Option<Record>, Error>) returns (r: Result<Option<Record>, Error>)
      requires Valid()
      modifies this
      ensures Valid()
      ensures id in old(cache) ==> r == Ok(Some(old(cache)[id])) && requests == old(requests) && cache == old(cache)
      ensures id !in old(cache) ==> r == response && requests == old(requests) + 1
      ensures id !in old(cache) && IsStored(response) ==> cache == old(cache)[id := response.value.value]
      ensures id !in old(cache) && !IsStored(response) ==> cache == old(cache)
    {
      if id in cache {
        return Ok(Some(cache[id]));
      }
      requests := requests + 1;
      r := response;
      if r.Err? {
        return;
      }
      if r.value.Some? && IsCacheable(r.value.value) {
        cache := cache[id := r.value.value];
      }
    }

    /** `responses(i)` is the mirror node's answer if the i-th call of this loop reaches it. */
    method GetContractResultWithRetry(id: string, responses: nat -> Result<Option<Record>, Error>, retryCount: nat)
        returns (r: Result<Option<Record>, Error>)
      requires Valid()
      modifies this
      ensures Valid()
      ensures id in old(cache) ==> r == Ok(Some(old(cache)[id])) && requests == old(requests)
      ensures id !in old(cache) ==>
        var n := requests - old(requests);
        && 1 <= n <= (if retryCount == 0 then 1 else retryCount)
        && (forall i :: 0 <= i < n - 1 ==> IsImmature(responses(i)))
        && (retryCount == 0 || !IsImmature(responses(n - 1)) ==> r == responses(n - 1))
        && (retryCount >= 1 && IsImmature(responses(n - 1)) ==> r == Err(ImmatureRecords) && n == retryCount && id !in cache)
    {
      r := GetContractResult(id, responses(0));
      if r.Err? {
        return;
      }
      for i := 0 to retryCount
        invariant Valid() && r.Ok?
        invariant id in old(cache) ==> r == Ok(Some(old(cache)[id])) && requests == old(requests)
        invariant id !in old(cache) ==> requests == old(requests) + i + 1
        invariant retryCount >= 1 ==> i < retryCount
        invariant id !in old(cache) ==> r == responses(i) && forall j :: 0 <= j < i ==> IsImmature(responses(j))
        invariant id in cache ==> r.value.Some? && IsMature(r.value.value, false)
      {
        var isLastAttempt := i == retryCount - 1;
        if r.value.None? || IsMature(r.value.value, false) {
          return;
        }
        if isLastAttempt {
          return Err(ImmatureRecords);
        }
        r := GetContractResult(id, responses(i + 1));
        if r.Err? {
          return;
        }
      }
    }
  }
}
