/** The pagination loop of the API source, and what it fetches from an honest server. */
module Pagination {
  import opened Wrappers
  import opened Json

  /** The pagination mode: the client's page limit (and whether it is sent) for offsets, the first
      page number and the expected page size for pages. */
  datatype Mode =
    | Single
    | ByCursor
    | ByOffset(limit: Option<nat>, sendLimit: bool)
    | ByPage(start: int, size: Option<nat>)

  datatype Request = Request(cursor: Option<Value>, offset: Option<int>, limit: Option<nat>, page: Option<int>)

  /** One response: its records, and what the cursor path holds in its body. */
  datatype Response = Response(items: Records, cursor: Option<Value>)

  type Server = Request -> Result<Response, string>

  /** Python truthiness of a cursor value. */
  predicate Truthy(v: Option<Value>) {
    match v
    case None => false
    case Some(Null) => false
    case Some(Bool(b)) => b
    case Some(Int(n)) => n != 0
    case Some(Float(r)) => r != 0.0
    case Some(Str(s)) => s != []
    case Some(List(items)) => items != []
    case Some(Dict(entries)) => entries != []
  }

  function FirstRequest(mode: Mode): Request {
    match mode
    case Single => Request(None, None, None, None)
    case ByCursor => Request(None, None, None, None)
    case ByOffset(limit, send) =>
        Request(None, Some(0), if send && limit.Some? && limit.value > 0 then limit else None, None)
    case ByPage(start, _) => Request(None, None, None, Some(start))
  }

  /** The page tells that there is nothing more to fetch. */
  predicate LastPage(mode: Mode, r: Response) {
    match mode
    case Single => true
    case ByCursor => !Truthy(r.cursor)
    case ByOffset(limit, _) => r.items == [] || Short(limit, r.items)
    case ByPage(_, size) => r.items == [] || Short(size, r.items)
  }

  predicate Short(limit: Option<nat>, items: Records) {
    limit.Some? && limit.value > 0 && |items| < limit.value
  }

  /** The request that follows a response. */
  function NextRequest(mode: Mode, q: Request, r: Response): Request {
    match mode
    case Single => q
    case ByCursor => q.(cursor := r.cursor)
    case ByOffset(_, _) => q.(offset := Some((if q.offset.Some? then q.offset.value else 0) + |r.items|))
    case ByPage(start, _) => q.(page := Some((if q.page.Some? then q.page.value else start) + 1))
  }

  function Flatten(pages: seq<Response>): Records {
    if pages == [] then [] else Flatten(pages[..|pages| - 1]) + pages[|pages| - 1].items
  }

  /** The pages of a fetch: each answers the request that follows from the previous page, and only
      the last can say that nothing more is there. */
  ghost predicate Fetched(server: Server, mode: Mode, requests: seq<Request>, pages: seq<Response>) {
    && |requests| == |pages|
    && (forall k :: 0 <= k < |pages| ==> server(requests[k]) == Ok(pages[k]))
    && (pages != [] ==> requests[0] == FirstRequest(mode))
    && forall k :: 0 < k < |pages| ==> FollowsAt(mode, requests, pages, k)
  }

  ghost predicate FollowsAt(mode: Mode, requests: seq<Request>, pages: seq<Response>, k: int)
    requires 0 < k < |pages| == |requests|
  {
    Follows(mode, requests[k - 1], pages[k - 1], requests[k])
  }

  ghost predicate Follows(mode: Mode, q: Request, r: Response, q': Request) {
    !LastPage(mode, r) && q' == NextRequest(mode, q, r)
  }

  /** The request that a fetch sends next. */
  ghost predicate IsNextRequest(mode: Mode, requests: seq<Request>, pages: seq<Response>, q: Request)
    requires |requests| == |pages|
  {
    if pages == [] then q == FirstRequest(mode) else Follows(mode, requests[|requests| - 1], pages[|pages| - 1], q)
  }

  /** The state of the loop: what has been fetched, and what comes next. */
  ghost predicate Fetching(server: Server, mode: Mode, requests: seq<Request>, pages: seq<Response>,
                           records: Records, q: Request) {
    Fetched(server, mode, requests, pages) && records == Flatten(pages) && IsNextRequest(mode, requests, pages, q)
  }

  lemma FetchedOne(server: Server, mode: Mode, requests: seq<Request>, pages: seq<Response>, records: Records,
                   q: Request, r: Response)
    requires Fetching(server, mode, requests, pages, records, q) && server(q) == Ok(r)
    ensures Fetched(server, mode, requests + [q], pages + [r]) && Flatten(pages + [r]) == records + r.items
    ensures !LastPage(mode, r) ==>
              Fetching(server, mode, requests + [q], pages + [r], records + r.items, NextRequest(mode, q, r))
  {
    assert (pages + [r])[..|pages|] == pages;
    var longer, more := requests + [q], pages + [r];
    forall k | 0 < k < |more| ensures FollowsAt(mode, longer, more, k) {
      if k < |pages| {
        assert FollowsAt(mode, requests, pages, k);
      }
    }
  }

  /** What a failing request leaves. */
  ghost predicate FailedAfter(server: Server, mode: Mode, requests: seq<Request>, pages: seq<Response>) {
    && requests != []
    && var sent := requests[..|requests| - 1];
       Fetched(server, mode, sent, pages) && IsNextRequest(mode, sent, pages, requests[|requests| - 1])
  }

  lemma FetchFails(server: Server, mode: Mode, requests: seq<Request>, pages: seq<Response>, records: Records,
                   q: Request)
    requires Fetching(server, mode, requests, pages, records, q)
    ensures FailedAfter(server, mode, requests + [q], pages)
  {
    assert (requests + [q])[..|requests|] == requests;
  }

  /** `_fetch_all`: at most `maxPages` requests in every mode; it stops at a page that says it is the
      last, at a failing request, or with a warning at the cap. */
  method FetchAll(server: Server, mode: Mode, maxPages: nat)
    returns (result: Result<Records, string>, requests: seq<Request>, ghost pages: seq<Response>, truncated: bool)
    requires maxPages >= 1 && (mode.Single? ==> maxPages == 1)
    ensures |requests| <= maxPages
    ensures result.Ok? ==> Fetched(server, mode, requests, pages) && pages != [] && result.value == Flatten(pages)
    ensures result.Ok? && !truncated ==> LastPage(mode, pages[|pages| - 1])
    ensures truncated ==> result.Ok? && |requests| == maxPages
    ensures result.Err? ==> requests != [] && server(requests[|requests| - 1]) == Err(result.error)
    ensures result.Err? ==> FailedAfter(server, mode, requests, pages)
  {
    var records: Records := [];
    var q := FirstRequest(mode);
    requests, pages, truncated := [], [], false;
    while true
      invariant |requests| < maxPages
      invariant Fetching(server, mode, requests, pages, records, q)
      invariant !truncated
      decreases maxPages - |requests|
    {
      var response := server(q);
      if response.Err? {
        FetchFails(server, mode, requests, pages, records, q);
        return Err(response.error), requests + [q], pages, false;
      }
      var r := response.value;
      FetchedOne(server, mode, requests, pages, records, q, r);
      records, requests, pages := records + r.items, requests + [q], pages + [r];
      if LastPage(mode, r) {
        return Ok(records), requests, pages, false;
      }
      q := NextRequest(mode, q, r);
      if |requests| >= maxPages {
        return Ok(records), requests, pages, true;
      }
    }
  }

  // ---------------------------------------------------------------- offsets

  lemma {:induction false} OffsetIsFetched(server: Server, mode: Mode, requests: seq<Request>, pages: seq<Response>,
                                           k: nat)
    requires mode.ByOffset? && Fetched(server, mode, requests, pages) && k < |pages|
    ensures requests[k].offset == Some(|Flatten(pages[..k])|)
    ensures requests[k].limit == FirstRequest(mode).limit
  {
    if k > 0 {
      OffsetIsFetched(server, mode, requests, pages, k - 1);
      assert FollowsAt(mode, requests, pages, k);
      assert pages[..k][..k - 1] == pages[..k - 1];
    }
  }

  /** The same of the request that comes next, whatever its answer. */
  lemma OffsetOfNext(server: Server, mode: Mode, requests: seq<Request>, pages: seq<Response>, q: Request)
    requires mode.ByOffset? && Fetched(server, mode, requests, pages) && IsNextRequest(mode, requests, pages, q)
    ensures q.offset == Some(|Flatten(pages)|) && q.limit == FirstRequest(mode).limit
  {
    if pages != [] {
      OffsetIsFetched(server, mode, requests, pages, |pages| - 1);
    }
  }

  /** At every request, answered or not, the offset is the number of records fetched so far. */
  ghost predicate OffsetsTrack(requests: seq<Request>, pages: seq<Response>) {
    && |pages| <= |requests| <= |pages| + 1
    && forall k :: 0 <= k < |requests| ==> requests[k].offset == Some(|Flatten(pages[..k])|)
  }

  lemma OffsetsAnswered(server: Server, mode: Mode, requests: seq<Request>, pages: seq<Response>)
    requires Fetched(server, mode, requests, pages)
    ensures mode.ByOffset? ==> OffsetsTrack(requests, pages)
  {
    if mode.ByOffset? {
      forall k | 0 <= k < |requests| ensures requests[k].offset == Some(|Flatten(pages[..k])|) {
        OffsetIsFetched(server, mode, requests, pages, k);
      }
    }
  }

  lemma OffsetsSent(server: Server, mode: Mode, requests: seq<Request>, pages: seq<Response>, q: Request)
    requires Fetched(server, mode, requests, pages) && IsNextRequest(mode, requests, pages, q)
    ensures mode.ByOffset? ==> OffsetsTrack(requests + [q], pages)
  {
    OffsetsAnswered(server, mode, requests, pages);
    if mode.ByOffset? {
      OffsetOfNext(server, mode, requests, pages, q);
      assert pages[..|pages|] == pages;
    }
  }

  function Min(a: int, b: int): int {
    if a < b then a else b
  }

  /** The server answers an offset with the next `size` records of its data, fewer at the end. */
  ghost predicate HonestOffsets(server: Server, mode: Mode, data: Records, size: nat) {
    forall o: nat :: o <= |data| ==> HonestAt(server, mode, data, size, o)
  }

  ghost predicate HonestAt(server: Server, mode: Mode, data: Records, size: nat, o: nat)
    requires o <= |data|
  {
    var r := server(Request(None, Some(o), FirstRequest(mode).limit, None));
    r.Ok? && r.value.items == data[o..Min(o + size, |data|)]
  }

  lemma {:induction false} OffsetShape(server: Server, mode: Mode, requests: seq<Request>, pages: seq<Response>, k: nat)
    requires mode.ByOffset? && Fetched(server, mode, requests, pages) && k < |pages|
    ensures requests[k].cursor == None && requests[k].page == None
  {
    if k > 0 {
      OffsetShape(server, mode, requests, pages, k - 1);
      assert FollowsAt(mode, requests, pages, k);
    }
  }

  /** Each page is the slice of the data that follows what was fetched before. */
  lemma OffsetPage(server: Server, mode: Mode, data: Records, size: nat, requests: seq<Request>,
                   pages: seq<Response>, k: nat)
    requires mode.ByOffset? && Fetched(server, mode, requests, pages) && HonestOffsets(server, mode, data, size)
    requires k < |pages| && |Flatten(pages[..k])| <= |data|
    ensures pages[k].items == data[|Flatten(pages[..k])|..Min(|Flatten(pages[..k])| + size, |data|)]
  {
    OffsetIsFetched(server, mode, requests, pages, k);
    OffsetShape(server, mode, requests, pages, k);
    var o := |Flatten(pages[..k])|;
    assert HonestAt(server, mode, data, size, o);
    assert requests[k] == Request(None, Some(o), FirstRequest(mode).limit, None);
  }

  lemma FlattenNext(pages: seq<Response>, k: nat)
    requires k < |pages|
    ensures Flatten(pages[..k + 1]) == Flatten(pages[..k]) + pages[k].items
  {
    assert pages[..k + 1][..k] == pages[..k];
  }

  lemma PrefixGrows(fetched: Records, data: Records, upTo: nat)
    requires fetched <= data && |fetched| <= upTo <= |data|
    ensures fetched + data[|fetched|..upTo] == data[..upTo]
  {
  }

  /** Whatever happens, the records fetched are a prefix of the data: no gap and no duplicate. */
  lemma {:induction false} OffsetFetchesPrefix(server: Server, mode: Mode, data: Records, size: nat,
                                               requests: seq<Request>, pages: seq<Response>, k: nat)
    requires mode.ByOffset? && Fetched(server, mode, requests, pages) && HonestOffsets(server, mode, data, size)
    requires k <= |pages|
    ensures Flatten(pages[..k]) <= data
    decreases k
  {
    if k > 0 {
      OffsetFetchesPrefix(server, mode, data, size, requests, pages, k - 1);
      OffsetPage(server, mode, data, size, requests, pages, k - 1);
      FlattenNext(pages, k - 1);
      var fetched := Flatten(pages[..k - 1]);
      PrefixGrows(fetched, data, Min(|fetched| + size, |data|));
    }
  }

  /** When the client's limit exceeds the page size and there is more than one page, the first page
      already looks short. */
  predicate StopsEarly(limit: Option<nat>, size: nat, data: Records) {
    limit.Some? && limit.value > size && |data| > size
  }

  /** A last page that starts at `o` reaches the end of the data. */
  lemma LastReachesEnd(limit: Option<nat>, size: nat, data: Records, o: nat, items: Records)
    requires size >= 1 && o <= |data| && |items| == Min(o + size, |data|) - o
    requires items == [] || Short(limit, items)
    requires !StopsEarly(limit, size, data)
    ensures o + |items| == |data|
  {
  }

  /** A first page that is short but not all of the data ends the fetch. */
  lemma ShortFirstPage(limit: Option<nat>, size: nat, data: Records, items: Records)
    requires StopsEarly(limit, size, data) && |items| == Min(size, |data|)
    ensures Short(limit, items) && |items| < |data|
  {
  }

  lemma PrefixIsAll(records: Records, data: Records)
    requires records <= data
    ensures records == data <==> |records| == |data|
  {
  }

  /** The first page was the only one if it is a last page. */
  lemma OnlyPage(server: Server, mode: Mode, requests: seq<Request>, pages: seq<Response>)
    requires Fetched(server, mode, requests, pages) && pages != [] && LastPage(mode, pages[0])
    ensures |pages| == 1
  {
    assert |pages| > 1 ==> FollowsAt(mode, requests, pages, 1);
  }

  lemma FlattenOne(pages: seq<Response>)
    requires |pages| == 1
    ensures Flatten(pages) == pages[0].items
  {
    assert Flatten(pages[..0]) == [];
  }

  /** A fetch that ended without the truncation warning has everything, exactly unless the client's
      limit is larger than the pages the server sends. */
  lemma OffsetIsComplete(server: Server, mode: Mode, data: Records, size: nat, requests: seq<Request>,
                         pages: seq<Response>)
    requires mode.ByOffset? && Fetched(server, mode, requests, pages) && HonestOffsets(server, mode, data, size)
    requires size >= 1 && pages != [] && LastPage(mode, pages[|pages| - 1])
    ensures Flatten(pages) == data <==> !StopsEarly(mode.limit, size, data)
  {
    OffsetFetchesPrefix(server, mode, data, size, requests, pages, |pages|);
    assert pages[..|pages|] == pages;
    PrefixIsAll(Flatten(pages), data);
    if StopsEarly(mode.limit, size, data) {
      OffsetStopsEarly(server, mode, data, size, requests, pages);
    } else {
      OffsetReachesEnd(server, mode, data, size, requests, pages);
    }
  }

  lemma OffsetStopsEarly(server: Server, mode: Mode, data: Records, size: nat, requests: seq<Request>,
                         pages: seq<Response>)
    requires mode.ByOffset? && Fetched(server, mode, requests, pages) && HonestOffsets(server, mode, data, size)
    requires pages != []
    requires StopsEarly(mode.limit, size, data)
    ensures |Flatten(pages)| < |data|
  {
    assert Flatten(pages[..0]) == [];
    OffsetPage(server, mode, data, size, requests, pages, 0);
    ShortFirstPage(mode.limit, size, data, pages[0].items);
    OnlyPage(server, mode, requests, pages);
    FlattenOne(pages);
  }

  lemma OffsetReachesEnd(server: Server, mode: Mode, data: Records, size: nat, requests: seq<Request>,
                         pages: seq<Response>)
    requires mode.ByOffset? && Fetched(server, mode, requests, pages) && HonestOffsets(server, mode, data, size)
    requires size >= 1 && pages != [] && LastPage(mode, pages[|pages| - 1]) && !StopsEarly(mode.limit, size, data)
    ensures |Flatten(pages)| == |data|
  {
    var last := |pages| - 1;
    OffsetFetchesPrefix(server, mode, data, size, requests, pages, last);
    OffsetPage(server, mode, data, size, requests, pages, last);
    LastReachesEnd(mode.limit, size, data, |Flatten(pages[..last])|, pages[last].items);
  }

  /** A number as a record. */
  function Numbered(n: int): Value {
    Dict([Entry("value", Int(n))])
  }

  /** Two records, served one at a time to a client that expects pages of two. */
  const TWO_RECORDS: Records := [Numbered(1), Numbered(2)]
  const PAGES_OF_TWO := ByOffset(Some(2), true)

  function OneAtATime(q: Request): Result<Response, string> {
    if q.offset.Some? && 0 <= q.offset.value <= 2
    then Ok(Response(TWO_RECORDS[q.offset.value..Min(q.offset.value + 1, 2)], None))
    else Err("no such offset")
  }

  /** The server is honest, a fetch that ends without the warning exists, and every such fetch misses
      a record. */
  lemma OffsetCanMissRecords()
    ensures HonestOffsets(OneAtATime, PAGES_OF_TWO, TWO_RECORDS, 1)
    ensures exists requests, pages ::
              Fetched(OneAtATime, PAGES_OF_TWO, requests, pages) && pages != []
              && LastPage(PAGES_OF_TWO, pages[|pages| - 1])
    ensures forall requests, pages ::
              Fetched(OneAtATime, PAGES_OF_TWO, requests, pages) && pages != []
              && LastPage(PAGES_OF_TWO, pages[|pages| - 1]) ==>
              Flatten(pages) != TWO_RECORDS
  {
    var mode, data := PAGES_OF_TWO, TWO_RECORDS;
    assert HonestOffsets(OneAtATime, mode, data, 1);
    var only := Response([Numbered(1)], None);
    assert data[0..1] == [Numbered(1)];
    assert Fetched(OneAtATime, mode, [FirstRequest(mode)], [only]) && LastPage(mode, [only][0]);
    forall requests, pages | Fetched(OneAtATime, mode, requests, pages) && pages != []
        && LastPage(mode, pages[|pages| - 1])
      ensures Flatten(pages) != data
    {
      OffsetIsComplete(OneAtATime, mode, data, 1, requests, pages);
    }
  }

  // ---------------------------------------------------------------- pages

  lemma {:induction false} PageNumbers(server: Server, mode: Mode, requests: seq<Request>, pages: seq<Response>, k: nat)
    requires mode.ByPage? && Fetched(server, mode, requests, pages) && k < |pages|
    ensures requests[k] == Request(None, None, None, Some(mode.start + k))
  {
    if k > 0 {
      PageNumbers(server, mode, requests, pages, k - 1);
      assert FollowsAt(mode, requests, pages, k);
    }
  }

  /** Page number `start + k` holds the `k`-th run of `size` records. */
  ghost predicate HonestPages(server: Server, start: int, data: Records, size: nat) {
    forall k: nat :: HonestPage(server, start, data, size, k)
  }

  ghost predicate HonestPage(server: Server, start: int, data: Records, size: nat, k: nat) {
    var r := server(Request(None, None, None, Some(start + k)));
    r.Ok? && r.value.items == data[Min(k * size, |data|)..Min(k * size + size, |data|)]
  }

  lemma {:induction false} PagesFetchPrefix(server: Server, mode: Mode, data: Records, size: nat,
                                            requests: seq<Request>, pages: seq<Response>, k: nat)
    requires mode.ByPage? && Fetched(server, mode, requests, pages) && HonestPages(server, mode.start, data, size)
    requires k <= |pages|
    ensures 0 <= Min(k * size, |data|) <= |data| && Flatten(pages[..k]) == data[..Min(k * size, |data|)]
  {
    if k > 0 {
      PagesFetchPrefix(server, mode, data, size, requests, pages, k - 1);
      PageNumbers(server, mode, requests, pages, k - 1);
      assert HonestPage(server, mode.start, data, size, k - 1);
      assert (k - 1) * size + size == k * size;
      assert pages[..k][..k - 1] == pages[..k - 1];
      var o := Min((k - 1) * size, |data|);
      assert data[..o] + data[o..Min(k * size, |data|)] == data[..Min(k * size, |data|)];
    }
  }

  /** The same law for page numbers, with the expected page size in the place of the limit. */
  lemma PagesAreComplete(server: Server, mode: Mode, data: Records, size: nat, requests: seq<Request>,
                         pages: seq<Response>)
    requires mode.ByPage? && Fetched(server, mode, requests, pages) && HonestPages(server, mode.start, data, size)
    requires size >= 1 && pages != [] && LastPage(mode, pages[|pages| - 1])
    ensures Flatten(pages) == data <==> !StopsEarly(mode.size, size, data)
  {
    var last := |pages| - 1;
    PagesFetchPrefix(server, mode, data, size, requests, pages, |pages|);
    PagesFetchPrefix(server, mode, data, size, requests, pages, last);
    assert pages[..|pages|] == pages;
    PrefixIsAll(Flatten(pages), data);
    if StopsEarly(mode.size, size, data) {
      FirstPageOf(server, mode, data, size, requests, pages);
      ShortFirstPage(mode.size, size, data, pages[0].items);
      OnlyPage(server, mode, requests, pages);
      FlattenOne(pages);
    } else {
      LastPageOf(server, mode, data, size, requests, pages);
      LastReachesEnd(mode.size, size, data, Min(last * size, |data|), pages[last].items);
    }
  }

  lemma FirstPageOf(server: Server, mode: Mode, data: Records, size: nat, requests: seq<Request>, pages: seq<Response>)
    requires mode.ByPage? && Fetched(server, mode, requests, pages) && HonestPages(server, mode.start, data, size)
    requires pages != []
    ensures |pages[0].items| == Min(size, |data|)
  {
    PageNumbers(server, mode, requests, pages, 0);
    assert HonestPage(server, mode.start, data, size, 0);
  }

  lemma LastPageOf(server: Server, mode: Mode, data: Records, size: nat, requests: seq<Request>, pages: seq<Response>)
    requires mode.ByPage? && Fetched(server, mode, requests, pages) && HonestPages(server, mode.start, data, size)
    requires pages != []
    ensures var o := Min((|pages| - 1) * size, |data|);
            0 <= o <= |data| && |pages[|pages| - 1].items| == Min(o + size, |data|) - o
  {
    var last := |pages| - 1;
    PageNumbers(server, mode, requests, pages, last);
    assert HonestPage(server, mode.start, data, size, last);
    assert 0 <= last * size;
  }

  // ---------------------------------------------------------------- cursors

  /** The server hands out its chunks one by one: each response points to the next chunk, the last
      one to nothing. */
  ghost predicate HonestCursors(server: Server, chunks: seq<Records>, tokens: seq<Value>) {
    && chunks != [] && |tokens| == |chunks|
    && (forall k :: 0 <= k < |chunks| ==> ServesChunk(server, chunks, tokens, k))
    && forall k :: 0 < k < |tokens| ==> Truthy(Some(tokens[k]))
  }

  ghost predicate ServesChunk(server: Server, chunks: seq<Records>, tokens: seq<Value>, k: nat)
    requires k < |chunks| == |tokens|
  {
    var r := server(Request(if k == 0 then None else Some(tokens[k]), None, None, None));
    && r.Ok? && r.value.items == chunks[k]
    && if k + 1 < |chunks| then r.value.cursor == Some(tokens[k + 1]) else !Truthy(r.value.cursor)
  }

  function Joined(chunks: seq<Records>): Records {
    if chunks == [] then [] else Joined(chunks[..|chunks| - 1]) + chunks[|chunks| - 1]
  }

  lemma {:induction false} CursorsFetchChunks(server: Server, chunks: seq<Records>, tokens: seq<Value>,
                                              requests: seq<Request>, pages: seq<Response>, k: nat)
    requires Fetched(server, ByCursor, requests, pages) && HonestCursors(server, chunks, tokens)
    requires k < |pages|
    ensures k < |chunks|
    ensures requests[k] == Request(if k == 0 then None else Some(tokens[k]), None, None, None)
    ensures Flatten(pages[..k + 1]) == Joined(chunks[..k + 1])
  {
    if k > 0 {
      CursorsFetchChunks(server, chunks, tokens, requests, pages, k - 1);
      assert ServesChunk(server, chunks, tokens, k - 1);
      assert FollowsAt(ByCursor, requests, pages, k);
      assert pages[..k + 1][..k] == pages[..k] && chunks[..k + 1][..k] == chunks[..k];
    } else {
      assert pages[..1][..0] == [] && chunks[..1][..0] == [];
    }
    assert ServesChunk(server, chunks, tokens, k);
  }

  /** A cursor fetch that was not truncated has all the chunks. */
  lemma CursorsAreComplete(server: Server, chunks: seq<Records>, tokens: seq<Value>, requests: seq<Request>,
                           pages: seq<Response>)
    requires Fetched(server, ByCursor, requests, pages) && HonestCursors(server, chunks, tokens)
    requires pages != [] && LastPage(ByCursor, pages[|pages| - 1])
    ensures Flatten(pages) == Joined(chunks)
  {
    var last := |pages| - 1;
    CursorsFetchChunks(server, chunks, tokens, requests, pages, last);
    assert ServesChunk(server, chunks, tokens, last);
    assert last + 1 == |chunks|;
    assert pages[..|pages|] == pages && chunks[..|chunks|] == chunks;
  }
}
