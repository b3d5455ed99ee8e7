/** One page of the public catalog: `fetchPoolsPage` and `fetchValidationPage` of apps/landing/lib/public-data.ts. */
module CatalogPages {
  import opened JsText

  const MAX_CATALOG_OFFSET := 100000

  datatype Request = Request(limit: int, offset: int)

  datatype Response<T> = Failure(status: Option<int>) | Body(rows: seq<T>, total: Option<int>)

  /** Any server at all: its answer may depend on how often it has been asked. */
  type Server<!T> = (nat, Request) -> Response<T>

  datatype Page<T> =
    | Loaded(rows: seq<T>, total: int, page: int, pageCount: int)
    | LoadError(page: int, invalidQuery: bool, rateLimited: bool)

  function OrElse(n: Option<int>, default: int): int {
    if n.Some? then n.value else default
  }

  function CeilDiv(n: int, d: int): int
    requires d > 0
  {
    (n + d - 1) / d
  }

  function PageSize(asked: Option<int>): (size: int)
    ensures 1 <= size <= 48
  {
    Min(Max(OrElse(asked, 12), 1), 48)
  }

  /** A size asked for is kept if it is in 1 to 48, and is otherwise the nearest one that is; none asked for is 12. */
  lemma PageSizeNearest(asked: Option<int>, n: int)
    requires 1 <= n <= 48
    ensures asked == None ==> PageSize(asked) == 12
    ensures asked.Some? ==> Gap(PageSize(asked), asked.value) <= Gap(n, asked.value)
  {
  }

  function Gap(a: int, b: int): int {
    if a <= b then b - a else a - b
  }

  function MaxPage(size: int): (last: int)
    requires size > 0
    ensures last >= 1
  {
    MAX_CATALOG_OFFSET / size + 1
  }

  function PageCount(total: int, size: int): (count: int)
    requires size > 0
    ensures count >= 1
  {
    Max(1, CeilDiv(total, size))
  }

  function First(asked: Option<int>, size: int): int
    requires size > 0
  {
    Min(Max(OrElse(asked, 1), 1), MaxPage(size))
  }

  /** The first page loaded is the nearest one to the page asked for, 1 by default, that the ceiling allows. */
  lemma FirstNearest(asked: Option<int>, size: int, p: int)
    requires size > 0 && p >= 1 && Offset(p, size) <= MAX_CATALOG_OFFSET
    ensures 1 <= First(asked, size) && Offset(First(asked, size), size) <= MAX_CATALOG_OFFSET
    ensures asked == None ==> First(asked, size) == 1
    ensures asked.Some? ==> Gap(First(asked, size), asked.value) <= Gap(p, asked.value)
  {
    hide MaxPage, Offset;
    OffsetBound(p, size);
    OffsetBound(First(asked, size), size);
  }

  /** As many pages as it takes to hold the rows, at least one. */
  lemma PageCountFits(total: int, size: int)
    requires size > 0
    ensures PageCount(total, size) * size >= total
    ensures PageCount(total, size) == 1 || (PageCount(total, size) - 1) * size < total
  {
    if total > 0 { LastPage(total, size); }
    else {
      assert (total + size - 1) / size <= 0 by { Quotient(total + size - 1, size); }
    }
  }

  lemma Quotient(a: int, d: int)
    requires d > 0 && a < d
    ensures a / d <= 0
  {
  }

  function Offset(page: int, size: int): int { (page - 1) * size }
  function Ask(page: int, size: int): Request { Request(size, Offset(page, size)) }

  function Read<T>(response: Response<T>, page: int, first: int, size: int): Page<T>
    requires size > 0
  {
    match response
    case Body(rows, reported) =>
      var total := OrElse(reported, |rows|);
      Loaded(rows, total, page, PageCount(total, size))
    case Failure(status) =>
      LoadError(first, status.Some? && 400 <= status.value < 500 && status.value != 429, status == Some(429))
  }

  /** The page a reader is shown, and every request made for it, in order. */
  function Fetch<T>(server: Server<T>, askedPage: Option<int>, askedSize: Option<int>): (Page<T>, seq<Request>) {
    var size := PageSize(askedSize);
    var first := First(askedPage, size);
    var result := Read(server(0, Ask(first, size)), first, first, size);
    if result.Loaded? && result.total > 0 && first > result.pageCount then
      var last := result.pageCount;
      (Read(server(1, Ask(last, size)), last, first, size), [Ask(first, size), Ask(last, size)])
    else (result, [Ask(first, size)])
  }

  /** What both routes accept, whichever of their limits (50 or 100 rows) is the tighter. */
  predicate Accepted(r: Request) { 1 <= r.limit <= 50 && 0 <= r.offset <= MAX_CATALOG_OFFSET }

  /**
   Whatever is asked and whatever the server answers: one or two requests, each one the routes accept; the second
   is for the last page, and is made exactly if the first answer says there are rows but not so many pages. The
   last answer decides: its rows are shown under the page they were asked for, and a failure is blamed on
   the query, on the rate limit or on neither, never on both.
  */
  lemma RequestsAccepted<T>(server: Server<T>, page: Option<int>, size: Option<int>)
    ensures var (result, requests) := Fetch(server, page, size);
            && 1 <= |requests| <= 2
            && (forall r :: r in requests ==> Accepted(r))
            && (|requests| == 2 ==> requests[1].offset < requests[0].offset)
            && var first, told := First(page, PageSize(size)), server(0, requests[0]);
            && requests[0] == Ask(first, PageSize(size))
            && (|requests| == 2 <==>
                  && told.Body? && OrElse(told.total, |told.rows|) > 0
                  && first > PageCount(OrElse(told.total, |told.rows|), PageSize(size)))
            && (|requests| == 2 ==>
                  requests[1] == Ask(PageCount(OrElse(told.total, |told.rows|), PageSize(size)), PageSize(size)))
            && var answer := server(|requests| - 1, requests[|requests| - 1]);
            && (result.Loaded? <==> answer.Body?)
            && (result.Loaded? ==>
                  && result.rows == answer.rows
                  && result.total == OrElse(answer.total, |answer.rows|)
                  && result.pageCount == PageCount(result.total, PageSize(size))
                  && requests[|requests| - 1] == Ask(result.page, PageSize(size)))
            && (result.LoadError? ==>
                  && result.page == First(page, PageSize(size))
                  && (result.rateLimited <==> answer.status == Some(429))
                  && (result.invalidQuery <==>
                        answer.status.Some? && 400 <= answer.status.value < 500 && !result.rateLimited))
  {
    var n := PageSize(size);
    var first := First(page, n);
    OffsetBound(first, n);
    var result := Read(server(0, Ask(first, n)), first, first, n);
    if result.Loaded? && result.total > 0 && first > result.pageCount {
      OffsetBound(result.pageCount, n);
      ProductLess(result.pageCount - 1, first - 1, n);
    }
  }

  lemma ProductLess(a: int, b: int, k: int)
    requires a < b && k > 0
    ensures a * k < b * k
  {}

  lemma OffsetBound(page: int, size: int)
    requires size > 0
    ensures page <= MaxPage(size) <==> Offset(page, size) <= MAX_CATALOG_OFFSET
    ensures page >= 1 ==> Offset(page, size) >= 0
  {
    var q := MAX_CATALOG_OFFSET / size;
    assert q * size <= MAX_CATALOG_OFFSET < (q + 1) * size;
    if page <= q + 1 { if page - 1 < q { ProductLess(page - 1, q, size); } }
    else if q + 1 < page - 1 { ProductLess(q + 1, page - 1, size); }
    if page > 1 { ProductLess(0, page - 1, size); }
  }

  /** The routes over a fixed list: a slice and the size of the whole, or a refusal of a request out of bounds. */
  function Catalog<T>(list: seq<T>): Server<T> {
    (_: nat, r: Request) =>
      if Accepted(r) then Body(PageOf(list, r.offset, r.limit), Some(|list|)) else Failure(Some(400))
  }

  function PageOf<T>(list: seq<T>, offset: nat, limit: nat): (rows: seq<T>)
    ensures forall i :: 0 <= i < |rows| ==> offset + i < |list| && rows[i] == list[offset + i]
  {
    if offset > |list| then [] else list[offset..Min(offset + limit, |list|)]
  }

  /** The last page starts inside the list and ends it. */
  lemma LastPage(total: nat, size: int)
    requires size > 0
    ensures total > 0 ==> (PageCount(total, size) - 1) * size < total
    ensures total <= PageCount(total, size) * size
  {}

  /** The pages that exist below the ceiling: each starts within it and, if any row is left for it, inside the list. */
  lemma PageStart(page: int, total: nat, size: int)
    requires size > 0 && 1 <= page <= MaxPage(size)
    ensures 0 <= Offset(page, size) <= MAX_CATALOG_OFFSET
    ensures total > 0 && page <= PageCount(total, size) ==> Offset(page, size) < total
  {
    OffsetBound(page, size);
    LastPage(total, size);
    if page < PageCount(total, size) { ProductLess(page - 1, PageCount(total, size) - 1, size); }
  }

  lemma LoadPage<T>(list: seq<T>, attempt: nat, page: int, first: int, size: int)
    requires 1 <= size <= 48 && 1 <= page <= MaxPage(size)
    ensures Offset(page, size) >= 0
    ensures Read(Catalog(list)(attempt, Ask(page, size)), page, first, size)
         == Loaded(PageOf(list, Offset(page, size), size), |list|, page, PageCount(|list|, size))
  {
    hide MaxPage, PageCount, Offset;
    PageStart(page, |list|, size);
  }

  /**
   Over a fixed list no query is refused, and the page shown is the one asked for, pulled back to the offset
   ceiling and, unless the list is empty, to the last page; it is then never an empty page.
   */
  lemma StableFetch<T>(list: seq<T>, page: Option<int>, size: Option<int>)
    ensures var n := PageSize(size);
            var first := First(page, n);
            var count := PageCount(|list|, n);
            var shown := if list == [] then first else Min(first, count);
            var result := Fetch(Catalog(list), page, size).0;
            && Offset(shown, n) >= 0
            && result == Loaded(PageOf(list, Offset(shown, n), n), |list|, shown, count)
            && (list != [] ==> 1 <= shown <= count && result.rows != [])
  {
    hide Catalog, Read, PageCount, PageOf, MaxPage, PageSize, Offset;
    var n := PageSize(size);
    var first := First(page, n);
    var count := PageCount(|list|, n);
    LoadPage(list, 0, first, first, n);
    PageStart(first, |list|, n);
    if list != [] {
      LoadPage(list, 1, Min(first, count), first, n);
      PageStart(Min(first, count), |list|, n);
      RowLeft(list, Offset(Min(first, count), n), n);
    }
  }

  lemma RowLeft<T>(list: seq<T>, offset: nat, limit: nat)
    requires offset < |list| && limit > 0
    ensures PageOf(list, offset, limit) != []
    ensures list[..offset] + PageOf(list, offset, limit) == list[..Min(|list|, offset + limit)]
  {}

  /** The rows of pages 1 to `upTo`, one fetch after another. */
  function Browse<T>(list: seq<T>, upTo: nat, size: Option<int>): seq<T> {
    if upTo == 0 then [] else
    var result := Fetch(Catalog(list), Some(upTo), size).0;
    Browse(list, upTo - 1, size) + if result.Loaded? then result.rows else []
  }

  /**
   Browsing the pages one by one shows every row below the ceiling once and in order. So the whole list can
   be seen exactly when its last page starts within the offset ceiling.
   */
  lemma PagesTile<T>(list: seq<T>, size: Option<int>)
    ensures var n := PageSize(size);
            var count := PageCount(|list|, n);
            var reach := Min(|list|, MaxPage(n) * n);
            && 0 <= reach
            && Browse(list, Min(count, MaxPage(n)), size) == list[..reach]
            && (reach == |list| <==> Offset(count, n) <= MAX_CATALOG_OFFSET)
  {
    hide Browse, PageCount, MaxPage;
    var n := PageSize(size);
    Reach(|list|, n);
    BrowsePrefix(list, Min(PageCount(|list|, n), MaxPage(n)), size);
  }

  lemma Reach(total: nat, size: int)
    requires size > 0
    ensures var last := Min(PageCount(total, size), MaxPage(size));
            && last >= 1
            && 0 <= Min(total, MaxPage(size) * size) == Min(total, last * size)
            && (total <= MaxPage(size) * size <==> Offset(PageCount(total, size), size) <= MAX_CATALOG_OFFSET)
  {
    var count, most := PageCount(total, size), MaxPage(size);
    hide PageCount, MaxPage;
    LastPage(total, size);
    OffsetBound(count, size);
  }

  lemma {:induction false} BrowsePrefix<T>(list: seq<T>, upTo: nat, size: Option<int>)
    requires upTo <= Min(PageCount(|list|, PageSize(size)), MaxPage(PageSize(size)))
    ensures 0 <= upTo * PageSize(size) && Browse(list, upTo, size) == list[..Min(|list|, upTo * PageSize(size))]
  {
    if upTo > 0 {
      hide PageCount, MaxPage, PageSize, Fetch, Catalog, PageOf;
      var n := PageSize(size);
      BrowsePrefix(list, upTo - 1, size);
      FetchAt(list, upTo, size);
      assert Browse(list, upTo, size) == Browse(list, upTo - 1, size) + PageOf(list, Offset(upTo, n), n);
      hide Browse;
      assert upTo * n == Offset(upTo, n) + n;
      if list == [] { Nothing(list, Offset(upTo, n), n); }
      else {
        PageStart(upTo, |list|, n);
        RowLeft(list, Offset(upTo, n), n);
      }
    }
  }

  lemma Nothing<T>(list: seq<T>, offset: nat, limit: nat)
    requires list == []
    ensures PageOf(list, offset, limit) == []
  {}

  lemma FetchAt<T>(list: seq<T>, page: int, size: Option<int>)
    requires 1 <= page <= Min(PageCount(|list|, PageSize(size)), MaxPage(PageSize(size)))
    ensures 1 <= PageSize(size) <= 48
    ensures var n := PageSize(size);
            && Offset(page, n) >= 0
            && Fetch(Catalog(list), Some(page), size).0
            == Loaded(PageOf(list, Offset(page, n), n), |list|, page, PageCount(|list|, n))
  {
    hide Fetch, PageCount, MaxPage, PageOf, Catalog;
    StableFetch(list, Some(page), size);
    if list == [] { NoPages(PageSize(size)); }
  }

  lemma NoPages(size: int)
    requires size > 0
    ensures PageCount(0, size) == 1
  {}
}
