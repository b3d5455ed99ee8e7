/** `fetchAllDatasetTypes` of apps/admin/lib/dataset-type-pages.ts: collect a paged list, or say it is short. */
module DatasetPages {
  import opened JsText

  const PAGE_SIZE := 200
  const MAX_PAGES := 40

  datatype Response<T> = Refused(status: int) | Page(rows: seq<T>, total: Option<int>)

  /** Any server at all: its answer may depend on how often it has been asked. */
  type Server<!T> = (nat, nat) -> Response<T>

  datatype Result<T> = Collected(rows: seq<T>, total: int, truncated: bool) | Failed(status: int)

  /** The sweep from page `page` on, holding `have`; and how many requests it makes. */
  function Sweep<T>(server: Server<T>, page: nat, have: seq<T>, total: int): (Result<T>, nat)
    requires page <= MAX_PAGES
    decreases MAX_PAGES - page
  {
    if page == MAX_PAGES then (Collected(have, total, true), 0)
    else match server(page, |have|)
      case Refused(status) => (Failed(status), 1)
      case Page(rows, reported) =>
        var all := have + rows;
        var count := if reported.Some? then reported.value else |all|;
        if |all| >= count then (Collected(all, count, false), 1)
        else if |rows| < PAGE_SIZE then (Collected(all, count, true), 1)
        else var (result, requests) := Sweep(server, page + 1, all, count); (result, requests + 1)
  }

  method FetchAllDatasetTypes<T>(server: Server<T>) returns (result: Result<T>, requests: nat)
    ensures (result, requests) == Sweep(server, 0, [], 0)
  {
    var datasetTypes: seq<T> := [];
    var total, truncated, page := 0, false, 0;
    while true
      invariant page <= MAX_PAGES && !truncated
      invariant var (r, n) := Sweep(server, page, datasetTypes, total); Sweep(server, 0, [], 0) == (r, page + n)
      decreases MAX_PAGES - page
    {
      if page >= MAX_PAGES {
        truncated := true;
        break;
      }
      var response := server(page, |datasetTypes|);
      page := page + 1;
      if response.Refused? { return Failed(response.status), page; }
      var rows := response.rows;
      total := if response.total.Some? then response.total.value else |datasetTypes| + |rows|;
      datasetTypes := datasetTypes + rows;
      if |datasetTypes| >= total { break; }
      if |rows| < PAGE_SIZE {
        truncated := true;
        break;
      }
    }
    return Collected(datasetTypes, total, truncated), page;
  }

  /**
   Against any server: at most `MAX_PAGES` requests, and a collected list is called whole exactly when it
   has as many rows as the server last reported.
   */
  lemma SweepHonest<T>(server: Server<T>)
    ensures var (result, requests) := Sweep(server, 0, [], 0);
            && 1 <= requests <= MAX_PAGES
            && (result.Collected? ==> (result.truncated <==> |result.rows| < result.total))
  {
    HonestFrom(server, 0, [], 0);
  }

  lemma {:induction false} HonestFrom<T>(server: Server<T>, page: nat, have: seq<T>, total: int)
    requires page <= MAX_PAGES && (page > 0 ==> |have| < total)
    ensures var (result, requests) := Sweep(server, page, have, total);
            && requests <= MAX_PAGES - page && (page < MAX_PAGES ==> requests >= 1)
            && (result.Collected? ==> (result.truncated <==> |result.rows| < result.total))
    decreases MAX_PAGES - page
  {
    if page < MAX_PAGES {
      match server(page, |have|)
      case Refused(status) =>
      case Page(rows, reported) =>
        var all := have + rows;
        var count := if reported.Some? then reported.value else |all|;
        if |all| < count && |rows| >= PAGE_SIZE { HonestFrom(server, page + 1, all, count); }
    }
  }

  // ---- what the server said, and what is made of it ----

  /** The rows of the first n answers in order, or nothing if one of them was a refusal. */
  function Answered<T>(server: Server<T>, n: nat): Option<seq<T>> {
    if n == 0 then Some([])
    else match Answered(server, n - 1)
      case None => None
      case Some(have) =>
        match server(n - 1, |have|)
        case Refused(_) => None
        case Page(rows, _) => Some(have + rows)
  }

  /** The count the n-th answer stands for. */
  function CountOf<T>(server: Server<T>, n: nat): int
    requires n > 0 && Answered(server, n).Some?
  {
    match server(n - 1, |Answered(server, n - 1).value|).total
    case Some(total) => total
    case None => |Answered(server, n).value|
  }

  /** After n answers there is reason to ask on: rows are missing, and the last page was a full one. */
  predicate Unfinished<T>(server: Server<T>, n: nat) {
    && n > 0 && Answered(server, n).Some?
    && |Answered(server, n).value| < CountOf(server, n)
    && |Answered(server, n).value| - |Answered(server, n - 1).value| >= PAGE_SIZE
  }

  /**
   The result after n requests: the rows and count of all answers and no reason or no leave to ask on, or the
   status of the last answer, which was the first refusal.
  */
  ghost predicate Tells<T>(server: Server<T>, result: Result<T>, n: nat) {
    && n > 0 && Answered(server, n - 1).Some?
    && match result
       case Collected(rows, total, truncated) =>
         && Answered(server, n) == Some(rows) && total == CountOf(server, n)
         && (n == MAX_PAGES || !Unfinished(server, n))
       case Failed(status) => server(n - 1, |Answered(server, n - 1).value|) == Refused(status)
  }

  /** Before each of n requests but the first there was reason to make it. */
  predicate AskedOn<T>(server: Server<T>, n: nat) {
    forall k :: 1 <= k < n ==> Unfinished(server, k)
  }

  /** Against any server, the result tells exactly what was answered, and no request is made without reason. */
  lemma SweepTells<T>(server: Server<T>)
    ensures var (result, requests) := Sweep(server, 0, [], 0);
            Tells(server, result, requests) && AskedOn(server, requests)
  {
    TellsFrom(server, 0, 0);
  }

  lemma {:induction false} TellsFrom<T>(server: Server<T>, page: nat, total: int)
    requires page <= MAX_PAGES && Answered(server, page).Some? && AskedOn(server, page + 1)
    requires page > 0 ==> total == CountOf(server, page)
    ensures var (result, requests) := Sweep(server, page, Answered(server, page).value, total);
            Tells(server, result, page + requests) && AskedOn(server, page + requests)
    decreases MAX_PAGES - page
  {
    var have := Answered(server, page).value;
    if page == MAX_PAGES {
      AnsweredBefore(server, page);
    } else {
      NextAnswer(server, page);
      SweepStep(server, page, have, total);
      if server(page, |have|).Page? && Unfinished(server, page + 1) {
        AskOn(server, page + 1);
        hide Answered, CountOf, Unfinished, Sweep, Tells, AskedOn;
        TellsFrom(server, page + 1, CountOf(server, page + 1));
      } else {
        hide Answered, CountOf, Unfinished, Sweep, AskedOn;
      }
    }
  }

  lemma AnsweredBefore<T>(server: Server<T>, n: nat)
    requires n > 0 && Answered(server, n).Some?
    ensures Answered(server, n - 1).Some?
  {
  }

  lemma AskOn<T>(server: Server<T>, n: nat)
    requires AskedOn(server, n) && Unfinished(server, n)
    ensures AskedOn(server, n + 1)
  {
    hide Unfinished;
  }

  /** One round of the sweep. */
  lemma SweepStep<T>(server: Server<T>, page: nat, have: seq<T>, total: int)
    requires page < MAX_PAGES
    ensures match server(page, |have|)
            case Refused(status) => Sweep(server, page, have, total) == (Failed(status), 1)
            case Page(rows, reported) =>
              var count := if reported.Some? then reported.value else |have + rows|;
              if |have + rows| < count && |rows| >= PAGE_SIZE then
                var rest := Sweep(server, page + 1, have + rows, count);
                Sweep(server, page, have, total) == (rest.0, rest.1 + 1)
              else Sweep(server, page, have, total) == (Collected(have + rows, count, |have + rows| < count), 1)
  {
  }

  /** What one more answer adds. */
  lemma NextAnswer<T>(server: Server<T>, n: nat)
    requires Answered(server, n).Some?
    ensures var have := Answered(server, n).value;
            match server(n, |have|)
            case Refused(_) => Answered(server, n + 1) == None
            case Page(rows, reported) =>
              var count := if reported.Some? then reported.value else |have + rows|;
              && Answered(server, n + 1) == Some(have + rows) && CountOf(server, n + 1) == count
              && (Unfinished(server, n + 1) <==> |have + rows| < count && |rows| >= PAGE_SIZE)
  {
  }

  /** The route itself: a slice of a fixed list, with or without the count of the whole. */
  function Slice<T>(list: seq<T>, skip: nat, limit: nat): seq<T> {
    if skip > |list| then [] else if skip + limit <= |list| then list[skip..skip + limit] else list[skip..]
  }

  function Stable<T>(list: seq<T>, counted: bool): Server<T> {
    (_: nat, skip: nat) => Page(Slice(list, skip, PAGE_SIZE), if counted then Some(|list|) else None)
  }

  /** A list up to the ceiling is returned whole and in order; a longer one is cut there and flagged. */
  lemma StableSweep<T>(list: seq<T>)
    ensures Sweep(Stable(list, true), 0, [], 0).0
         == if |list| <= PAGE_SIZE * MAX_PAGES then Collected(list, |list|, false)
            else Collected(list[..PAGE_SIZE * MAX_PAGES], |list|, true)
  {
    StableFrom(list, 0, 0);
  }

  lemma {:induction false} StableFrom<T>(list: seq<T>, page: nat, total: int)
    requires page <= MAX_PAGES && page * PAGE_SIZE <= |list|
    requires page > 0 ==> page * PAGE_SIZE < |list| && total == |list|
    ensures Sweep(Stable(list, true), page, list[..page * PAGE_SIZE], total).0
         == if |list| <= PAGE_SIZE * MAX_PAGES then Collected(list, |list|, false)
            else Collected(list[..PAGE_SIZE * MAX_PAGES], |list|, true)
    decreases MAX_PAGES - page
  {
    if page < MAX_PAGES {
      var n := page * PAGE_SIZE;
      SliceExtends(list, n);
      hide Slice;
      if n + PAGE_SIZE < |list| { StableFrom(list, page + 1, |list|); }
    }
  }

  lemma SliceExtends<T>(list: seq<T>, n: nat)
    requires n <= |list|
    ensures list[..n] + Slice(list, n, PAGE_SIZE) == if n + PAGE_SIZE < |list| then list[..n + PAGE_SIZE] else list
    ensures |Slice(list, n, PAGE_SIZE)| == Min(PAGE_SIZE, |list| - n)
  {
  }

  /** A server that reports no count is asked once and believed: the list is whole exactly when it fits one page. */
  lemma UncountedSweep<T>(list: seq<T>)
    ensures var (result, requests) := Sweep(Stable(list, false), 0, [], 0);
            && requests == 1 && result == Collected(Slice(list, 0, PAGE_SIZE), |Slice(list, 0, PAGE_SIZE)|, false)
            && (result.rows == list <==> |list| <= PAGE_SIZE)
  {}
}
