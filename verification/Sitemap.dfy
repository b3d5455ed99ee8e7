/** The cursor loop of apps/landing/app/sitemap.ts, and the profile feed it reads. */
module Sitemap {
  import opened JsText

  const CAP := 50000
  const PER_REQUEST := 500

  datatype Profile = Profile(handle: Text, lastModified: int)
  datatype Entry = Static(path: Text) | Listed(profile: Profile)
  datatype Query = Query(limit: int, cursor: Option<Text>)
  datatype Response = NotOk | Page(profiles: seq<Profile>, nextCursor: Option<Text>)

  /** Any server at all: its answer may depend on how often it has been asked. */
  type Server = (nat, Query) -> Response

  function Entries(profiles: seq<Profile>): (r: seq<Entry>)
    ensures |r| == |profiles| && forall i :: 0 <= i < |r| ==> r[i] == Listed(profiles[i])
  {
    seq(|profiles|, i requires 0 <= i < |profiles| => Listed(profiles[i]))
  }

  /** A page that leads on to another: an empty cursor counts as none. */
  predicate More(page: Response) {
    page.Page? && page.nextCursor.Some? && page.nextCursor.value != [] && page.profiles != []
  }

  function Ask(entries: seq<Entry>, cursor: Option<Text>): Query {
    Query(if PER_REQUEST <= CAP - |entries| then PER_REQUEST else CAP - |entries|, cursor)
  }

  /** The map grown from `entries`, and every query made for it after `asked`. */
  function Crawl(server: Server, cursor: Option<Text>, entries: seq<Entry>, asked: seq<Query>): (seq<Entry>, seq<Query>)
    decreases CAP - |entries|
  {
    if |entries| >= CAP then (entries, asked) else
    var query := Ask(entries, cursor);
    var response := server(|asked|, query);
    var grown := if response.Page? then entries + Entries(response.profiles) else entries;
    if More(response) then Crawl(server, response.nextCursor, grown, asked + [query]) else (grown, asked + [query])
  }

  method Build(server: Server, base: seq<Entry>) returns (entries: seq<Entry>, asked: seq<Query>)
    ensures (entries, asked) == Crawl(server, None, base, [])
  {
    entries, asked := base, [];
    var cursor := None;
    while |entries| < CAP
      invariant Crawl(server, None, base, []) == Crawl(server, cursor, entries, asked)
      decreases CAP - |entries|
    {
      var query := Ask(entries, cursor);
      var response := server(|asked|, query);
      asked := asked + [query];
      if response.NotOk? { return; }
      entries := entries + Entries(response.profiles);
      if response.nextCursor.None? || response.nextCursor.value == [] || response.profiles == [] { return; }
      cursor := response.nextCursor;
    }
  }

  ghost predicate Honours(server: Server) {
    forall n, q :: var response := server(n, q); response.Page? && q.limit >= 0 ==> |response.profiles| <= q.limit
  }

  predicate Legal(query: Query) {
    && 1 <= query.limit <= PER_REQUEST
    && (query.cursor.Some? ==> query.cursor.value != [])
  }

  /**
   Against any server that answers: every limit asked is in 1 to 500, what was there stays in front, there
   are no more requests than places below the cap, and a server that honours the limit never takes the map
   over the cap.
  */
  lemma CrawlBounded(server: Server, base: seq<Entry>)
    ensures var (entries, asked) := Crawl(server, None, base, []);
            && (forall q :: q in asked ==> Legal(q))
            && base <= entries
            && |asked| <= (if |base| < CAP then CAP - |base| else 0)
            && (Honours(server) && |base| <= CAP ==> |entries| <= CAP)
            && (|base| >= CAP ==> entries == base)
  {
    BoundedFrom(server, None, base, []);
  }

  lemma {:induction false} BoundedFrom(server: Server, cursor: Option<Text>, entries: seq<Entry>, asked: seq<Query>)
    requires forall q :: q in asked ==> Legal(q)
    requires cursor.Some? ==> cursor.value != []
    ensures var (all, queries) := Crawl(server, cursor, entries, asked);
            && (forall q :: q in queries ==> Legal(q))
            && entries <= all
            && |queries| <= |asked| + (if |entries| < CAP then CAP - |entries| else 0)
            && (Honours(server) && |entries| <= CAP ==> |all| <= CAP)
    decreases CAP - |entries|
  {
    if |entries| < CAP {
      var query := Ask(entries, cursor);
      var response := server(|asked|, query);
      if More(response) {
        BoundedFrom(server, response.nextCursor, entries + Entries(response.profiles), asked + [query]);
      }
    }
  }

  /** The profiles of the answers to these queries, in order; an answer that is not OK has none. */
  function Gathered(server: Server, asked: seq<Query>): seq<Profile> {
    if asked == [] then []
    else
      var last := server(|asked| - 1, asked[|asked| - 1]);
      Gathered(server, asked[..|asked| - 1]) + if last.Page? then last.profiles else []
  }

  /** The k-th query asks for what fits, from where the answer before it left off; only such an answer leads to it. */
  predicate FollowsOn(server: Server, base: seq<Entry>, asked: seq<Query>, k: nat)
    requires k < |asked|
  {
    var room := CAP - |base| - |Gathered(server, asked[..k])|;
    && asked[k].limit == Min(PER_REQUEST, room) && room > 0
    && if k == 0 then asked[k].cursor == None
       else More(server(k - 1, asked[k - 1])) && asked[k].cursor == server(k - 1, asked[k - 1]).nextCursor
  }

  /** Nothing answered is dropped, and asking stops only at the cap or where an answer leads no further. */
  lemma CrawlTells(server: Server, base: seq<Entry>)
    ensures var (entries, asked) := Crawl(server, None, base, []);
            && entries == base + Entries(Gathered(server, asked))
            && (forall k :: 0 <= k < |asked| ==> FollowsOn(server, base, asked, k))
            && (|entries| >= CAP || (asked != [] && !More(server(|asked| - 1, asked[|asked| - 1]))))
  {
    assert base + Entries(Gathered(server, [])) == base;
    TellsFrom(server, base, None, base, []);
  }

  lemma {:induction false} TellsFrom(
      server: Server, base: seq<Entry>, cursor: Option<Text>, entries: seq<Entry>, asked: seq<Query>)
    requires entries == base + Entries(Gathered(server, asked))
    requires forall k :: 0 <= k < |asked| ==> FollowsOn(server, base, asked, k)
    requires if asked == [] then cursor == None
             else
               var last := server(|asked| - 1, asked[|asked| - 1]);
               More(last) && cursor == last.nextCursor
    ensures var (all, queries) := Crawl(server, cursor, entries, asked);
            && all == base + Entries(Gathered(server, queries))
            && (forall k :: 0 <= k < |queries| ==> FollowsOn(server, base, queries, k))
            && (|all| >= CAP || (queries != [] && !More(server(|queries| - 1, queries[|queries| - 1]))))
    decreases CAP - |entries|
  {
    if |entries| < CAP {
      var query := Ask(entries, cursor);
      var more := asked + [query];
      var response := server(|asked|, query);
      var grown := if response.Page? then entries + Entries(response.profiles) else entries;
      GrowsOn(server, base, asked, query, entries, grown);
      if More(response) {
        hide Gathered, Entries, FollowsOn, More;
        TellsFrom(server, base, response.nextCursor, grown, more);
      }
    }
  }

  lemma GrowsOn(
      server: Server, base: seq<Entry>, asked: seq<Query>, query: Query, entries: seq<Entry>, grown: seq<Entry>)
    requires entries == base + Entries(Gathered(server, asked)) && |entries| < CAP
    requires forall k :: 0 <= k < |asked| ==> FollowsOn(server, base, asked, k)
    requires if asked == [] then query == Ask(entries, None)
             else More(server(|asked| - 1, asked[|asked| - 1]))
                  && query == Ask(entries, server(|asked| - 1, asked[|asked| - 1]).nextCursor)
    requires var response := server(|asked|, query);
             grown == if response.Page? then entries + Entries(response.profiles) else entries
    ensures grown == base + Entries(Gathered(server, asked + [query]))
    ensures forall k :: 0 <= k <= |asked| ==> FollowsOn(server, base, asked + [query], k)
  {
    GathersOn(server, base, asked, query);
    hide Gathered, Entries, More;
    forall k | 0 <= k <= |asked| ensures FollowsOn(server, base, asked + [query], k) {
      FollowsAlike(server, base, asked, query, k);
    }
  }

  lemma GathersOn(server: Server, base: seq<Entry>, asked: seq<Query>, query: Query)
    ensures var response := server(|asked|, query);
            var entries := base + Entries(Gathered(server, asked));
            base + Entries(Gathered(server, asked + [query]))
            == if response.Page? then entries + Entries(response.profiles) else entries
  {
    assert (asked + [query])[..|asked|] == asked;
    var response := server(|asked|, query);
    var before, added := Gathered(server, asked), if response.Page? then response.profiles else [];
    assert Gathered(server, asked + [query]) == before + added;
    hide Gathered;
    assert Entries(before + added) == Entries(before) + Entries(added);
  }

  /** The queries so far are unchanged, and the new one follows on if it asks from the last answer's cursor. */
  lemma FollowsAlike(server: Server, base: seq<Entry>, asked: seq<Query>, query: Query, k: nat)
    requires k <= |asked| && (k < |asked| ==> FollowsOn(server, base, asked, k))
    requires k == |asked| ==>
               var entries := base + Entries(Gathered(server, asked));
               && |entries| < CAP
               && if asked == [] then query == Ask(entries, None)
                  else More(server(|asked| - 1, asked[|asked| - 1]))
                       && query == Ask(entries, server(|asked| - 1, asked[|asked| - 1]).nextCursor)
    ensures FollowsOn(server, base, asked + [query], k)
  {
    hide Gathered, More;
    assert (asked + [query])[..k] == asked[..k] && asked[..|asked|] == asked;
  }

  /** A member's row, in the order of its handle under `less`. */
  datatype Row = Row(profile: Profile, profilePublic: bool)
  type Order = (Text, Text) -> bool

  predicate Ordered(less: Order, rows: seq<Row>) {
    forall i, j :: 0 <= i < |rows| && 0 <= j < |rows| ==>
      (less(rows[i].profile.handle, rows[j].profile.handle) <==> i < j)
  }

  predicate Addressable(rows: seq<Row>) {
    forall r :: r in rows ==> 1 <= |r.profile.handle| <= 80
  }

  predicate Shown(less: Order, row: Row, cursor: Option<Text>) {
    row.profilePublic && (cursor.Some? ==> less(cursor.value, row.profile.handle))
  }

  function Feed(less: Order, rows: seq<Row>, cursor: Option<Text>): (feed: seq<Profile>)
    ensures forall p :: p in feed <==> exists r :: r in rows && Shown(less, r, cursor) && r.profile == p
  {
    if rows == [] then [] else
    (if Shown(less, rows[0], cursor) then [rows[0].profile] else []) + Feed(less, rows[1..], cursor)
  }

  /** The feed's route: one row more than the limit is read, to know whether there is a next page. */
  function Route(less: Order, rows: seq<Row>): Server {
    (_: nat, q: Query) =>
      if !(1 <= q.limit <= 1000) || (q.cursor.Some? && !(1 <= |q.cursor.value| <= 80)) then NotOk else
      var feed := Feed(less, rows, q.cursor);
      if |feed| > q.limit then Page(feed[..q.limit], Some(feed[q.limit - 1].handle)) else Page(feed, None)
  }

  lemma RestOrdered(less: Order, rows: seq<Row>)
    requires Ordered(less, rows) && rows != []
    ensures Ordered(less, rows[1..])
    ensures !less(rows[0].profile.handle, rows[0].profile.handle)
    ensures forall r :: r in rows[1..] ==>
              && less(rows[0].profile.handle, r.profile.handle)
              && !less(r.profile.handle, rows[0].profile.handle)
  {}

  /** Asking on from the k-th handle of the feed gives exactly what comes after it. */
  lemma {:induction false} FeedAfter(less: Order, rows: seq<Row>, k: nat)
    requires Ordered(less, rows) && k < |Feed(less, rows, None)|
    ensures Feed(less, rows, Some(Feed(less, rows, None)[k].handle)) == Feed(less, rows, None)[k + 1..]
  {
    hide Ordered;
    var rest := rows[1..];
    RestOrdered(less, rows);
    HeadComesFirst(less, rows, None);
    if rows[0].profilePublic && k == 0 {
      FeedAll(less, rest, rows[0].profile.handle);
    } else {
      var at := if rows[0].profilePublic then k - 1 else k;
      FeedAfter(less, rest, at);
    }
  }

  /** No profile is fed twice: handles ascend. */
  lemma {:induction false} FeedAscends(less: Order, rows: seq<Row>, cursor: Option<Text>, i: nat, j: nat)
    requires Ordered(less, rows) && i < |Feed(less, rows, cursor)| && j < |Feed(less, rows, cursor)|
    ensures less(Feed(less, rows, cursor)[i].handle, Feed(less, rows, cursor)[j].handle) <==> i < j
  {
    hide Ordered, Shown;
    RestOrdered(less, rows);
    HeadComesFirst(less, rows, cursor);
    var first := if Shown(less, rows[0], cursor) then 1 else 0;
    if i >= first && j >= first { FeedAscends(less, rows[1..], cursor, i - first, j - first); }
  }

  lemma HeadComesFirst(less: Order, rows: seq<Row>, cursor: Option<Text>)
    requires Ordered(less, rows) && rows != []
    ensures var h, rest := rows[0].profile.handle, Feed(less, rows[1..], cursor);
            !less(h, h) && forall i :: 0 <= i < |rest| ==> less(h, rest[i].handle) && !less(rest[i].handle, h)
  {
    hide Ordered, Shown;
    RestOrdered(less, rows);
    var rest := Feed(less, rows[1..], cursor);
    forall i | 0 <= i < |rest|
      ensures less(rows[0].profile.handle, rest[i].handle) && !less(rest[i].handle, rows[0].profile.handle)
    {
      assert rest[i] in rest;
      var r :| r in rows[1..] && r.profile == rest[i];
    }
  }

  lemma {:induction false} FeedAll(less: Order, rows: seq<Row>, cursor: Text)
    requires forall r :: r in rows ==> less(cursor, r.profile.handle)
    ensures Feed(less, rows, Some(cursor)) == Feed(less, rows, None)
  {
    if rows != [] { FeedAll(less, rows[1..], cursor); }
  }

  function Room(n: int): nat { if n < CAP then CAP - n else 0 }
  function Take<T>(s: seq<T>, n: nat): seq<T> { if n <= |s| then s[..n] else s }

  /**
   Over a fixed set of members the map is what was there, then the public profiles in order of handle, each
   once, as many as fit below the cap.
  */
  lemma CrawlComplete(less: Order, rows: seq<Row>, base: seq<Entry>)
    requires Ordered(less, rows) && Addressable(rows)
    ensures Crawl(Route(less, rows), None, base, []).0
         == base + Entries(Take(Feed(less, rows, None), Room(|base|)))
  {
    CompleteFrom(less, rows, 0, base, []);
  }

  /** The cursor with which the loop asks on after `done` profiles. */
  function CursorAt(feed: seq<Profile>, done: nat): Option<Text>
    requires done <= |feed|
  {
    if done == 0 then None else Some(feed[done - 1].handle)
  }

  lemma RouteAnswer(less: Order, rows: seq<Row>, done: nat, limit: nat, attempt: nat)
    requires Ordered(less, rows) && Addressable(rows) && done <= |Feed(less, rows, None)| && 1 <= limit <= PER_REQUEST
    ensures var feed := Feed(less, rows, None);
            Route(less, rows)(attempt, Query(limit, CursorAt(feed, done))) ==
            Page(Take(feed[done..], limit),
                 if done + limit < |feed| then CursorAt(feed, done + limit) else None)
  {
    hide Feed, Ordered, Addressable;
    var feed := Feed(less, rows, None);
    if done > 0 {
      FeedAfter(less, rows, done - 1);
      HandleLength(less, rows, done - 1);
    }
    assert done + limit < |feed| ==> feed[done..][limit - 1] == feed[done + limit - 1];
  }

  lemma {:induction false} CompleteFrom(less: Order, rows: seq<Row>, done: nat, entries: seq<Entry>, asked: seq<Query>)
    requires Ordered(less, rows) && Addressable(rows) && done <= |Feed(less, rows, None)|
    ensures var feed := Feed(less, rows, None);
            Crawl(Route(less, rows), CursorAt(feed, done), entries, asked).0 ==
            entries + Entries(Take(feed[done..], Room(|entries|)))
    decreases CAP - |entries|
  {
    hide Feed, Route, Ordered, Addressable, Take, Entries;
    var feed := Feed(less, rows, None);
    if |entries| >= CAP { LastStep(feed[done..], 0, 0); }
    else {
      hide Crawl;
      var cursor := CursorAt(feed, done);
      var query := Ask(entries, cursor);
      var limit := query.limit;
      RouteAnswer(less, rows, done, limit, |asked|);
      CrawlStep(Route(less, rows), cursor, entries, asked);
      if done + limit < |feed| {
        HandleLength(less, rows, done + limit - 1);
        TwoSteps(entries, feed[done..], limit, Room(|entries|));
        CompleteFrom(less, rows, done + limit, entries + Entries(Take(feed[done..], limit)), asked + [query]);
        assert feed[done..][limit..] == feed[done + limit..];
      } else {
        LastStep(feed[done..], limit, Room(|entries|));
      }
    }
  }

  lemma CrawlStep(server: Server, cursor: Option<Text>, entries: seq<Entry>, asked: seq<Query>)
    requires |entries| < CAP && server(|asked|, Ask(entries, cursor)).Page?
    ensures var response := server(|asked|, Ask(entries, cursor));
            var grown := entries + Entries(response.profiles);
            Crawl(server, cursor, entries, asked) ==
            if More(response) then Crawl(server, response.nextCursor, grown, asked + [Ask(entries, cursor)])
            else (grown, asked + [Ask(entries, cursor)])
  {}

  lemma HandleLength(less: Order, rows: seq<Row>, k: nat)
    requires Addressable(rows) && k < |Feed(less, rows, None)|
    ensures 1 <= |Feed(less, rows, None)[k].handle| <= 80
  {
    assert Feed(less, rows, None)[k] in Feed(less, rows, None);
  }

  lemma TwoSteps(entries: seq<Entry>, feed: seq<Profile>, limit: nat, room: nat)
    requires limit < |feed| && limit <= room
    ensures |Entries(Take(feed, limit))| == limit
    ensures entries + Entries(Take(feed, limit)) + Entries(Take(feed[limit..], room - limit))
         == entries + Entries(Take(feed, room))
  {}

  lemma LastStep(feed: seq<Profile>, limit: nat, room: nat)
    requires limit <= room && (|feed| <= limit || room == 0)
    ensures Entries(Take(feed, limit)) == Entries(Take(feed, room))
    ensures room == 0 ==> Entries(Take(feed, room)) == []
  {}
}
