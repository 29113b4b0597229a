/** Keyset pagination of backend/app/audit/service.py, followed page by page while events arrive. */
module AuditPages {
  import opened Common
  import opened Text

  datatype Event = Event(time: int, id: string, body: string)

  /** The cursor after an event: its timestamp and id. */
  datatype Cursor = Cursor(time: int, id: string)

  function KeyOf(e: Event): Cursor {
    Cursor(e.time, e.id)
  }

  /** created_at < t OR (created_at == t AND id < i) */
  predicate Older(a: Cursor, b: Cursor) {
    a.time < b.time || (a.time == b.time && a.id != b.id && LessEq(a.id, b.id))
  }

  lemma OlderTotal(a: Cursor, b: Cursor)
    ensures Older(a, b) || Older(b, a) || a == b
  {
    LessEqTotal(a.id, b.id);
  }

  lemma OlderIrreflexive(a: Cursor, b: Cursor)
    requires Older(a, b)
    ensures !Older(b, a) && a != b
  {
    if Older(b, a) {
      LessEqAntisymmetric(a.id, b.id);
    }
  }

  lemma OlderTransitive(a: Cursor, b: Cursor, c: Cursor)
    requires Older(a, b) && Older(b, c)
    ensures Older(a, c)
  {
    if a.time == c.time {
      LessEqTransitive(a.id, b.id, c.id);
      if a.id == c.id {
        LessEqAntisymmetric(a.id, b.id);
      }
    }
  }

  /** id is the primary key of the table. */
  ghost predicate UniqueIds(table: set<Event>) {
    forall e, f :: e in table && f in table && e.id == f.id ==> e == f
  }

  /** Strictly newest first. */
  ghost predicate Descending(events: seq<Event>) {
    forall i, j :: 0 <= i < j < |events| ==> Older(KeyOf(events[j]), KeyOf(events[i]))
  }

  // ---------------------------------------------------------------- ORDER BY

  ghost predicate IsNewest(e: Event, s: set<Event>) {
    e in s && forall f :: f in s && f != e ==> Older(KeyOf(f), KeyOf(e))
  }

  lemma NewestExists(s: set<Event>)
    requires s != {} && UniqueIds(s)
    ensures exists e :: IsNewest(e, s)
    decreases |s|
  {
    var e :| e in s;
    var rest := s - {e};
    if rest == {} {
      assert s == {e};
      assert IsNewest(e, s);
    } else {
      NewestExists(rest);
      var n :| IsNewest(n, rest);
      OlderTotal(KeyOf(e), KeyOf(n));
      if Older(KeyOf(n), KeyOf(e)) {
        forall f | f in s && f != e ensures Older(KeyOf(f), KeyOf(e)) {
          if f != n {
            OlderTransitive(KeyOf(f), KeyOf(n), KeyOf(e));
          }
        }
        assert IsNewest(e, s);
      } else {
        assert IsNewest(n, s);
      }
    }
  }

  /** ORDER BY created_at DESC, id DESC */
  ghost function NewestFirst(s: set<Event>): seq<Event>
    requires UniqueIds(s)
    decreases |s|
  {
    if s == {} then []
    else
      NewestExists(s);
      var e :| IsNewest(e, s);
      [e] + NewestFirst(s - {e})
  }

  lemma {:induction false} NewestFirstSorts(s: set<Event>)
    requires UniqueIds(s)
    ensures Descending(NewestFirst(s))
    ensures forall e :: e in NewestFirst(s) <==> e in s
    ensures |NewestFirst(s)| == |s|
    ensures forall i, j :: 0 <= i < j < |NewestFirst(s)| ==>
      var newer, older := NewestFirst(s)[i], NewestFirst(s)[j];
      older.time < newer.time || (older.time == newer.time && older.id != newer.id && LessEq(older.id, newer.id))
    decreases |s|
  {
    if s == {} {
    } else {
      var r := NewestFirst(s);
      NewestFirstSorts(s - {r[0]});
      assert r == [r[0]] + r[1..];
    }
  }

  // ---------------------------------------------------------------- one request

  datatype Page = Page(events: seq<Event>, hasMore: bool, next: Option<Cursor>)

  /** The rows a request selects before ordering. */
  ghost function Selected(table: set<Event>, keep: Event -> bool, cursor: Option<Cursor>): set<Event> {
    set e | e in table && keep(e) && (cursor.Some? ==> Older(KeyOf(e), cursor.value))
  }

  /** AuditService.list: read one row more than the limit, cut, and point at the last row kept. */
  ghost function ListPage(table: set<Event>, keep: Event -> bool, cursor: Option<Cursor>, limit: nat): Page
    requires UniqueIds(table) && limit >= 1
  {
    var ordered := NewestFirst(Selected(table, keep, cursor));
    var records := if |ordered| > limit + 1 then ordered[..limit + 1] else ordered;
    var hasMore := |records| > limit;
    var page := if hasMore then records[..limit] else records;
    Page(page, hasMore, if hasMore && page != [] then Some(KeyOf(page[|page| - 1])) else None)
  }

  /** The page is the front of the ordered rows. */
  lemma PageIsFront(table: set<Event>, keep: Event -> bool, cursor: Option<Cursor>, limit: nat)
    requires UniqueIds(table) && limit >= 1
    ensures var p, ordered := ListPage(table, keep, cursor, limit), NewestFirst(Selected(table, keep, cursor));
            if |ordered| > limit
            then p == Page(ordered[..limit], true, Some(KeyOf(ordered[limit - 1])))
            else p == Page(ordered, false, None)
  {
    var ordered := NewestFirst(Selected(table, keep, cursor));
    if |ordered| > limit {
      assert ordered[..limit + 1][..limit] == ordered[..limit];
    }
  }

  /** What a page tells about the rows it was cut from. */
  ghost predicate PageFits(p: Page, rows: set<Event>, limit: nat)
    requires limit >= 1
  {
    && Descending(p.events)
    && (forall e :: e in p.events ==> e in rows)
    && p.hasMore == (|rows| > limit) && p.next.Some? == p.hasMore
    && |p.events| == (if p.hasMore then limit else |rows|)
    && (!p.hasMore ==> forall e :: e in rows ==> e in p.events)
    && (p.hasMore ==>
          && p.next.value == KeyOf(p.events[limit - 1])
          && (forall e :: e in rows ==> e in p.events || Older(KeyOf(e), p.next.value))
          && (forall e :: e in p.events ==> e == p.events[limit - 1] || Older(p.next.value, KeyOf(e))))
  }

  lemma FrontFits(ordered: seq<Event>, rows: set<Event>, limit: nat)
    requires limit >= 1 && Descending(ordered) && |ordered| == |rows| > limit
    requires forall e :: e in ordered <==> e in rows
    ensures PageFits(Page(ordered[..limit], true, Some(KeyOf(ordered[limit - 1]))), rows, limit)
  {
    var page := ordered[..limit];
    forall e | e in rows ensures e in page || Older(KeyOf(e), KeyOf(ordered[limit - 1])) {
      var i :| 0 <= i < |ordered| && ordered[i] == e;
      if i < limit {
        assert page[i] == e;
      }
    }
    forall e | e in page ensures e == ordered[limit - 1] || Older(KeyOf(ordered[limit - 1]), KeyOf(e)) {
      var i :| 0 <= i < limit && ordered[i] == e;
    }
    forall e | e in page ensures e in rows {
      assert e in ordered;
    }
  }

  /** A page holds the newest selected rows; everything else selected is older than its cursor. */
  lemma PageCuts(table: set<Event>, keep: Event -> bool, cursor: Option<Cursor>, limit: nat)
    requires UniqueIds(table) && limit >= 1
    ensures PageFits(ListPage(table, keep, cursor, limit), Selected(table, keep, cursor), limit)
  {
    var rows := Selected(table, keep, cursor);
    var ordered := NewestFirst(rows);
    NewestFirstSorts(rows);
    PageIsFront(table, keep, cursor, limit);
    if |ordered| > limit {
      FrontFits(ordered, rows, limit);
    }
  }

  // ---------------------------------------------------------------- following the cursor

  /** The pages a client reads; tables[k] is the table when it sends request k. */
  ghost function Follow(tables: seq<set<Event>>, keep: Event -> bool, cursor: Option<Cursor>, limit: nat): seq<Page>
    requires limit >= 1 && forall t :: t in tables ==> UniqueIds(t)
  {
    if tables == [] then []
    else
      var page := ListPage(tables[0], keep, cursor, limit);
      if page.next.None? then [page] else [page] + Follow(tables[1..], keep, page.next, limit)
  }

  /** All the events read, in reading order. */
  ghost function Events(pages: seq<Page>): seq<Event> {
    if pages == [] then [] else pages[0].events + Events(pages[1..])
  }

  /** The client stopped because there was no next cursor. */
  ghost predicate Finished(pages: seq<Page>) {
    pages != [] && pages[|pages| - 1].next.None?
  }

  /** Audit rows are inserted and never deleted. */
  ghost predicate Growing(tables: seq<set<Event>>) {
    forall i, j :: 0 <= i <= j < |tables| ==> tables[i] <= tables[j]
  }

  lemma {:induction false} EventsAreOlder(tables: seq<set<Event>>, keep: Event -> bool, cursor: Cursor, limit: nat)
    requires limit >= 1 && forall t :: t in tables ==> UniqueIds(t)
    ensures forall e :: e in Events(Follow(tables, keep, Some(cursor), limit)) ==> Older(KeyOf(e), cursor)
  {
    if tables == [] {
    } else {
      var page := ListPage(tables[0], keep, Some(cursor), limit);
      var pages := Follow(tables, keep, Some(cursor), limit);
      PageCuts(tables[0], keep, Some(cursor), limit);
      if page.next.Some? {
        EventsAreOlder(tables[1..], keep, page.next.value, limit);
        assert pages[1..] == Follow(tables[1..], keep, page.next, limit);
        var last := page.events[limit - 1];
        assert last in page.events;
        forall e | e in Events(pages[1..]) ensures Older(KeyOf(e), cursor) {
          OlderTransitive(KeyOf(e), page.next.value, cursor);
        }
      } else {
        assert pages[1..] == [];
      }
    }
  }

  /** Whatever is inserted between requests, the reading order is strictly newest first: no event is
      returned twice. */
  lemma {:induction false} NothingTwice(tables: seq<set<Event>>, keep: Event -> bool, cursor: Option<Cursor>, limit: nat)
    requires limit >= 1 && forall t :: t in tables ==> UniqueIds(t)
    ensures Descending(Events(Follow(tables, keep, cursor, limit)))
  {
    if tables == [] {
    } else {
      var page := ListPage(tables[0], keep, cursor, limit);
      var pages := Follow(tables, keep, cursor, limit);
      PageCuts(tables[0], keep, cursor, limit);
      if page.next.Some? {
        NothingTwice(tables[1..], keep, page.next, limit);
        EventsAreOlder(tables[1..], keep, page.next.value, limit);
        assert pages[1..] == Follow(tables[1..], keep, page.next, limit);
        var rest := Events(pages[1..]);
        forall e, f | e in page.events && f in rest ensures Older(KeyOf(f), KeyOf(e)) {
          if e != page.events[limit - 1] {
            OlderTransitive(KeyOf(f), page.next.value, KeyOf(e));
          }
        }
        DescendingConcat(page.events, rest);
      } else {
        assert pages[1..] == [] && page.events + [] == page.events;
      }
    }
  }

  lemma DescendingConcat(a: seq<Event>, b: seq<Event>)
    requires Descending(a) && Descending(b)
    requires forall e, f :: e in a && f in b ==> Older(KeyOf(f), KeyOf(e))
    ensures Descending(a + b)
  {
    forall i, j | 0 <= i < j < |a + b| ensures Older(KeyOf((a + b)[j]), KeyOf((a + b)[i])) {
      if i < |a| && j >= |a| {
        assert a[i] in a && b[j - |a|] in b;
      }
    }
  }

  /** What a page leaves is still there, behind its cursor, at the next request. */
  lemma RestMovesOn(table: set<Event>, later: set<Event>, keep: Event -> bool, cursor: Option<Cursor>, limit: nat, e: Event)
    requires UniqueIds(table) && limit >= 1 && table <= later
    requires ListPage(table, keep, cursor, limit).next.Some?
    requires e in Selected(table, keep, cursor) && e !in ListPage(table, keep, cursor, limit).events
    ensures e in Selected(later, keep, ListPage(table, keep, cursor, limit).next)
  {
    PageCuts(table, keep, cursor, limit);
  }

  lemma FollowOn(tables: seq<set<Event>>, keep: Event -> bool, cursor: Option<Cursor>, limit: nat)
    requires limit >= 1 && forall t :: t in tables ==> UniqueIds(t)
    requires |tables| >= 2 && ListPage(tables[0], keep, cursor, limit).next.Some?
    requires Finished(Follow(tables, keep, cursor, limit))
    ensures var page := ListPage(tables[0], keep, cursor, limit);
            var rest := Follow(tables[1..], keep, page.next, limit);
            Finished(rest) && Events(Follow(tables, keep, cursor, limit)) == page.events + Events(rest)
  {
    var page := ListPage(tables[0], keep, cursor, limit);
    var rest := Follow(tables[1..], keep, page.next, limit);
    var pages := Follow(tables, keep, cursor, limit);
    assert pages == [page] + rest && pages[1..] == rest;
    assert pages[|pages| - 1] == rest[|rest| - 1];
  }

  /** A client that reads to the end has seen every matching event that was there at its first request. */
  lemma {:induction false} NothingMissed(tables: seq<set<Event>>, keep: Event -> bool, cursor: Option<Cursor>, limit: nat)
    requires limit >= 1 && forall t :: t in tables ==> UniqueIds(t)
    requires tables != [] && Growing(tables) && Finished(Follow(tables, keep, cursor, limit))
    ensures forall e :: e in Selected(tables[0], keep, cursor) ==> e in Events(Follow(tables, keep, cursor, limit))
  {
    var page := ListPage(tables[0], keep, cursor, limit);
    if page.next.None? {
      PageCuts(tables[0], keep, cursor, limit);
      assert [page][1..] == [];
    } else if |tables| >= 2 {
      FollowOn(tables, keep, cursor, limit);
      NothingMissed(tables[1..], keep, page.next, limit);
      forall e | e in Selected(tables[0], keep, cursor) && e !in page.events
        ensures e in Events(Follow(tables[1..], keep, page.next, limit))
      {
        RestMovesOn(tables[0], tables[1], keep, cursor, limit, e);
      }
    }
  }

  /** Every page is one request on its own table. */
  lemma {:induction false} PageOfRequest(tables: seq<set<Event>>, keep: Event -> bool, cursor: Option<Cursor>, limit: nat, k: nat)
    returns (from: Option<Cursor>)
    requires limit >= 1 && forall t :: t in tables ==> UniqueIds(t)
    requires k < |Follow(tables, keep, cursor, limit)|
    ensures k < |tables| && Follow(tables, keep, cursor, limit)[k] == ListPage(tables[k], keep, from, limit)
  {
    if k == 0 {
      return cursor;
    }
    var page := ListPage(tables[0], keep, cursor, limit);
    var rest := Follow(tables[1..], keep, page.next, limit);
    assert Follow(tables, keep, cursor, limit) == [page] + rest;
    from := PageOfRequest(tables[1..], keep, page.next, limit, k - 1);
  }

  /** Every event read was in the table of its own request and matched the filter. */
  lemma NothingForeign(tables: seq<set<Event>>, keep: Event -> bool, cursor: Option<Cursor>, limit: nat, k: nat)
    requires limit >= 1 && forall t :: t in tables ==> UniqueIds(t)
    requires k < |Follow(tables, keep, cursor, limit)|
    ensures k < |tables|
    ensures forall e :: e in Follow(tables, keep, cursor, limit)[k].events ==> e in tables[k] && keep(e)
  {
    var from := PageOfRequest(tables, keep, cursor, limit, k);
    PageCuts(tables[k], keep, from, limit);
  }

  // ---------------------------------------------------------------- a quiet table

  lemma {:induction false} DescendingIsUnique(a: seq<Event>, b: seq<Event>)
    requires Descending(a) && Descending(b) && forall e :: e in a <==> e in b
    ensures a == b
  {
    assert (set e | e in a) == (set e | e in b);
    DistinctCount(a);
    DistinctCount(b);
    if a == [] {
    } else {
      assert a[0] in a;
      HeadsAgree(a, b);
      forall e ensures e in a[1..] <==> e in b[1..] {
        if e in a[1..] {
          assert e in a;
          RestDiffersFromHead(a, e);
        }
        if e in b[1..] {
          assert e in b;
          RestDiffersFromHead(b, e);
        }
      }
      DescendingIsUnique(a[1..], b[1..]);
      assert a == [a[0]] + a[1..] && b == [b[0]] + b[1..];
    }
  }

  lemma RestDiffersFromHead(a: seq<Event>, e: Event)
    requires Descending(a) && a != [] && e in a[1..]
    ensures e != a[0]
  {
    var i :| 1 <= i < |a| && a[i] == e;
    OlderIrreflexive(KeyOf(a[i]), KeyOf(a[0]));
  }

  lemma HeadsAgree(a: seq<Event>, b: seq<Event>)
    requires Descending(a) && Descending(b) && a != [] && b != [] && a[0] in b && b[0] in a
    ensures a[0] == b[0]
  {
    var i :| 0 <= i < |b| && b[i] == a[0];
    var j :| 0 <= j < |a| && a[j] == b[0];
    if i > 0 && j > 0 {
      OlderIrreflexive(KeyOf(b[i]), KeyOf(b[0]));
    }
  }

  /** What is left after a page of an unchanged table: exactly limit rows fewer. */
  lemma QuietRemainder(table: set<Event>, keep: Event -> bool, cursor: Option<Cursor>, limit: nat)
    requires UniqueIds(table) && limit >= 1 && ListPage(table, keep, cursor, limit).hasMore
    ensures var p := ListPage(table, keep, cursor, limit);
            p.next.Some? && |Selected(table, keep, p.next)| == |Selected(table, keep, cursor)| - limit
  {
    var p, rows := ListPage(table, keep, cursor, limit), Selected(table, keep, cursor);
    PageCuts(table, keep, cursor, limit);
    var page := set e | e in p.events;
    var rest := Selected(table, keep, p.next);
    forall e | e in page ensures e !in rest && e in rows {
      if Older(KeyOf(e), p.next.value) {
        OlderIrreflexive(KeyOf(e), p.next.value);
      }
    }
    forall e | e in rest ensures e in rows {
      if cursor.Some? {
        assert p.events[limit - 1] in p.events;
        OlderTransitive(KeyOf(e), p.next.value, cursor.value);
      }
    }
    assert rows == page + rest && page !! rest;
    DistinctCount(p.events);
  }

  lemma {:induction false} DistinctCount(a: seq<Event>)
    requires Descending(a)
    ensures |set e | e in a| == |a|
  {
    if a == [] {
    } else {
      var rest := a[1..];
      DistinctCount(rest);
      var s, t := set e | e in a, set e | e in rest;
      if a[0] in rest {
        RestDiffersFromHead(a, a[0]);
      }
      assert s == {a[0]} + t;
    }
  }

  /** The number of pages of n rows: one page even for none. */
  function PageCount(n: nat, limit: nat): nat
    requires limit >= 1
  {
    if n <= limit then 1 else 1 + PageCount(n - limit, limit)
  }

  /** PageCount is the least number of pages that hold n rows: ceil(n / limit). */
  lemma {:induction false} PageCountIsCeiling(n: nat, limit: nat)
    requires limit >= 1 && n >= 1
    ensures (PageCount(n, limit) - 1) * limit < n <= PageCount(n, limit) * limit
  {
    if n <= limit {
    } else {
      PageCountIsCeiling(n - limit, limit);
      var c := PageCount(n - limit, limit);
      assert (c + 1) * limit == c * limit + limit && c * limit == (c - 1) * limit + limit;
    }
  }

  /** The table at each request when nothing is inserted. */
  function Quiet(table: set<Event>, requests: nat): (tables: seq<set<Event>>)
    ensures |tables| == requests && forall i :: 0 <= i < requests ==> tables[i] == table
  {
    seq(requests, _ => table)
  }

  /** With no inserts, ceil(n / limit) pages concatenate to the filtered table, newest first. */
  lemma {:induction false} QuietTraversal(table: set<Event>, keep: Event -> bool, cursor: Option<Cursor>, limit: nat, requests: nat)
    requires UniqueIds(table) && limit >= 1
    requires requests >= PageCount(|Selected(table, keep, cursor)|, limit)
    ensures var pages := Follow(Quiet(table, requests), keep, cursor, limit);
            && Finished(pages)
            && |pages| == PageCount(|Selected(table, keep, cursor)|, limit)
            && Events(pages) == NewestFirst(Selected(table, keep, cursor))
    decreases requests
  {
    QuietPages(table, keep, cursor, limit, requests);
    var tables := Quiet(table, requests);
    var read := Events(Follow(tables, keep, cursor, limit));
    var rows := Selected(table, keep, cursor);
    NothingTwice(tables, keep, cursor, limit);
    NothingMissed(tables, keep, cursor, limit);
    QuietSelected(table, keep, cursor, limit, requests);
    NewestFirstSorts(rows);
    DescendingIsUnique(read, NewestFirst(rows));
  }

  /** One request of a quiet traversal. */
  lemma QuietStep(table: set<Event>, keep: Event -> bool, cursor: Option<Cursor>, limit: nat, requests: nat)
    requires UniqueIds(table) && limit >= 1 && requests >= 1
    ensures var page := ListPage(table, keep, cursor, limit);
            Follow(Quiet(table, requests), keep, cursor, limit)
            == if page.next.None? then [page] else [page] + Follow(Quiet(table, requests - 1), keep, page.next, limit)
  {
    var tables := Quiet(table, requests);
    assert tables[1..] == Quiet(table, requests - 1);
  }

  lemma QuietLast(table: set<Event>, keep: Event -> bool, cursor: Option<Cursor>, limit: nat, requests: nat)
    requires UniqueIds(table) && limit >= 1 && requests >= 1 && |Selected(table, keep, cursor)| <= limit
    ensures Traversed(Follow(Quiet(table, requests), keep, cursor, limit), 1)
  {
    QuietCut(table, keep, cursor, limit);
    QuietStep(table, keep, cursor, limit, requests);
  }

  lemma QuietMore(table: set<Event>, keep: Event -> bool, cursor: Option<Cursor>, limit: nat, requests: nat, count: nat)
    requires UniqueIds(table) && limit >= 1 && requests >= 1 && |Selected(table, keep, cursor)| > limit
    requires var next := ListPage(table, keep, cursor, limit).next;
             Traversed(Follow(Quiet(table, requests - 1), keep, next, limit), count)
    ensures Traversed(Follow(Quiet(table, requests), keep, cursor, limit), 1 + count)
  {
    var page := ListPage(table, keep, cursor, limit);
    QuietCut(table, keep, cursor, limit);
    QuietStep(table, keep, cursor, limit, requests);
    FinishedLater(page, Follow(Quiet(table, requests - 1), keep, page.next, limit));
  }

  lemma PageCountStep(n: nat, limit: nat)
    requires limit >= 1
    ensures n <= limit ==> PageCount(n, limit) == 1
    ensures n > limit ==> PageCount(n, limit) == 1 + PageCount(n - limit, limit)
  {
  }

  lemma {:induction false} QuietCounted(table: set<Event>, keep: Event -> bool, cursor: Option<Cursor>, limit: nat,
                                        requests: nat, n: nat, count: nat)
    requires UniqueIds(table) && limit >= 1
    requires n == |Selected(table, keep, cursor)| && count == PageCount(n, limit) && count <= requests
    ensures Traversed(Follow(Quiet(table, requests), keep, cursor, limit), count)
    decreases count
  {
    PageCountStep(n, limit);
    if n <= limit {
      QuietLast(table, keep, cursor, limit, requests);
    } else {
      QuietCut(table, keep, cursor, limit);
      QuietCounted(table, keep, ListPage(table, keep, cursor, limit).next, limit, requests - 1, n - limit, count - 1);
      QuietMore(table, keep, cursor, limit, requests, count - 1);
    }
  }

  lemma QuietPages(table: set<Event>, keep: Event -> bool, cursor: Option<Cursor>, limit: nat, requests: nat)
    requires UniqueIds(table) && limit >= 1
    requires requests >= PageCount(|Selected(table, keep, cursor)|, limit)
    ensures Traversed(Follow(Quiet(table, requests), keep, cursor, limit), PageCount(|Selected(table, keep, cursor)|, limit))
  {
    var n := |Selected(table, keep, cursor)|;
    QuietCounted(table, keep, cursor, limit, requests, n, PageCount(n, limit));
  }

  /** The client read this many pages, to the end. */
  ghost predicate Traversed(pages: seq<Page>, count: nat) {
    Finished(pages) && |pages| == count
  }

  /** A page leaves a cursor exactly when rows remain, and then limit fewer than before. */
  lemma QuietCut(table: set<Event>, keep: Event -> bool, cursor: Option<Cursor>, limit: nat)
    requires UniqueIds(table) && limit >= 1
    ensures var page, n := ListPage(table, keep, cursor, limit), |Selected(table, keep, cursor)|;
            && (page.next.Some? <==> n > limit)
            && (n > limit ==> |Selected(table, keep, page.next)| == n - limit)
  {
    PageCuts(table, keep, cursor, limit);
    if |Selected(table, keep, cursor)| > limit {
      QuietRemainder(table, keep, cursor, limit);
    }
  }

  lemma FinishedLater(page: Page, rest: seq<Page>)
    requires Finished(rest)
    ensures Finished([page] + rest) && |[page] + rest| == 1 + |rest|
  {
    assert ([page] + rest)[|rest|] == rest[|rest| - 1];
  }

  lemma {:induction false} QuietSelected(table: set<Event>, keep: Event -> bool, cursor: Option<Cursor>, limit: nat, requests: nat)
    requires UniqueIds(table) && limit >= 1
    ensures forall e :: e in Events(Follow(Quiet(table, requests), keep, cursor, limit)) ==> e in Selected(table, keep, cursor)
    decreases requests
  {
    if requests == 0 {
    } else {
      var tables := Quiet(table, requests);
      PageCuts(table, keep, cursor, limit);
      var page := ListPage(table, keep, cursor, limit);
      if page.next.Some? {
        assert tables[1..] == Quiet(table, requests - 1);
        QuietSelected(table, keep, page.next, limit, requests - 1);
        forall e | e in Selected(table, keep, page.next) ensures e in Selected(table, keep, cursor) {
          if cursor.Some? {
            assert page.events[limit - 1] in page.events;
            OlderTransitive(KeyOf(e), page.next.value, cursor.value);
          }
        }
        assert Follow(tables, keep, cursor, limit)[1..] == Follow(tables[1..], keep, page.next, limit);
      } else {
        assert Follow(tables, keep, cursor, limit)[1..] == [];
      }
    }
  }
}
