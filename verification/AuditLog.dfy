/**
 The audit log of internal/platform/audit.go: an append-only table that keeps the newest events,
 read page by page through a cursor while more events arrive.
 */
module AuditLog {
  import opened Wrappers
  import opened Int64
  import opened Sets
  import Decimal

  const MAX_EVENTS := 100_000
  const MAX_PAGE := 100

  datatype Event = Event(actor: string, action: string, outcome: string, createdAt: int)
  datatype Row = Row(id: nat, event: Event)
  datatype Page = Page(rows: seq<Row>, nextBefore: nat, hasMore: bool)

  // ---------------------------------------------------------------------------------------
  // The statements, on a table in ascending order of ids.

  function MaxId(rows: seq<Row>): nat {
    if rows == [] then 0 else rows[|rows| - 1].id
  }

  /** DELETE ... WHERE id <= bound */
  function DeleteUpTo(rows: seq<Row>, bound: int): seq<Row> {
    if rows == [] then [] else (if rows[0].id <= bound then [] else [rows[0]]) + DeleteUpTo(rows[1..], bound)
  }

  /** SELECT ... [WHERE id < before] ORDER BY id DESC LIMIT limit */
  function Select(rows: seq<Row>, before: nat, limit: nat): seq<Row> {
    if rows == [] || limit == 0 then []
    else
      var last := rows[|rows| - 1];
      if before == 0 || last.id < before then [last] + Select(rows[..|rows| - 1], before, limit - 1)
      else Select(rows[..|rows| - 1], before, limit)
  }

  function PageOf(rows: seq<Row>, before: nat, limit: nat): Page
    requires limit > 0
  {
    var found := Select(rows, before, limit + 1);
    if |found| > limit then Page(found[..limit], found[limit - 1].id, true) else Page(found, 0, false)
  }

  /** The newest events of a history, numbered from one. */
  function Retained(history: seq<Event>): seq<Row> {
    var n := |history|;
    var m := if n < MAX_EVENTS then n else MAX_EVENTS;
    seq(m, i requires 0 <= i < m => Row(n - m + i + 1, history[n - m + i]))
  }

  class AuditStore {
    var rows: seq<Row>
    var lastId: nat                 // the AUTOINCREMENT counter
    ghost var history: seq<Event>   // every event recorded successfully

    ghost predicate Valid()
      reads this
    {
      lastId == |history| && rows == Retained(history)
    }

    constructor ()
      ensures Valid() && history == []
    {
      rows, lastId, history := [], 0, [];
    }

    /** `fails` says that some statement or the commit fails and the transaction is rolled back. */
    method Record(event: Event, fails: bool) returns (ok: bool)
      requires Valid()
      modifies this
      ensures Valid() && ok == !fails
      ensures history == if ok then old(history) + [event] else old(history)
    {
      if fails {
        return false;
      }
      lastId := lastId + 1;
      rows := rows + [Row(lastId, event)];
      rows := DeleteUpTo(rows, MaxId(rows) - MAX_EVENTS);
      RecordRetains(history, event);
      history := history + [event];
      return true;
    }

    method List(before: int, limit: int) returns (r: Option<Page>)
      requires Valid()
      ensures r.Some? <==> 0 <= before && 1 <= limit <= MAX_PAGE
      ensures r.Some? ==> r.value == PageOf(rows, before, limit)
    {
      if before < 0 || limit < 1 || limit > MAX_PAGE {
        return None;
      }
      var found := Select(rows, before, limit + 1);
      var events: seq<Row> := [];
      for i := 0 to |found|
        invariant events == found[..i]
      {
        events := events + [found[i]];
      }
      var page := Page(events, 0, false);
      if |events| > limit {
        page := page.(rows := events[..limit], hasMore := true);
        page := page.(nextBefore := page.rows[|page.rows| - 1].id);
      }
      return Some(page);
    }
  }

  lemma {:induction false} DeleteAboveKeeps(rows: seq<Row>, bound: int)
    requires forall i | 0 <= i < |rows| :: rows[i].id > bound
    ensures DeleteUpTo(rows, bound) == rows
  {
    if rows != [] {
      DeleteAboveKeeps(rows[1..], bound);
      assert rows == [rows[0]] + rows[1..];
    }
  }

  lemma DeleteFirst(rows: seq<Row>, bound: int)
    requires rows != [] && rows[0].id <= bound && forall i | 1 <= i < |rows| :: rows[i].id > bound
    ensures DeleteUpTo(rows, bound) == rows[1..]
  {
    DeleteAboveKeeps(rows[1..], bound);
    assert [] + rows[1..] == rows[1..];
  }

  lemma RetainedNext(history: seq<Event>, event: Event)
    ensures var rows := Retained(history) + [Row(|history| + 1, event)];
      Retained(history + [event]) == if |history| < MAX_EVENTS then rows else rows[1..]
  {
  }

  lemma InsertedIds(history: seq<Event>, event: Event)
    ensures var rows := Retained(history) + [Row(|history| + 1, event)];
      && (forall i | 0 <= i < |rows| :: rows[i].id == |history| + 1 - |rows| + i + 1)
      && |rows| == (if |history| < MAX_EVENTS then |history| else MAX_EVENTS) + 1
  {
  }

  /** Inserting one event and pruning retains the newest events of the longer history. */
  lemma RecordRetains(history: seq<Event>, event: Event)
    ensures var rows := Retained(history) + [Row(|history| + 1, event)];
      DeleteUpTo(rows, MaxId(rows) - MAX_EVENTS) == Retained(history + [event])
  {
    RetainedNext(history, event);
    InsertedIds(history, event);
    hide Retained, DeleteUpTo;
    var rows := Retained(history) + [Row(|history| + 1, event)];
    if |history| < MAX_EVENTS {
      DeleteAboveKeeps(rows, MaxId(rows) - MAX_EVENTS);
    } else {
      DeleteFirst(rows, MaxId(rows) - MAX_EVENTS);
    }
  }

  /** After any history the store holds exactly its newest events, in order. */
  lemma RetainsNewest(history: seq<Event>)
    ensures var n := |history|;
      var rows := Retained(history);
      && |rows| == (if n < MAX_EVENTS then n else MAX_EVENTS)
      && forall i | 0 <= i < |rows| :: rows[i].id == n - |rows| + i + 1 && rows[i].event == history[rows[i].id - 1]
  {
  }

  // ---------------------------------------------------------------------------------------
  // One page.

  /** The newest id a page may show, and the newest that has been pruned. */
  function Top(n: nat, before: nat): nat {
    if before == 0 then n else Min(n, before - 1)
  }

  function Pruned(n: nat): nat {
    Max(0, n - MAX_EVENTS)
  }

  lemma {:induction false} SelectContiguous(rows: seq<Row>, low: nat, before: nat, limit: nat)
    requires forall i | 0 <= i < |rows| :: rows[i].id == low + i + 1
    ensures var top := Top(low + |rows|, before);
      var s := Select(rows, before, limit);
      && |s| == Min(limit, Max(0, top - low))
      && forall i | 0 <= i < |s| ::
        0 <= top - low - 1 - i < |rows| && s[i] == rows[top - low - 1 - i] && s[i].id == top - i
  {
    if rows != [] && limit > 0 {
      var front := rows[..|rows| - 1];
      if before == 0 || rows[|rows| - 1].id < before {
        SelectContiguous(front, low, before, limit - 1);
      } else {
        SelectContiguous(front, low, before, limit);
      }
    }
  }

  /** What a page shows of a history. */
  ghost predicate PageShows(h: seq<Event>, before: nat, limit: nat, p: Page)
    requires limit > 0
  {
    var top, low := Top(|h|, before), Pruned(|h|);
    && |p.rows| == Min(limit, Max(0, top - low))
    && (forall i | 0 <= i < |p.rows| :: p.rows[i].id == top - i > low && p.rows[i].event == h[p.rows[i].id - 1])
    && (p.hasMore <==> top - low > limit)
    && (p.hasMore ==> p.nextBefore == top - limit + 1)
  }

  /** The rows a page is cut from. */
  ghost predicate Newest(h: seq<Event>, before: nat, n: nat, found: seq<Row>) {
    var top, low := Top(|h|, before), Pruned(|h|);
    && |found| == Min(n, Max(0, top - low))
    && forall i | 0 <= i < |found| :: found[i].id == top - i > low && found[i].event == h[found[i].id - 1]
  }

  lemma SelectsNewest(h: seq<Event>, before: nat, n: nat)
    ensures Newest(h, before, n, Select(Retained(h), before, n))
  {
    var rows, top := Retained(h), Top(|h|, before);
    RetainsNewest(h);
    SelectContiguous(rows, Pruned(|h|), before, n);
    hide Retained, Select;
    var found := Select(rows, before, n);
    forall i | 0 <= i < |found| ensures found[i].event == h[found[i].id - 1] {
      assert found[i] == rows[top - Pruned(|h|) - 1 - i];
    }
  }

  lemma PageContents(h: seq<Event>, before: nat, limit: nat)
    requires limit > 0
    ensures PageShows(h, before, limit, PageOf(Retained(h), before, limit))
  {
    SelectsNewest(h, before, limit + 1);
    hide Retained, Select, Top, Pruned;
  }

  // ---------------------------------------------------------------------------------------
  // Walking the pages.

  /** Page after page, each read when the history has grown to the next entry of `hs`. */
  function Walk(hs: seq<seq<Event>>, before: nat, limit: nat): seq<Page>
    requires limit > 0
    decreases |hs|
  {
    if hs == [] then []
    else
      var p := PageOf(Retained(hs[0]), before, limit);
      [p] + if p.hasMore then Walk(hs[1..], p.nextBefore, limit) else []
  }

  predicate Growing(hs: seq<seq<Event>>) {
    forall i, j | 0 <= i < j < |hs| :: hs[i] <= hs[j]
  }

  function Shown(pages: seq<Page>): seq<Row> {
    if pages == [] then [] else pages[0].rows + Shown(pages[1..])
  }

  lemma TailGrows(hs: seq<seq<Event>>)
    requires hs != [] && Growing(hs)
    ensures Growing(hs[1..])
  {
  }

  ghost predicate DescendsFrom(rows: seq<Row>, top: int) {
    && (forall i | 0 <= i < |rows| :: 1 <= rows[i].id <= top)
    && (forall i, j | 0 <= i < j < |rows| :: rows[i].id > rows[j].id)
  }

  lemma DescendsOn(a: seq<Row>, b: seq<Row>, top: int, cut: int)
    requires (forall i | 0 <= i < |a| :: a[i].id == top - i >= 1) && cut <= top - |a| && DescendsFrom(b, cut)
    ensures DescendsFrom(a + b, top)
  {
  }

  /** The ids shown go strictly down and never exceed the top of the first page. */
  lemma {:induction false} WalkDescends(hs: seq<seq<Event>>, before: nat, limit: nat)
    requires limit > 0 && Growing(hs) && hs != []
    ensures DescendsFrom(Shown(Walk(hs, before, limit)), Top(|hs[0]|, before))
    decreases |hs|
  {
    var p, top := PageOf(Retained(hs[0]), before, limit), Top(|hs[0]|, before);
    PageContents(hs[0], before, limit);
    hide Retained, PageOf, Growing, DescendsFrom;
    var rest := if p.hasMore then Walk(hs[1..], p.nextBefore, limit) else [];
    ShownFirst(p, rest);
    assert Walk(hs, before, limit) == [p] + rest;
    hide Shown;
    if rest == [] {
      assert Shown(rest) == [] by { ShownNothing(); }
      assert DescendsFrom([], top - |p.rows|) by { NothingDescends(top - |p.rows|); }
      DescendsOn(p.rows, Shown(rest), top, top - |p.rows|);
    } else {
      TailGrows(hs);
      WalkDescends(hs[1..], p.nextBefore, limit);
      LowerTop(Shown(rest), Top(|hs[1]|, p.nextBefore), p.nextBefore - 1);
      DescendsOn(p.rows, Shown(rest), top, p.nextBefore - 1);
    }
  }

  lemma ShownFirst(p: Page, rest: seq<Page>)
    ensures Shown([p] + rest) == p.rows + Shown(rest)
  {
  }

  lemma ShownNothing()
    ensures Shown([]) == []
  {
  }

  lemma NothingDescends(top: int)
    ensures DescendsFrom([], top)
  {
  }

  lemma LowerTop(rows: seq<Row>, low: int, top: int)
    requires DescendsFrom(rows, low) && low <= top
    ensures DescendsFrom(rows, top)
  {
  }

  /** A walk of full pages comes to an end: it needs no more reads than the first page's ids allow. */
  lemma {:induction false} WalkEnds(hs: seq<seq<Event>>, before: nat, limit: nat)
    requires limit > 0 && Growing(hs) && hs != []
    requires |hs| * limit > Top(|hs[0]|, before)
    ensures var pages := Walk(hs, before, limit);
      pages != [] && !pages[|pages| - 1].hasMore
    decreases |hs|
  {
    var p := PageOf(Retained(hs[0]), before, limit);
    PageContents(hs[0], before, limit);
    hide Retained, PageOf;
    assert |hs[1..]| * limit == |hs| * limit - limit;
    hide Growing;
    if p.hasMore {
      assert |hs| > 1;
      TailGrows(hs);
      assert Top(|hs[1]|, p.nextBefore) <= p.nextBefore - 1;
      WalkEnds(hs[1..], p.nextBefore, limit);
    }
  }

  /** The page of the walk whose range of ids, from its cursor down to the next, contains `id`. */
  ghost predicate Covers(pages: seq<Page>, k: nat, before: nat, id: nat)
    requires k < |pages|
  {
    var cursor := if k == 0 then before else pages[k - 1].nextBefore;
    (cursor == 0 || id < cursor) && (pages[k].hasMore ==> pages[k].nextBefore <= id)
  }

  predicate Shows(p: Page, id: nat, event: Event) {
    Row(id, event) in p.rows
  }

  /** Every older event is covered by a page that shows it exactly when it had not been pruned
      before that page was read. */
  lemma {:induction false} WalkIsComplete(hs: seq<seq<Event>>, before: nat, limit: nat, id: nat) returns (k: nat)
    requires limit > 0 && Growing(hs) && hs != [] && 1 <= id <= Top(|hs[0]|, before)
    requires var pages := Walk(hs, before, limit); !pages[|pages| - 1].hasMore
    ensures var pages := Walk(hs, before, limit);
      && k < |pages| && k < |hs| && id <= |hs[k]|
      && Covers(pages, k, before, id)
      && (Shows(pages[k], id, hs[0][id - 1]) <==> id > Pruned(|hs[k]|))
    decreases |hs|
  {
    var pages := Walk(hs, before, limit);
    var p := PageOf(Retained(hs[0]), before, limit);
    PageContents(hs[0], before, limit);
    if p.hasMore && id < p.nextBefore {
      assert pages[1..] == Walk(hs[1..], p.nextBefore, limit);
      TailGrows(hs);
      assert |hs| > 1 && hs[0] <= hs[1];
      assert pages[|pages| - 1] == pages[1..][|pages| - 2];
      k := WalkIsComplete(hs[1..], p.nextBefore, limit, id);
      assert hs[1][id - 1] == hs[0][id - 1];
      assert pages[k + 1] == pages[1..][k] && (k > 0 ==> pages[k] == pages[1..][k - 1]);
      k := k + 1;
    } else {
      k := 0;
      PageShowsId(hs[0], before, limit, p, id);
    }
  }

  lemma PageShowsId(h: seq<Event>, before: nat, limit: nat, p: Page, id: nat)
    requires limit > 0 && PageShows(h, before, limit, p) && 1 <= id <= Top(|h|, before)
    requires p.hasMore ==> p.nextBefore <= id
    ensures Shows(p, id, h[id - 1]) <==> id > Pruned(|h|)
  {
    var top := Top(|h|, before);
    if id > Pruned(|h|) {
      assert p.rows[top - id] == Row(id, h[id - 1]);
    }
  }

  /** A cursor offered for the next page is one that the page accepts back from the client. */
  lemma OfferedCursorIsAccepted(h: seq<Event>, before: nat, limit: nat)
    requires limit > 0 && |h| <= MAX_INT64
    ensures var p := PageOf(Retained(h), before, limit);
      p.hasMore ==> Decimal.ParseAuditCursor(Decimal.Print(p.nextBefore)) == Some(p.nextBefore)
  {
    var p := PageOf(Retained(h), before, limit);
    PageContents(h, before, limit);
    if p.hasMore {
      Decimal.PositiveExactly(Decimal.Print(p.nextBefore), p.nextBefore);
    }
  }
}
