/** Listing stored events page by page. */
module Listing {
  import opened Common
  import opened EvidenceText
  import opened Evidence
  import Lexicographic
  import Ranking

  const DEFAULT_LIMIT: u16 := 50
  const MAX_LIMIT: u16 := 200

  datatype Item = Item(lastMs: u64, id: EventId, detail: Detail)

  datatype Query = Query(filter: Option<InterfaceName>, limit: u16, cursor: Option<Cursor>)

  datatype QueryError = InvalidListLimit | CursorOfAnotherFilter

  function NewQuery(filter: Option<InterfaceName>, limit: Option<u16>, cursor: Option<Cursor>)
      : Result<Query, QueryError> {
    var limit := if limit.Some? then limit.value else DEFAULT_LIMIT;
    if !(1 <= limit <= MAX_LIMIT) then Err(InvalidListLimit)
    else if cursor.Some? && cursor.value.filterHash != FilterHash(filter) then Err(CursorOfAnotherFilter)
    else Ok(Query(filter, limit, cursor))
  }

  predicate Matches(d: Detail, filter: Option<InterfaceName>) { filter.Some? ==> d.latest.interface == filter.value }

  predicate After(lastMs: u64, id: EventId, cursor: Option<Cursor>) {
    cursor.Some? ==>
      lastMs < cursor.value.lastMs || (lastMs == cursor.value.lastMs && Lexicographic.Less(cursor.value.eventId, id))
  }

  /** The events a query selects, the page limit aside. */
  function Selected(index: Index, filter: Option<InterfaceName>, cursor: Option<Cursor>): set<Item> {
    set id | id in index && Matches(index[id], filter) && After(index[id].latest.occurredMs, id, cursor)
        :: Item(index[id].latest.occurredMs, id, index[id])
  }

  /** Newest first, then by ascending id. */
  function ItemKey(i: Item): seq<int> { [-(i.lastMs as int)] + i.id }

  ghost predicate IsListing(index: Index, filter: Option<InterfaceName>, cursor: Option<Cursor>, items: seq<Item>) {
    Ranking.Ranked(ItemKey, items) && Ranking.SameMembers(items, Selected(index, filter, cursor))
  }

  datatype Page = Page(items: seq<Item>, next: Option<Cursor>)

  function FirstPage(filter: Option<InterfaceName>, limit: u16, items: seq<Item>): Page
    requires limit > 0
  {
    if |items| <= limit then Page(items, None)
    else Page(items[..limit], Some(NewCursor(filter, items[limit - 1].lastMs, items[limit - 1].id)))
  }

  ghost predicate Answers(index: Index, filter: Option<InterfaceName>, limit: u16, cursor: Option<Cursor>, page: Page)
    requires limit > 0
  {
    exists items :: IsListing(index, filter, cursor, items) && page == FirstPage(filter, limit, items)
  }

  lemma SelectedKeysDiffer(index: Index, filter: Option<InterfaceName>, cursor: Option<Cursor>)
    ensures Ranking.DistinctKeys(ItemKey, Selected(index, filter, cursor))
  {
    var items := Selected(index, filter, cursor);
    forall a, b | a in items && b in items && ItemKey(a) == ItemKey(b)
      ensures a == b
    {
      assert a.id == ItemKey(a)[1..] && b.id == ItemKey(b)[1..];
    }
  }

  method ListEvents(index: Index, query: Query) returns (page: Page)
    requires query.limit > 0
    ensures Answers(index, query.filter, query.limit, query.cursor, page)
  {
    SelectedKeysDiffer(index, query.filter, query.cursor);
    var items := Ranking.Rank(ItemKey, Selected(index, query.filter, query.cursor));
    assert IsListing(index, query.filter, query.cursor, items);
    var hasMore := |items| > query.limit;
    var shown := if hasMore then items[..query.limit] else items;
    var next: Option<Cursor> := None;
    if hasMore {
      var last := shown[|shown| - 1];
      next := Some(NewCursor(query.filter, last.lastMs, last.id));
    }
    page := Page(shown, next);
    assert page == FirstPage(query.filter, query.limit, items);
  }

  // ---------------------------------------------------------------- pagination

  lemma AfterIsLess(item: Item, last: Item, filter: Option<InterfaceName>)
    ensures After(item.lastMs, item.id, Some(NewCursor(filter, last.lastMs, last.id)))
            <==> Lexicographic.Less(ItemKey(last), ItemKey(item))
  {
    assert ItemKey(last)[1..] == last.id && ItemKey(item)[1..] == item.id;
  }

  lemma MembersAfter(full: seq<Item>, k: nat, x: Item)
    requires Ranking.Ranked(ItemKey, full) && 0 < k <= |full|
    ensures x in full[k..] <==> x in full && Lexicographic.Less(ItemKey(full[k - 1]), ItemKey(x))
  {
    if x in full && Lexicographic.Less(ItemKey(full[k - 1]), ItemKey(x)) {
      var i :| 0 <= i < |full| && full[i] == x;
      if i < k - 1 {
        Ranking.NotLess(ItemKey, full[i], full[k - 1]);
      } else if i == k - 1 {
        Lexicographic.Irreflexive(ItemKey(x));
      }
      assert x == full[k..][i - k];
    }
  }

  lemma RankedSuffix(full: seq<Item>, k: nat)
    requires Ranking.Ranked(ItemKey, full) && k <= |full|
    ensures Ranking.Ranked(ItemKey, full[k..])
  {
  }

  /** Continuing from the cursor of the first `k` items lists exactly the rest. */
  lemma ContinuesAfter(index: Index, filter: Option<InterfaceName>, full: seq<Item>, k: nat, rest: seq<Item>)
    requires IsListing(index, filter, None, full) && 0 < k <= |full|
    requires IsListing(index, filter, Some(NewCursor(filter, full[k - 1].lastMs, full[k - 1].id)), rest)
    ensures rest == full[k..]
  {
    var cursor := Some(NewCursor(filter, full[k - 1].lastMs, full[k - 1].id));
    forall x: Item
      ensures x in rest <==> x in full[k..]
    {
      MembersAfter(full, k, x);
      AfterIsLess(x, full[k - 1], filter);
      assert x in Selected(index, filter, cursor) <==>
             x in Selected(index, filter, None) && After(x.lastMs, x.id, cursor);
    }
    RankedSuffix(full, k);
    Ranking.RankingIsUnique(ItemKey, rest, full[k..]);
  }

  /** Whoever got a next cursor can print it, read it back and ask for the next page. */
  lemma NextRequestIsAccepted(index: Index, filter: Option<InterfaceName>, limit: u16, cursor: Option<Cursor>,
      page: Page)
    requires 1 <= limit <= MAX_LIMIT && Answers(index, filter, limit, cursor, page) && page.next.Some?
    ensures var parsed := ParseCursor(PrintCursor(page.next.value), filter);
            && parsed == Ok(page.next.value)
            && NewQuery(filter, Some(limit), Some(parsed.value)) == Ok(Query(filter, limit, page.next))
  {
    PrintedParses(page.next.value, filter);
  }

  /** Each page is requested with the printed and re-parsed cursor of the one before. */
  ghost predicate Followed(index: Index, filter: Option<InterfaceName>, limit: u16, pages: seq<Page>)
    requires limit > 0
  {
    && pages != [] && Answers(index, filter, limit, None, pages[0])
    && forall k: nat :: k + 1 < |pages| ==> Requested(index, filter, limit, pages, k)
  }

  ghost predicate Requested(index: Index, filter: Option<InterfaceName>, limit: u16, pages: seq<Page>, k: nat)
    requires limit > 0 && k + 1 < |pages|
  {
    && pages[k].next.Some?
    && var parsed := ParseCursor(PrintCursor(pages[k].next.value), filter);
    parsed.Ok? && Answers(index, filter, limit, Some(parsed.value), pages[k + 1])
  }

  ghost predicate IsSlice(full: seq<Item>, limit: u16, page: Page, k: nat) {
    && k * limit <= |full|
    && page.items == full[k * limit..Min((k + 1) * limit, |full|)]
    && (page.next.Some? <==> (k + 1) * limit < |full|)
  }

  ghost predicate CursorAt(full: seq<Item>, filter: Option<InterfaceName>, limit: u16, page: Page, k: nat)
    requires limit > 0
  {
    (k + 1) * limit < |full| ==>
      page.next == Some(NewCursor(filter, full[(k + 1) * limit - 1].lastMs, full[(k + 1) * limit - 1].id))
  }

  lemma SliceOfRest(full: seq<Item>, filter: Option<InterfaceName>, limit: u16, page: Page, k: nat)
    requires limit > 0 && k * limit <= |full| && page == FirstPage(filter, limit, full[k * limit..])
    ensures IsSlice(full, limit, page, k) && CursorAt(full, filter, limit, page, k)
  {
    var rest := full[k * limit..];
    assert (k + 1) * limit == k * limit + limit;
    if |rest| > limit {
      assert rest[limit - 1] == full[k * limit + (limit - 1)];
      assert rest[..limit] == full[k * limit..k * limit + limit];
    }
  }

  lemma FirstSlice(index: Index, filter: Option<InterfaceName>, limit: u16, full: seq<Item>, page: Page)
    requires limit > 0 && IsListing(index, filter, None, full) && Answers(index, filter, limit, None, page)
    ensures IsSlice(full, limit, page, 0) && CursorAt(full, filter, limit, page, 0)
  {
    var items :| IsListing(index, filter, None, items) && page == FirstPage(filter, limit, items);
    Ranking.RankingIsUnique(ItemKey, items, full);
    assert full[0 * limit..] == full;
    SliceOfRest(full, filter, limit, page, 0);
  }

  lemma HasNext(index: Index, filter: Option<InterfaceName>, limit: u16, pages: seq<Page>, k: nat)
    requires limit > 0 && Followed(index, filter, limit, pages) && k + 1 < |pages|
    ensures pages[k].next.Some?
  {
    assert Requested(index, filter, limit, pages, k);
  }

  /** A request with the printed and re-parsed cursor of item `n - 1` answers from item `n` on. */
  lemma NextPage(index: Index, filter: Option<InterfaceName>, limit: u16, full: seq<Item>, n: nat, pages: seq<Page>,
      k: nat)
    requires limit > 0 && IsListing(index, filter, None, full) && k + 1 < |pages| && 0 < n <= |full|
    requires pages[k].next == Some(NewCursor(filter, full[n - 1].lastMs, full[n - 1].id))
    requires Followed(index, filter, limit, pages)
    ensures pages[k + 1] == FirstPage(filter, limit, full[n..])
  {
    assert Requested(index, filter, limit, pages, k);
    var cursor := pages[k].next.value;
    PrintedParses(cursor, filter);
    var rest :| IsListing(index, filter, Some(cursor), rest) && pages[k + 1] == FirstPage(filter, limit, rest);
    ContinuesAfter(index, filter, full, n, rest);
  }

  /** Page `k` is the `k`-th slice of the whole listing. */
  lemma {:induction false} PageIsSlice(index: Index, filter: Option<InterfaceName>, limit: u16, full: seq<Item>,
      pages: seq<Page>, k: nat)
    requires limit > 0 && IsListing(index, filter, None, full) && Followed(index, filter, limit, pages) && k < |pages|
    ensures IsSlice(full, limit, pages[k], k) && CursorAt(full, filter, limit, pages[k], k)
  {
    if k == 0 {
      FirstSlice(index, filter, limit, full, pages[0]);
    } else {
      PageIsSlice(index, filter, limit, full, pages, k - 1);
      HasNext(index, filter, limit, pages, k - 1);
      NextPage(index, filter, limit, full, k * limit, pages, k - 1);
      SliceOfRest(full, filter, limit, pages[k], k);
    }
  }

  ghost function Concatenated(pages: seq<Page>): seq<Item> {
    if pages == [] then [] else Concatenated(pages[..|pages| - 1]) + pages[|pages| - 1].items
  }

  lemma SliceExtends(full: seq<Item>, start: nat, end: nat)
    requires start <= |full| && start <= end
    ensures full[..start] + full[start..Min(end, |full|)] == full[..Min(end, |full|)]
  {
  }

  lemma SliceEnds(k: nat, limit: u16)
    requires k > 0
    ensures (k - 1 + 1) * limit == k * limit && (k - 1) * limit <= k * limit
  {
  }

  lemma {:induction false} PagesConcatenate(index: Index, filter: Option<InterfaceName>, limit: u16, full: seq<Item>,
      pages: seq<Page>, k: nat)
    requires limit > 0 && IsListing(index, filter, None, full) && Followed(index, filter, limit, pages) && k <= |pages|
    ensures Concatenated(pages[..k]) == full[..Min(k * limit, |full|)]
  {
    if k > 0 {
      PagesConcatenate(index, filter, limit, full, pages, k - 1);
      PageIsSlice(index, filter, limit, full, pages, k - 1);
      assert pages[..k][..k - 1] == pages[..k - 1];
      SliceEnds(k, limit);
      SliceExtends(full, (k - 1) * limit, k * limit);
    }
  }

  /**
   * Pagination: on an unchanged index, following the printed and re-parsed cursors until none is left yields
   * every matching event exactly once, newest first and then by id; it cannot go on beyond that.
   */
  lemma PaginationIsComplete(index: Index, filter: Option<InterfaceName>, limit: u16, full: seq<Item>, pages: seq<Page>)
    requires limit > 0 && IsListing(index, filter, None, full) && Followed(index, filter, limit, pages)
    ensures (|pages| - 1) * limit <= |full|
    ensures pages[|pages| - 1].next == None <==> |full| <= |pages| * limit
    ensures pages[|pages| - 1].next == None ==> Concatenated(pages) == full
  {
    var k := |pages| - 1;
    PageIsSlice(index, filter, limit, full, pages, k);
    PagesConcatenate(index, filter, limit, full, pages, |pages|);
    assert pages[..|pages|] == pages;
    assert full[..|full|] == full;
  }
}
