/**
  Reading query results page by page: `stream` follows page identifiers, `collect` gathers what it yields, and records
  that do not parse are left out of every page.
 */
module Pagination {
  import opened Domain
  import opened SandboxState

  /** A page as the database returns it; `Row` is an unparsed record. */
  datatype Page<Row> = Page(rows: seq<Row>, next: Option<string>)

  type Query<!Row> = Option<string> -> Page<Row>

  /** A missing page identifier ends the stream, and so does an empty one. */
  predicate HasNext<Row>(page: Page<Row>) {
    page.next.Some? && page.next.value != ""
  }

  /** The pages that the query returns one after the other, from the identifier on. */
  ghost predicate IsChain<Row>(query: Query<Row>, id: Option<string>, pages: seq<Page<Row>>)
    decreases |pages|
  {
    && pages != []
    && pages[0] == query(id)
    && if HasNext(pages[0]) then IsChain(query, pages[0].next, pages[1..]) else |pages| == 1
  }

  /** Pages that the query returns one after the other, not necessarily all of them. */
  ghost predicate IsPath<Row>(query: Query<Row>, id: Option<string>, pages: seq<Page<Row>>)
    decreases |pages|
  {
    pages == []
    || (&& pages[0] == query(id)
        && (|pages| == 1 || (HasNext(pages[0]) && IsPath(query, pages[0].next, pages[1..]))))
  }

  lemma {:induction false} PathExtends<Row>(query: Query<Row>, id: Option<string>, pages: seq<Page<Row>>)
    requires pages != [] && IsPath(query, id, pages) && HasNext(pages[|pages| - 1])
    ensures IsPath(query, id, pages + [query(pages[|pages| - 1].next)])
    decreases |pages|
  {
    var longer := pages + [query(pages[|pages| - 1].next)];
    if |pages| > 1 {
      PathExtends(query, pages[0].next, pages[1..]);
      assert longer[1..] == pages[1..] + [query(pages[|pages| - 1].next)];
    } else {
      assert longer[1..] == [query(pages[0].next)];
    }
  }

  /** All that is read of a chain is its beginning, and the page that has no next one is its last. */
  lemma {:induction false} PathBeginsChain<Row>(
    query: Query<Row>, id: Option<string>, path: seq<Page<Row>>, chain: seq<Page<Row>>)
    requires IsPath(query, id, path) && IsChain(query, id, chain)
    ensures path <= chain
    ensures path != [] ==> (|path| == |chain| <==> !HasNext(path[|path| - 1]))
    decreases |path|
  {
    if |path| > 1 {
      PathBeginsChain(query, path[0].next, path[1..], chain[1..]);
      assert path == [path[0]] + path[1..] && chain == [chain[0]] + chain[1..];
    }
  }

  // ----- Parsing -----

  type Schema<!Row, !T> = Row -> Option<T>

  function ValidItems<Row, T>(schema: Schema<Row, T>, rows: seq<Row>): seq<T> {
    if rows == [] then []
    else (if schema(rows[0]).Some? then [schema(rows[0]).value] else []) + ValidItems(schema, rows[1..])
  }

  function AllRows<Row>(pages: seq<Page<Row>>): seq<Row> {
    if pages == [] then [] else pages[0].rows + AllRows(pages[1..])
  }

  lemma Associates<T>(a: seq<T>, b: seq<T>, c: seq<T>)
    ensures a + (b + c) == (a + b) + c
  {
  }

  lemma ValidItemsUnfolds<Row, T>(schema: Schema<Row, T>, rows: seq<Row>)
    ensures ValidItems(schema, rows) ==
            if rows == [] then []
            else (if schema(rows[0]).Some? then [schema(rows[0]).value] else []) + ValidItems(schema, rows[1..])
  {
  }

  lemma ValidItemsOfOne<Row, T>(schema: Schema<Row, T>, row: Row)
    ensures ValidItems(schema, [row]) == match schema(row) case Some(item) => [item] case None => []
  {
  }

  lemma {:induction false} ValidItemsSplit<Row, T>(schema: Schema<Row, T>, a: seq<Row>, b: seq<Row>)
    ensures ValidItems(schema, a + b) == ValidItems(schema, a) + ValidItems(schema, b)
  {
    hide ValidItems;
    ValidItemsUnfolds(schema, a);
    if a == [] {
      assert a + b == b;
    } else {
      ValidItemsUnfolds(schema, a + b);
      var first := if schema(a[0]).Some? then [schema(a[0]).value] else [];
      assert (a + b)[0] == a[0] && (a + b)[1..] == a[1..] + b;
      ValidItemsSplit(schema, a[1..], b);
      Associates(first, ValidItems(schema, a[1..]), ValidItems(schema, b));
    }
  }

  method ParseResults<Row, T>(rows: seq<Row>, schema: Schema<Row, T>) returns (result: seq<T>, invalid: nat)
    ensures result == ValidItems(schema, rows)
    ensures |result| + invalid == |rows|
  {
    result, invalid := [], 0;
    for i := 0 to |rows|
      invariant result == ValidItems(schema, rows[..i])
      invariant |result| + invalid == i
    {
      assert rows[..i + 1] == rows[..i] + [rows[i]];
      ValidItemsSplit(schema, rows[..i], [rows[i]]);
      var parsed := schema(rows[i]);
      if parsed.Some? {
        result := result + [parsed.value];
      } else {
        invalid := invalid + 1;
      }
    }
    assert rows[..|rows|] == rows;
  }

  // ----- Streaming and collecting -----

  function Take<T>(items: seq<T>, maxCount: Option<nat>): seq<T> {
    if maxCount.Some? && maxCount.value != 0 && maxCount.value < |items| then items[..maxCount.value] else items
  }

  predicate Full<T>(collected: seq<T>, maxCount: Option<nat>) {
    maxCount.Some? && maxCount.value != 0 && |collected| >= maxCount.value
  }

  /** Takes the items of one page, until there are enough. */
  method CollectPage<T>(items: seq<T>, collected: seq<T>, maxCount: Option<nat>) returns (all: seq<T>)
    requires !Full(collected, maxCount)
    ensures all == Take(collected + items, maxCount)
  {
    all := collected;
    for i := 0 to |items|
      invariant !Full(all, maxCount)
      invariant all == collected + items[..i]
    {
      all := all + [items[i]];
      assert collected + items[..i + 1] == (collected + items[..i]) + [items[i]];
      if maxCount.Some? && maxCount.value != 0 && |all| >= maxCount.value {
        assert (collected + items)[..maxCount.value] == all;
        return;
      }
    }
    assert items[..|items|] == items;
  }

  /** The first `n` pages from the identifier on, or all of them if there are fewer. */
  function PagesFrom<Row>(query: Query<Row>, id: Option<string>, n: nat): seq<Page<Row>>
    decreases n
  {
    if n == 0 then []
    else
      var page := query(id);
      [page] + if HasNext(page) then PagesFrom(query, page.next, n - 1) else []
  }

  lemma {:induction false} PathIsPagesFrom<Row>(query: Query<Row>, id: Option<string>, pages: seq<Page<Row>>)
    requires IsPath(query, id, pages)
    ensures PagesFrom(query, id, |pages|) == pages
    decreases |pages|
  {
    if |pages| > 1 {
      PathIsPagesFrom(query, pages[0].next, pages[1..]);
      assert pages == [pages[0]] + pages[1..];
    }
  }

  /**
    Collects a stream, reading up to `limit` pages: the valid records of the pages read in order, or the first `maxCount`
    of them. It ends at a page without a next one, or as soon as there are enough records, and reads no further page.
   */
  method Collect<Row, T>(
    query: Query<Row>, start: Option<string>, schema: Schema<Row, T>, maxCount: Option<nat>, limit: nat)
    returns (collected: seq<T>, ended: bool, fetched: nat)
    ensures fetched <= limit && |PagesFrom(query, start, fetched)| == fetched
    ensures IsPath(query, start, PagesFrom(query, start, fetched))
    ensures var items := ItemsOf(PagesFrom(query, start, fetched), fetched, schema);
            collected == if maxCount.Some? && 0 < maxCount.value < |items| then items[..maxCount.value] else items
    ensures fetched > 0 && maxCount.Some? && maxCount.value > 0 ==>
              |ItemsOf(PagesFrom(query, start, fetched), fetched - 1, schema)| < maxCount.value
    ensures ended <==>
              && fetched > 0
              && (|| PagesFrom(query, start, fetched)[fetched - 1].next in {None, Some("")}
                  || (maxCount.Some? && 0 < maxCount.value <= |collected|))
    ensures !ended ==> fetched == limit
  {
    hide *;
    EmptyPath(query, start, schema, maxCount);
    if limit == 0 {
      PathIsPagesFrom(query, start, []);
      TakenItems(ItemsOf<Row, T>([], 0, schema), maxCount);
      return [], false, 0;
    }
    fetched := 1;
    var page := query(start);
    ghost var pages := [page];
    FirstPage(query, start, schema);
    var items, invalid := ParseResults(page.rows, schema);
    collected := CollectPage(items, [], maxCount);
    assert [] + items == items;
    while HasNext(page) && !Full(collected, maxCount) && fetched < limit
      invariant 1 <= fetched == |pages| <= limit
      invariant IsPath(query, start, pages) && page == pages[|pages| - 1]
      invariant collected == Take(ItemsOf(pages, |pages|, schema), maxCount)
      invariant !Full(ItemsOf(pages, |pages| - 1, schema), maxCount)
      decreases limit - fetched
    {
      PathExtends(query, start, pages);
      TakesAll(ItemsOf(pages, |pages|, schema), maxCount);
      page := query(page.next);
      OneMorePage(pages, page, schema);
      pages := pages + [page];
      items, invalid := ParseResults(page.rows, schema);
      collected := CollectPage(items, collected, maxCount);
      fetched := fetched + 1;
    }
    PathIsPagesFrom(query, start, pages);
    ended := !HasNext(page) || Full(collected, maxCount);
    LastPage(page);
    EnoughItems(collected, maxCount);
    EnoughItems(ItemsOf(pages, |pages| - 1, schema), maxCount);
    TakenItems(ItemsOf(pages, |pages|, schema), maxCount);
  }

  lemma LastPage<Row>(page: Page<Row>)
    ensures HasNext(page) <==> page.next !in {None, Some("")}
  {
  }

  lemma EnoughItems<T>(items: seq<T>, maxCount: Option<nat>)
    ensures Full(items, maxCount) <==> maxCount.Some? && 0 < maxCount.value <= |items|
  {
  }

  lemma TakenItems<T>(items: seq<T>, maxCount: Option<nat>)
    ensures Take(items, maxCount) ==
            if maxCount.Some? && 0 < maxCount.value < |items| then items[..maxCount.value] else items
  {
  }

  lemma TakesAll<T>(items: seq<T>, maxCount: Option<nat>)
    requires !Full(Take(items, maxCount), maxCount)
    ensures Take(items, maxCount) == items && !Full(items, maxCount)
  {
  }

  lemma EmptyPath<Row, T>(query: Query<Row>, id: Option<string>, schema: Schema<Row, T>, maxCount: Option<nat>)
    ensures IsPath(query, id, [])
    ensures Take(ItemsOf<Row, T>([], 0, schema), maxCount) == [] && !Full<T>([], maxCount)
  {
  }

  lemma FirstPage<Row, T>(query: Query<Row>, id: Option<string>, schema: Schema<Row, T>)
    ensures IsPath(query, id, [query(id)])
    ensures ItemsOf([query(id)], 1, schema) == ValidItems(schema, query(id).rows)
    ensures ItemsOf([query(id)], 0, schema) == []
  {
    assert [query(id)][..1] == [query(id)];
    assert AllRows([query(id)]) == query(id).rows;
  }

  /** A chain of pages that ends is read to its end, unless enough was found before: nothing depends on the paging. */
  lemma CollectsChain<Row, T>(
    query: Query<Row>, start: Option<string>, schema: Schema<Row, T>, maxCount: Option<nat>, limit: nat,
    collected: seq<T>, ended: bool, pages: seq<Page<Row>>, chain: seq<Page<Row>>)
    requires IsPath(query, start, pages) && IsChain(query, start, chain) && |chain| <= limit
    requires var items := ItemsOf(pages, |pages|, schema);
             collected == if maxCount.Some? && 0 < maxCount.value < |items| then items[..maxCount.value] else items
    requires ended <==>
               && pages != []
               && (|| pages[|pages| - 1].next in {None, Some("")}
                   || (maxCount.Some? && 0 < maxCount.value <= |collected|))
    requires !ended ==> |pages| == limit
    ensures ended && pages <= chain
    ensures var items := ValidItems(schema, AllRows(chain));
            collected == if maxCount.Some? && 0 < maxCount.value < |items| then items[..maxCount.value] else items
  {
    PathBeginsChain(query, start, pages, chain);
    assert pages == chain[..|pages|] && pages[..|pages|] == pages;
    MorePagesMoreItems(chain, |pages|, schema);
  }

  ghost function ItemsOf<Row, T>(pages: seq<Page<Row>>, n: nat, schema: Schema<Row, T>): seq<T>
    requires n <= |pages|
  {
    ValidItems(schema, AllRows(pages[..n]))
  }

  lemma OneMorePage<Row, T>(pages: seq<Page<Row>>, page: Page<Row>, schema: Schema<Row, T>)
    ensures ItemsOf(pages + [page], |pages| + 1, schema) ==
            ItemsOf(pages, |pages|, schema) + ValidItems(schema, page.rows)
    ensures ItemsOf(pages + [page], |pages|, schema) == ItemsOf(pages, |pages|, schema)
  {
    assert (pages + [page])[..|pages| + 1] == pages + [page] && (pages + [page])[..|pages|] == pages[..|pages|] == pages;
    AllRowsSplit(pages, [page]);
    assert AllRows([page]) == page.rows;
    ValidItemsSplit(schema, AllRows(pages), page.rows);
  }

  lemma MorePagesMoreItems<Row, T>(pages: seq<Page<Row>>, n: nat, schema: Schema<Row, T>)
    requires n <= |pages|
    ensures ItemsOf(pages, n, schema) <= ValidItems(schema, AllRows(pages))
    ensures n == |pages| ==> ItemsOf(pages, n, schema) == ValidItems(schema, AllRows(pages))
  {
    if n == |pages| { assert pages[..n] == pages; }
    assert pages == pages[..n] + pages[n..];
    AllRowsSplit(pages[..n], pages[n..]);
    ValidItemsSplit(schema, AllRows(pages[..n]), AllRows(pages[n..]));
  }

  lemma AllRowsUnfolds<Row>(pages: seq<Page<Row>>)
    ensures AllRows(pages) == if pages == [] then [] else pages[0].rows + AllRows(pages[1..])
  {
  }

  lemma {:induction false} AllRowsSplit<Row>(a: seq<Page<Row>>, b: seq<Page<Row>>)
    ensures AllRows(a + b) == AllRows(a) + AllRows(b)
  {
    hide AllRows;
    AllRowsUnfolds(a);
    if a == [] {
      assert a + b == b;
    } else {
      AllRowsUnfolds(a + b);
      assert (a + b)[0] == a[0] && (a + b)[1..] == a[1..] + b;
      AllRowsSplit(a[1..], b);
      Associates(a[0].rows, AllRows(a[1..]), AllRows(b));
    }
  }

  // ----- Counting the open leases of a user -----

  datatype StoredLease = StoredLease(key: LeaseKey, lease: Lease)

  /** The items are the leases of the user, each once. */
  ghost predicate ListsLeases(items: seq<StoredLease>, s: State, user: Email) {
    && (forall i :: 0 <= i < |items| ==>
          && items[i].key.userEmail == user
          && items[i].key in s.leases && s.leases[items[i].key] == items[i].lease)
    && (forall k :: k in s.leases && k.userEmail == user ==> exists i :: 0 <= i < |items| && items[i].key == k)
    && (forall i, j :: 0 <= i < j < |items| ==> items[i].key != items[j].key)
  }

  function OpenAmong(items: seq<StoredLease>): set<LeaseKey> {
    set i | 0 <= i < |items| && IsOpen(items[i].lease.status) :: items[i].key
  }

  /** The items that the status filter keeps. */
  function OpenItems(items: seq<StoredLease>): seq<StoredLease> {
    if items == [] then []
    else
      var last := items[|items| - 1];
      OpenItems(items[..|items| - 1]) + if IsOpen(last.lease.status) then [last] else []
  }

  lemma OpenAmongGrows(before: seq<StoredLease>, last: StoredLease)
    requires forall i :: 0 <= i < |before| ==> before[i].key != last.key
    ensures |OpenAmong(before + [last])| == |OpenAmong(before)| + if IsOpen(last.lease.status) then 1 else 0
  {
    var items := before + [last];
    assert forall i :: 0 <= i < |before| ==> items[i] == before[i];
    assert items[|before|] == last;
    assert OpenAmong(items) == OpenAmong(before) + if IsOpen(last.lease.status) then {last.key} else {};
    assert last.key !in OpenAmong(before);
  }

  lemma {:induction false} OpenItemsAreDistinct(items: seq<StoredLease>)
    requires forall i, j :: 0 <= i < j < |items| ==> items[i].key != items[j].key
    ensures |OpenItems(items)| == |OpenAmong(items)|
  {
    if items != [] {
      var before, last := items[..|items| - 1], items[|items| - 1];
      OpenItemsAreDistinct(before);
      OpenAmongGrows(before, last);
      assert items == before + [last];
    }
  }

  lemma OpenAmongIsOpenLeases(items: seq<StoredLease>, s: State, user: Email)
    requires ListsLeases(items, s, user)
    ensures OpenAmong(items) == OpenLeases(s, user)
  {
    forall k | k in OpenLeases(s, user)
      ensures k in OpenAmong(items)
    {
      var i :| 0 <= i < |items| && items[i].key == k;
    }
  }

  method CountOpen(items: seq<StoredLease>) returns (count: nat)
    ensures count == |OpenItems(items)|
  {
    var open := [];
    for i := 0 to |items|
      invariant open == OpenItems(items[..i])
    {
      assert items[..i + 1][..i] == items[..i];
      if IsOpen(items[i].lease.status) {
        open := open + [items[i]];
      }
    }
    assert items[..|items|] == items;
    count := |open|;
  }

  /** The number of leases that count against the limit, as `requestLease` computes it from the pages of the query. */
  method CountOpenLeases<Row>(
    query: Query<Row>, schema: Schema<Row, StoredLease>, limit: nat,
    ghost chain: seq<Page<Row>>, ghost s: State, ghost user: Email)
    returns (count: nat)
    requires IsChain(query, None, chain) && |chain| <= limit
    requires ListsLeases(ValidItems(schema, AllRows(chain)), s, user)
    ensures count == |OpenLeases(s, user)|
  {
    hide *;
    var items, ended, fetched := Collect(query, None, schema, None, limit);
    CollectsChain(query, None, schema, None, limit, items, ended, PagesFrom(query, None, fetched), chain);
    count := CountOpen(items);
    ListedOnce(items, s, user);
    OpenItemsAreDistinct(items);
    OpenAmongIsOpenLeases(items, s, user);
  }

  lemma ListedOnce(items: seq<StoredLease>, s: State, user: Email)
    requires ListsLeases(items, s, user)
    ensures forall i, j :: 0 <= i < j < |items| ==> items[i].key != items[j].key
  {
  }
}
