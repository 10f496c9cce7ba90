/** Reading a whole list page by page, while the table may change between the requests. */
module Reading {
  import opened Basics
  import opened Pagination

  /** What following next links yields when the k-th request finds `tables[k]`: the rows, the number of
      requests, and the link that is left when the tables run out. */
  datatype Traversal = Traversal(rows: seq<int>, requests: nat, left: Link)

  function Traverse(tables: seq<seq<int>>, link: Link, size: nat): Traversal
    requires size > 0
  {
    if link == NoLink || tables == [] then Traversal([], 0, link)
    else
      var rest := Traverse(tables[1..], NextAt(tables[0], link, size), size);
      Traversal(PageAt(tables[0], link, size) + rest.rows, rest.requests + 1, rest.left)
  }

  lemma TraverseStep(tables: seq<seq<int>>, k: nat, link: Link, size: nat)
    requires size > 0 && k < |tables| && link != NoLink
    ensures var rest := Traverse(tables[k + 1..], NextAt(tables[k], link, size), size);
            Traverse(tables[k..], link, size) ==
                Traversal(PageAt(tables[k], link, size) + rest.rows, rest.requests + 1, rest.left)
  {
  }

  ghost predicate AllAscending(tables: seq<seq<int>>) {
    forall t | t in tables :: Ascending(t)
  }

  /** The client's loop. */
  method ReadPaginatedAll(tables: seq<seq<int>>, view: View, param: SizeParam, defaultPageSize: nat, maxPageSize: nat)
      returns (rows: seq<int>, requests: nat, url: Link)
    requires AllAscending(tables) && defaultPageSize > 0
    ensures Traversal(rows, requests, url) == Traverse(tables, First, PageSize(param, defaultPageSize, maxPageSize))
  {
    ghost var size := PageSize(param, defaultPageSize, maxPageSize);
    rows, requests, url := [], 0, First;
    ghost var rest := Traverse(tables, First, size);
    assert tables[0..] == tables && rows + rest.rows == rest.rows;
    while url != NoLink && requests < |tables|
      invariant requests <= |tables| && rest == Traverse(tables[requests..], url, size)
      invariant Traversal(rows + rest.rows, requests + rest.requests, rest.left) == Traverse(tables, First, size)
      decreases |tables| - requests
    {
      TraverseStep(tables, requests, url, size);
      var page;
      page, url := GetPage(tables[requests], view, url, param, defaultPageSize, maxPageSize, size);
      rest := Traverse(tables[requests + 1..], url, size);
      assert rows + (page + rest.rows) == rows + page + rest.rows;
      rows, requests := rows + page, requests + 1;
    }
    assert rest.rows == [] && rows + [] == rows;
  }

  /** One request; its paginator serves no other. */
  method GetPage(table: seq<int>, view: View, url: Link, param: SizeParam, defaultPageSize: nat, maxPageSize: nat,
                 ghost size: nat)
      returns (page: seq<int>, next: Link)
    requires Ascending(table) && url != NoLink && defaultPageSize > 0
    requires size > 0 && size == PageSize(param, defaultPageSize, maxPageSize)
    ensures page == PageAt(table, url, size) && next == NextAt(table, url, size)
  {
    var paginator := new IdBasedPagination(defaultPageSize, maxPageSize);
    var response := paginator.PaginateQueryset(table, view,
                                               Request(if url == First then None else Some(url.id), param));
    page, next := response.value, paginator.GetNextLink();
  }

  // ---------- one page ----------

  ghost predicate Above(link: Link, x: int) {
    match link
    case NoLink => false
    case First => true
    case Last(id) => x > id
  }

  lemma FollowingMeaning(table: seq<int>, link: Link)
    requires Ascending(table)
    ensures Ascending(Following(table, link))
            && forall x :: x in Following(table, link) <==> x in table && Above(link, x)
  {
    if link.Last? {
      AfterMeaning(table, link.id);
    }
  }

  /** A page holds the first rows above its link: every row above the link is on the page or above the next link,
      and every row of the page is above the link but not above the next one. */
  lemma PageSplits(table: seq<int>, link: Link, size: nat, x: int)
    requires Ascending(table) && size > 0
    ensures var page, next := PageAt(table, link, size), NextAt(table, link, size);
            && Ascending(page) && |page| <= size && (next != NoLink ==> |page| == size)
            && (x in table && Above(link, x) <==> x in page || (x in table && Above(link, x) && Above(next, x)))
            && (x in page ==> x in table && Above(link, x) && !Above(next, x))
            && (Above(next, x) ==> Above(link, x))
  {
    var f := Following(table, link);
    FollowingMeaning(table, link);
    if |f| > size {
      assert f[size - 1] in f;
      if x in f {
        var i :| 0 <= i < |f| && f[i] == x;
        assert i < size <==> x <= f[size - 1];
        assert i < size ==> f[..size][i] == x;
      }
    }
  }

  // ---------- while the table changes ----------

  lemma {:induction false} RowsAbove(tables: seq<seq<int>>, link: Link, size: nat, x: int)
    requires AllAscending(tables) && size > 0 && x in Traverse(tables, link, size).rows
    ensures Above(link, x) && exists t :: t in tables && x in t
  {
    var next := NextAt(tables[0], link, size);
    PageSplits(tables[0], link, size, x);
    if x !in PageAt(tables[0], link, size) {
      RowsAbove(tables[1..], next, size, x);
    }
  }

  /** No row is read twice: the ids that are read ascend strictly. */
  lemma {:induction false} ReadsAscend(tables: seq<seq<int>>, link: Link, size: nat)
    requires AllAscending(tables) && size > 0
    ensures Ascending(Traverse(tables, link, size).rows)
  {
    if link != NoLink && tables != [] {
      var page, next := PageAt(tables[0], link, size), NextAt(tables[0], link, size);
      var rest := Traverse(tables[1..], next, size).rows;
      ReadsAscend(tables[1..], next, size);
      forall x | x in page ensures !Above(next, x) {
        PageSplits(tables[0], link, size, x);
      }
      PageSplits(tables[0], link, size, 0);
      forall x | x in rest ensures Above(next, x) {
        RowsAbove(tables[1..], next, size, x);
      }
      forall i, j | 0 <= i < j < |page + rest| ensures (page + rest)[i] < (page + rest)[j] {
        if i < |page| <= j {
          assert page[i] in page && rest[j - |page|] in rest;
        }
      }
    }
  }

  /** No row is missed: what every request could have found is read by the time its id is passed. */
  lemma {:induction false} ReadsEverything(tables: seq<seq<int>>, link: Link, size: nat, x: int)
    requires AllAscending(tables) && size > 0 && Above(link, x)
    requires forall i | 0 <= i < Traverse(tables, link, size).requests && i < |tables| :: x in tables[i]
    ensures var t := Traverse(tables, link, size); x in t.rows || Above(t.left, x)
  {
    if tables != [] {
      var next := NextAt(tables[0], link, size);
      PageSplits(tables[0], link, size, x);
      if x !in PageAt(tables[0], link, size) {
        ReadsEverything(tables[1..], next, size, x);
      }
    }
  }

  /** What so many full pages hold. */
  function Capacity(size: nat, pages: nat): nat {
    if pages == 0 then 0 else Capacity(size, pages - 1) + size
  }

  lemma {:induction false} CapacityIsProduct(size: nat, pages: nat)
    ensures Capacity(size, pages) == size * pages
  {
    if pages > 0 {
      CapacityIsProduct(size, pages - 1);
      assert size * pages == size * (pages - 1) + size;
    }
  }

  lemma {:induction false} PagesFill(tables: seq<seq<int>>, link: Link, size: nat)
    requires AllAscending(tables) && size > 0
    ensures var t := Traverse(tables, link, size);
            && t.requests <= |tables|
            && (t.left != NoLink ==> t.requests == |tables| && |t.rows| == Capacity(size, t.requests))
            && (t.requests > 0 ==> Capacity(size, t.requests - 1) <= |t.rows| <= Capacity(size, t.requests))
  {
    if link != NoLink && tables != [] {
      PageSplits(tables[0], link, size, 0);
      PagesFill(tables[1..], NextAt(tables[0], link, size), size);
    }
  }

  lemma EarlierPagesAreFull(tables: seq<seq<int>>, link: Link, size: nat)
    requires AllAscending(tables) && size > 0
    ensures var t := Traverse(tables, link, size);
            && t.requests <= |tables| && (t.left != NoLink ==> t.requests == |tables| && |t.rows| == size * t.requests)
            && (t.requests > 0 ==> size * (t.requests - 1) <= |t.rows| <= size * t.requests)
  {
    var t := Traverse(tables, link, size);
    PagesFill(tables, link, size);
    CapacityIsProduct(size, t.requests);
    if t.requests > 0 {
      CapacityIsProduct(size, t.requests - 1);
    }
  }

  /** Exactly once: a client that follows the links to their end reads strictly ascending ids, each of which some
      request found, and every row that was there for all of its requests, whatever else came or went in between. */
  lemma ExactlyOnce(tables: seq<seq<int>>, size: nat)
    requires AllAscending(tables) && size > 0
    ensures var t := Traverse(tables, First, size);
            && Ascending(t.rows)
            && (forall x | x in t.rows :: exists table :: table in tables && x in table)
            && (t.left == NoLink ==> forall x | (forall i | 0 <= i < t.requests && i < |tables| :: x in tables[i]) ::
                x in t.rows)
  {
    var t := Traverse(tables, First, size);
    ReadsAscend(tables, First, size);
    forall x | x in t.rows ensures exists table :: table in tables && x in table {
      RowsAbove(tables, First, size, x);
    }
    if t.left == NoLink {
      forall x | (forall i | 0 <= i < t.requests && i < |tables| :: x in tables[i]) ensures x in t.rows {
        ReadsEverything(tables, First, size, x);
      }
    }
  }

  lemma {:induction false} AscendingWithin(rows: seq<int>, universe: set<int>)
    requires Ascending(rows) && forall x | x in rows :: x in universe
    ensures |rows| <= |universe|
  {
    if rows != [] {
      var n := |rows| - 1;
      assert rows[n] in rows;
      forall x | x in rows[..n] ensures x in universe - {rows[n]} {
        var i :| 0 <= i < n && rows[..n][i] == x;
        assert rows[i] in rows;
      }
      assert Ascending(rows[..n]);
      AscendingWithin(rows[..n], universe - {rows[n]});
    }
  }

  /** It ends: however the table changes, as long as only finitely many rows ever exist. */
  lemma ReadsEnd(tables: seq<seq<int>>, size: nat, universe: set<int>)
    requires AllAscending(tables) && size > 0 && forall t, x | t in tables && x in t :: x in universe
    requires size * |tables| > |universe|
    ensures Traverse(tables, First, size).left == NoLink
  {
    ExactlyOnce(tables, size);
    EarlierPagesAreFull(tables, First, size);
    AscendingWithin(Traverse(tables, First, size).rows, universe);
  }

  // ---------- while the table stays the same ----------

  /** How many requests n rows take. */
  function Pages(n: nat, size: nat): nat
    requires size > 0
  {
    if n <= size then 1 else 1 + Pages(n - size, size)
  }

  /** The quotient rounded up, but at least one. */
  lemma {:induction false} PagesRoundUp(n: nat, size: nat)
    requires size > 0
    ensures n <= size * Pages(n, size)
    ensures size * (Pages(n, size) - 1) < n || (n == 0 && Pages(n, size) == 1)
  {
    if n > size {
      PagesRoundUp(n - size, size);
      var p := Pages(n - size, size);
      assert size * (p + 1) == size * p + size && size * p == size * (p - 1) + size;
    }
  }

  lemma {:induction false} AfterSkips(table: seq<int>, k: nat)
    requires Ascending(table) && 0 < k <= |table|
    ensures After(table, table[k - 1]) == table[k..]
  {
    if k == 1 {
      AllAfter(table[1..], table[0]);
    } else {
      AfterSkips(table[1..], k - 1);
      assert table[0] < table[k - 1];
    }
  }

  /** The link to the rows from index k on. */
  function LinkAt(table: seq<int>, k: nat): Link
    requires k <= |table|
  {
    if k == 0 then First else Last(table[k - 1])
  }

  lemma LinkAtMeaning(table: seq<int>, k: nat, size: nat)
    requires Ascending(table) && k <= |table| && size > 0
    ensures Following(table, LinkAt(table, k)) == table[k..]
    ensures NextAt(table, LinkAt(table, k), size) == if k + size < |table| then LinkAt(table, k + size) else NoLink
  {
    if k > 0 {
      AfterSkips(table, k);
    }
  }

  /** The page from index k on, and the link behind it. */
  lemma PageFrom(table: seq<int>, k: nat, size: nat) returns (page: seq<int>, next: Link)
    requires Ascending(table) && size > 0 && k <= |table|
    ensures page == PageAt(table, LinkAt(table, k), size) && next == NextAt(table, LinkAt(table, k), size)
    ensures if k + size < |table| then page + table[k + size..] == table[k..] && next == LinkAt(table, k + size)
            else page == table[k..] && next == NoLink
  {
    LinkAtMeaning(table, k, size);
    page, next := PageAt(table, LinkAt(table, k), size), NextAt(table, LinkAt(table, k), size);
  }

  lemma {:induction false} UnchangingFrom(table: seq<int>, k: nat, tables: seq<seq<int>>, size: nat)
    requires Ascending(table) && size > 0 && k <= |table| && |tables| >= Pages(|table| - k, size)
    requires forall i | 0 <= i < |tables| :: tables[i] == table
    ensures var t := Traverse(tables, LinkAt(table, k), size);
            t.rows == table[k..] && t.requests == Pages(|table| - k, size) && t.left == NoLink
    decreases |table| - k
  {
    var page, next := PageFrom(table, k, size);
    var rest := Traverse(tables[1..], next, size);
    assert Traverse(tables, LinkAt(table, k), size) == Traversal(page + rest.rows, rest.requests + 1, rest.left) by {
      assert tables[0..] == tables;
      TraverseStep(tables, 0, LinkAt(table, k), size);
    }
    if k + size < |table| {
      UnchangingFrom(table, k + size, tables[1..], size);
    } else {
      assert rest.rows == [] && page + [] == page;
    }
  }

  /** A table that stays the same is read as it is, in as many requests as its rows fill pages, and in one if it is
      empty. */
  lemma UnchangingTable(table: seq<int>, tables: seq<seq<int>>, size: nat)
    requires Ascending(table) && size > 0 && |tables| >= Pages(|table|, size)
    requires forall i | 0 <= i < |tables| :: tables[i] == table
    ensures Traverse(tables, First, size) == Traversal(table, Pages(|table|, size), NoLink)
  {
    UnchangingFrom(table, 0, tables, size);
    assert table[0..] == table;
  }

  // ---------- back again ----------

  /** The link to a page after following so many next links from the first. */
  function NthLink(table: seq<int>, size: nat, n: nat): Link
    requires size > 0
  {
    if n == 0 then First else NextAt(table, NthLink(table, size, n - 1), size)
  }

  lemma {:induction false} NthLinkAt(table: seq<int>, size: nat, n: nat)
    requires Ascending(table) && size > 0 && NthLink(table, size, n) != NoLink
    ensures n == 0 || n * size < |table|
    ensures n * size <= |table| && NthLink(table, size, n) == LinkAt(table, n * size)
  {
    if n > 0 {
      assert NthLink(table, size, n - 1) != NoLink;
      NthLinkAt(table, size, n - 1);
      var k := (n - 1) * size;
      assert n * size == k + size;
      assert NthLink(table, size, n) == NextAt(table, LinkAt(table, k), size);
      LinkAtMeaning(table, k, size);
    } else {
      assert n * size == 0;
    }
  }

  lemma {:induction false} AtMostTakes(table: seq<int>, k: nat)
    requires Ascending(table) && 0 < k <= |table|
    ensures AtMost(table, table[k - 1]) == table[..k]
  {
    if k > 1 {
      AtMostTakes(table[1..], k - 1);
      assert table[0] < table[k - 1];
      assert table[..k] == [table[0]] + table[1..][..k - 1];
    } else {
      NoneAtMost(table[1..], table[0]);
      assert table[..1] == [table[0]];
    }
  }

  lemma {:induction false} NoneAtMost(rows: seq<int>, id: int)
    requires forall i | 0 <= i < |rows| :: rows[i] > id
    ensures AtMost(rows, id) == []
  {
    if rows != [] {
      NoneAtMost(rows[1..], id);
    }
  }

  /** A view's reverse query reaches one page and one row back. */
  lemma HookedFrom(table: seq<int>, size: nat, k: nat)
    requires Ascending(table) && size > 0 && k + size <= |table|
    ensures PrevAt(table, Hooked, LinkAt(table, k + size), size) == LinkAt(table, k)
  {
    AtMostTakes(table, k + size);
    var back := Reversed(table[..k + size]);
    assert |back| == k + size && (k > 0 ==> back[size] == table[k - 1]);
    assert PrevQuery(table, Hooked, table[k + size - 1], size) == Limit(back, size + 1);
  }

  lemma AtMostFirst(x: int, rows: seq<int>, id: int)
    ensures AtMost([x] + rows, id) == (if x <= id then [x] else []) + AtMost(rows, id)
  {
    assert ([x] + rows)[1..] == rows;
  }

  lemma {:induction false} AtMostConcat(a: seq<int>, b: seq<int>, id: int)
    ensures AtMost(a + b, id) == AtMost(a, id) + AtMost(b, id)
  {
    if a == [] {
      assert a + b == b;
    } else {
      AtMostConcat(a[1..], b, id);
      assert a + b == [a[0]] + (a[1..] + b);
      AtMostFirst(a[0], a[1..] + b, id);
      AtMostFirst(a[0], a[1..], id);
      assert a == [a[0]] + a[1..];
    }
  }

  /** The paginator's own reverse query finds at most the row the link names. */
  lemma PlainFrom(table: seq<int>, size: nat, id: int)
    requires Ascending(table) && size > 0
    ensures PrevAt(table, Plain, Last(id), size) == First
  {
    var after, named := After(table, id), if id in table then [id] else [];
    AfterMeaning(table, id);
    AtLeastSplit(table, id);
    assert AtLeast(table, id) == named + after;
    assert Reversed(named + after) == Reversed(after) + named;
    assert forall i | 0 <= i < |after| :: after[i] in after;
    NoneAtMost(Reversed(after), id);
    AtMostConcat(Reversed(after), named, id);
    assert |PrevQuery(table, Plain, id, size)| <= 1;
  }

  /** Next then previous is the identity, if the view answers the reverse query itself. */
  lemma NextThenPrevious(table: seq<int>, size: nat, n: nat)
    requires Ascending(table) && size > 0 && NthLink(table, size, n + 1) != NoLink
    ensures PrevAt(table, Hooked, NthLink(table, size, n + 1), size) == NthLink(table, size, n)
  {
    var m := TwoLinks(table, size, n);
    HookedFrom(table, size, m);
  }

  /** With the paginator's own reverse query the previous link always leads to the first page: right for the second
      page and for no other. */
  lemma PlainPrevious(table: seq<int>, size: nat, n: nat)
    requires Ascending(table) && size > 0 && NthLink(table, size, n + 1) != NoLink
    ensures PrevAt(table, Plain, NthLink(table, size, n + 1), size) == NthLink(table, size, n) <==> n == 0
  {
    var m := TwoLinks(table, size, n);
    PlainFrom(table, size, NthLink(table, size, n + 1).id);
  }

  lemma TwoLinks(table: seq<int>, size: nat, n: nat) returns (m: nat)
    requires Ascending(table) && size > 0 && NthLink(table, size, n + 1) != NoLink
    ensures (m == 0 <==> n == 0) && m + size <= |table|
    ensures NthLink(table, size, n) == LinkAt(table, m)
    ensures NthLink(table, size, n + 1) == LinkAt(table, m + size)
  {
    assert NthLink(table, size, n) != NoLink;
    NthLinkAt(table, size, n);
    m := n * size;
    LinkAtMeaning(table, m, size);
    if n > 0 {
      assert m == (n - 1) * size + size;
    }
  }
}
