/** Keyset pagination: one request's window and links, and the client that follows the next links. */
module Pagination {
  import opened Basics

  /** The id of a row stands for the row. */
  ghost predicate Ascending(rows: seq<int>) {
    forall i, j | 0 <= i < j < |rows| :: rows[i] < rows[j]
  }

  function Limit(rows: seq<int>, most: nat): seq<int> {
    if |rows| > most then rows[..most] else rows
  }

  // ---------- the queries ----------

  function AtLeast(table: seq<int>, last: int): seq<int> {
    if table == [] then []
    else if table[0] >= last then [table[0]] + AtLeast(table[1..], last)
    else AtLeast(table[1..], last)
  }

  function AtMost(table: seq<int>, last: int): seq<int> {
    if table == [] then []
    else if table[0] <= last then [table[0]] + AtMost(table[1..], last)
    else AtMost(table[1..], last)
  }

  function Reversed(rows: seq<int>): seq<int> {
    seq(|rows|, i requires 0 <= i < |rows| => rows[|rows| - 1 - i])
  }

  /** The rows strictly after the given id. */
  function After(table: seq<int>, last: int): seq<int> {
    if table == [] then []
    else if table[0] > last then [table[0]] + After(table[1..], last)
    else After(table[1..], last)
  }

  lemma {:induction false} AllAfter(table: seq<int>, last: int)
    requires Ascending(table) && (table == [] || table[0] > last)
    ensures After(table, last) == AtLeast(table, last) == table
  {
    if table != [] {
      AllAfter(table[1..], last);
    }
  }

  lemma {:induction false} AfterMeaning(table: seq<int>, last: int)
    requires Ascending(table)
    ensures Ascending(After(table, last)) && forall x :: x in After(table, last) <==> x in table && x > last
  {
    if table != [] {
      AfterMeaning(table[1..], last);
      assert table[1..] == [] || table[0] < table[1];
      if table[0] > last {
        AllAfter(table, last);
      }
    }
  }

  /** What the query from an id on finds: that row, if it still exists, and what comes after it. */
  lemma {:induction false} AtLeastSplit(table: seq<int>, last: int)
    requires Ascending(table)
    ensures AtLeast(table, last) == (if last in table then [last] else []) + After(table, last)
  {
    if table != [] {
      if table[0] < last {
        AtLeastSplit(table[1..], last);
        assert last in table <==> last in table[1..];
      } else if table[0] == last {
        AllAfter(table[1..], last);
      } else {
        AllAfter(table, last);
        assert last !in table;
      }
    }
  }

  // ---------- links ----------

  /** Where a link leads: nowhere, to the first page, or to the rows after an id. */
  datatype Link = NoLink | First | Last(id: int)

  function Following(table: seq<int>, link: Link): seq<int> {
    match link
    case NoLink => []
    case First => table
    case Last(id) => After(table, id)
  }

  /** A request without a last id is for the first page. */
  function LinkOf(last: Option<int>): Link {
    if last.Some? then Last(last.value) else First
  }

  function PageAt(table: seq<int>, link: Link, size: nat): seq<int> {
    Limit(Following(table, link), size)
  }

  function NextAt(table: seq<int>, link: Link, size: nat): Link
    requires size > 0
  {
    if |Following(table, link)| > size then Last(Following(table, link)[size - 1]) else NoLink
  }

  /** The window that is cut from the fetched rows if the row the link names is gone, or none is named. */
  lemma WindowAfterGap(following: seq<int>, size: nat, rows: seq<int>)
    requires size > 0 && (rows == Limit(following, size + 2) || rows == Limit(following, size + 1))
    ensures |rows| > size <==> |following| > size
    ensures var additional := if |rows| == size + 2 then 1 else 0;
            if |rows| > size then
              rows[..|rows| - 1 - additional] == Limit(following, size)
                  && rows[|rows| - 2 - additional] == following[size - 1]
            else rows == Limit(following, size)
  {
  }

  /** The window that is cut from the fetched rows after the row the link names. */
  lemma WindowAfterRow(named: int, following: seq<int>, size: nat, rows: seq<int>)
    requires size > 0 && rows == [named] + Limit(following, size + 1)
    ensures |rows| > size + 1 <==> |following| > size
    ensures var additional := if |rows| == size + 2 then 1 else 0;
            && rows[1..|rows| - additional] == Limit(following, size)
            && (|following| > size ==> rows[|rows| - 1 - additional] == following[size - 1])
  {
  }

  // ---------- the server ----------

  /** The page size parameter of a request. */
  datatype SizeParam = Missing | Unreadable | Number(value: int)

  /** The last-id parameter was written by the server itself, so it decodes; a request without it asks for the first
      page. */
  datatype Request = Request(last: Option<int>, size: SizeParam)

  /** Whether the view brings its own queries, or the paginator filters the queryset. */
  datatype View = Hooked | Plain

  /** A maximum of zero means there is none. */
  function PageSize(param: SizeParam, defaultPageSize: nat, maxPageSize: nat): (size: nat)
    ensures defaultPageSize > 0 ==> size > 0
    ensures param.Number? && param.value > 0 ==> 0 < size <= param.value && (maxPageSize > 0 ==> size <= maxPageSize)
    ensures !(param.Number? && param.value > 0) ==> size == defaultPageSize
    ensures param.Number? && param.value > 0 ==>
              size == if 0 < maxPageSize < param.value then maxPageSize else param.value
  {
    match param
    case Number(value) =>
      if value <= 0 then defaultPageSize
      else if maxPageSize != 0 && maxPageSize < value then maxPageSize
      else value
    case _ => defaultPageSize
  }

  /** The rows the page is cut from. */
  function NextQuery(table: seq<int>, view: View, last: Option<int>, size: nat): seq<int> {
    match last
    case Some(id) => if view == Hooked then Limit(AtLeast(table, id), size + 2) else AtLeast(table, id)
    case None => if view == Hooked then Limit(table, size + 1) else table
  }

  /** The paginator's own reverse query looks back from among the rows at or after the id. */
  function PrevQuery(table: seq<int>, view: View, id: int, size: nat): seq<int> {
    if view == Hooked then Limit(Reversed(AtMost(table, id)), size + 1)
    else AtMost(Reversed(AtLeast(table, id)), id)
  }

  function PrevLink(rows: seq<int>, size: nat): Link {
    if |rows| == 0 then First
    else if |rows| > size then Last(rows[|rows| - 1])
    else First
  }

  /** The previous link of the page behind a link. */
  function PrevAt(table: seq<int>, view: View, link: Link, size: nat): Link {
    match link
    case Last(id) => PrevLink(Limit(PrevQuery(table, view, id, size), size + 1), size)
    case _ => NoLink
  }

  class IdBasedPagination {
    const defaultPageSize: nat
    const maxPageSize: nat
    var pageSizeValue: nat
    var prevPage: Option<seq<int>>
    var nextLastId: Option<int>

    constructor (defaultPageSize: nat, maxPageSize: nat)
      ensures this.defaultPageSize == defaultPageSize && this.maxPageSize == maxPageSize
    {
      this.defaultPageSize, this.maxPageSize := defaultPageSize, maxPageSize;
      pageSizeValue, prevPage, nextLastId := 0, None, None;
    }

    function GetPageSize(request: Request): nat {
      PageSize(request.size, defaultPageSize, maxPageSize)
    }

    /** The rows a request finds in its queryset. */
    lemma Fetched(table: seq<int>, view: View, last: Option<int>, size: nat)
      requires Ascending(table) && size > 0
      ensures var rows := Limit(NextQuery(table, view, last, size), size + 2);
              var following := Following(table, LinkOf(last));
              if last.Some? && last.value in table then rows == [last.value] + Limit(following, size + 1)
              else (rows == Limit(following, size + 2) || rows == Limit(following, size + 1))
                   && (last.Some? && rows != [] ==> rows[0] != last.value)
    {
      if last.Some? {
        AtLeastSplit(table, last.value);
        AfterMeaning(table, last.value);
        var following := After(table, last.value);
        assert following != [] ==> following[0] in following;
        assert last.value !in table ==> [] + following == following;
      }
    }

    method PaginateQueryset(table: seq<int>, view: View, request: Request) returns (page: Option<seq<int>>)
      requires Ascending(table)
      modifies this
      ensures var size, link := GetPageSize(request), LinkOf(request.last);
              if size == 0 then page == None && unchanged(this)
              else
                && pageSizeValue == size
                && page == Some(PageAt(table, link, size))
                && nextLastId == (if |Following(table, link)| > size then Some(Following(table, link)[size - 1])
                                  else None)
                && prevPage == (if request.last.None? then None
                                else Some(Limit(PrevQuery(table, view, request.last.value, size), size + 1)))
                && GetNextLink() == NextAt(table, link, size) && GetPrevLink() == PrevAt(table, view, link, size)
    {
      var size := GetPageSize(request);
      if size == 0 {
        return None;
      }
      pageSizeValue := size;
      if request.last.Some? {
        var prev := PrevQuery(table, view, request.last.value, size);
        prevPage := Some(Limit(prev, size + 1));
      } else {
        prevPage := None;
      }
      var qs := NextQuery(table, view, request.last, size);
      // the next size + 2 rows, so that a next link is only made if it is needed
      var rows := Limit(qs, size + 2);
      Fetched(table, view, request.last, size);
      nextLastId, page := CutWindow(rows, request.last, size, Following(table, LinkOf(request.last)));
    }

    /** The page and the next link's id, from the fetched rows. */
    static method CutWindow(rows: seq<int>, last: Option<int>, size: nat, ghost following: seq<int>)
        returns (nextLastId: Option<int>, page: Option<seq<int>>)
      requires size > 0
      requires if last.Some? && rows != [] && rows[0] == last.value then
                 rows == [last.value] + Limit(following, size + 1)
               else rows == Limit(following, size + 2) || rows == Limit(following, size + 1)
      ensures page == Some(Limit(following, size))
      ensures nextLastId == if |following| > size then Some(following[size - 1]) else None
    {
      var additional := if |rows| == size + 2 then 1 else 0;
      if rows == [] {
        WindowAfterGap(following, size, rows);
        nextLastId := None;
        page := Some(rows);
      } else if last == Some(rows[0]) {
        WindowAfterRow(rows[0], following, size, rows);
        nextLastId := if |rows| > size + 1 then Some(rows[|rows| - 1 - additional]) else None;
        page := Some(rows[1..|rows| - additional]);
      } else {
        WindowAfterGap(following, size, rows);
        nextLastId := if |rows| > size then Some(rows[|rows| - 2 - additional]) else None;
        page := Some(if |rows| > size then rows[..|rows| - 1 - additional] else rows);
      }
    }

    function GetPrevLink(): Link
      reads this
    {
      match prevPage
      case None => NoLink
      case Some(rows) => PrevLink(rows, pageSizeValue)
    }

    function GetNextLink(): Link
      reads this
    {
      match nextLastId
      case None => NoLink
      case Some(id) => Last(id)
    }
  }
}
