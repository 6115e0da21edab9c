/**
  The paging and selection state of a search grid. The query, its store and
  the grid cells are abstracted: a refresh of the store yields a `StorePage`,
  the number of pages and the items shown.
 */
module Grids {

  import opened Wrappers
  import Dedup

  type Item = nat

  /** What a refresh of the bound query's store yields. */
  datatype StorePage = StorePage(noPages: int, items: seq<Item>)

  /** The next-page guard. */
  predicate CanMoveNext(page: int, noPages: int) {
    page < noPages
  }

  /** The previous-page guard. */
  predicate CanMovePrevious(page: int) {
    page > 1
  }

  /** Index of the first occurrence of `x` in `s`, or -1 when it does not occur. */
  function IndexOf(s: seq<Item>, x: Item): (r: int)
    ensures -1 <= r < |s|
    ensures r == -1 <==> x !in s
    ensures r >= 0 ==> s[r] == x && x !in s[..r]
    ensures r >= 0 ==> r == Dedup.FirstIndex(s, x)
  {
    if s == [] then -1
    else if s[0] == x then 0
    else
      var k := IndexOf(s[1..], x);
      if k < 0 then -1 else k + 1
  }

  /** The items in the given rows, in row order. */
  function ItemsAt(items: seq<Item>, rows: seq<nat>): (r: seq<Item>)
    requires forall k :: 0 <= k < |rows| ==> rows[k] < |items|
    ensures |r| == |rows|
    ensures forall k :: 0 <= k < |rows| ==> r[k] == items[rows[k]]
  {
    if rows == [] then []
    else ItemsAt(items, rows[..|rows| - 1]) + [items[rows[|rows| - 1]]]
  }

  class Search {
    var page: int
    var noPages: int

    var pageSize: int
    var pageSizeMin: int
    var pageSizeMax: int

    /** Whether the grid has a binding, and so a query. */
    var bound: bool
    /** The query's store as of the last refresh. */
    var storeItems: seq<Item>

    var hasDialog: bool
    var dialogOpen: bool

    var selected: seq<Item>
    /** The grid's selected rows, by index. */
    var selectedRows: seq<nat>

    var refreshCanExecute: bool
    var filtersCanExecute: bool
    var clearCanExecute: bool
    var nextPageCanExecute: bool
    var previousPageCanExecute: bool

    /**
      The page is at least 1, each paging command is executable exactly when
      its move is possible, and the other commands are always executable.
     */
    ghost predicate Valid()
      reads this
    {
      && page >= 1
      && nextPageCanExecute == CanMoveNext(page, noPages)
      && previousPageCanExecute == CanMovePrevious(page)
      && refreshCanExecute && filtersCanExecute && clearCanExecute
    }

    /** The items shown: the store's when there is a query, none otherwise. */
    function Displayed(): seq<Item>
      reads this`bound, this`storeItems
    {
      if bound then storeItems else []
    }

    /** A new, unbound search grid on page 1 of 0, with page size 25 in [5, 100]. */
    constructor ()
      ensures Valid()
      ensures page == 1 && noPages == 0
      ensures pageSizeMin == 5 && pageSizeMax == 100 && pageSize == 25
      ensures pageSizeMin <= pageSize <= pageSizeMax
      ensures !bound && Displayed() == []
      ensures !hasDialog && !dialogOpen
      ensures selected == [] && selectedRows == []
      ensures !nextPageCanExecute && !previousPageCanExecute
      ensures refreshCanExecute && filtersCanExecute && clearCanExecute
    {
      selected := [];
      selectedRows := [];
      page := 1;
      noPages := 0;
      bound := false;
      storeItems := [];
      hasDialog := false;
      dialogOpen := false;
      refreshCanExecute := true;
      filtersCanExecute := true;
      clearCanExecute := true;
      pageSizeMin := 5;
      pageSizeMax := 100;
      pageSize := 25;
      new;
      NextPageRefresh();
      PreviousPageRefresh();
    }

    /** Recompute whether the next-page command can run (`Refesh` in the source). */
    method NextPageRefresh()
      modifies this`nextPageCanExecute
      ensures nextPageCanExecute == CanMoveNext(page, noPages)
    {
      if page < noPages {
        nextPageCanExecute := true;
      } else {
        nextPageCanExecute := false;
      }
    }

    /** Recompute whether the previous-page command can run (`Refesh` in the source). */
    method PreviousPageRefresh()
      modifies this`previousPageCanExecute
      ensures previousPageCanExecute == CanMovePrevious(page)
    {
      if page > 1 {
        previousPageCanExecute := true;
      } else {
        previousPageCanExecute := false;
      }
    }

    /**
      Re-run the query for the current page: with a query the page count and
      items come from the store, without one the page count is 0; then both
      paging commands are refreshed.
     */
    method RefreshControl(result: StorePage)
      modifies this`noPages, this`storeItems, this`hasDialog,
               this`nextPageCanExecute, this`previousPageCanExecute
      ensures nextPageCanExecute == CanMoveNext(page, noPages)
      ensures previousPageCanExecute == CanMovePrevious(page)
      ensures noPages == (if bound then result.noPages else 0)
      ensures storeItems == (if bound then result.items else old(storeItems))
      ensures Displayed() == (if bound then result.items else [])
      ensures hasDialog == (old(hasDialog) || bound)
    {
      if bound {
        hasDialog := true;
        storeItems := result.items;
        noPages := result.noPages;
      } else {
        noPages := 0;
      }
      NextPageRefresh();
      PreviousPageRefresh();
    }

    /** The next-page command: one page on, when there is a next page. */
    method NextPageRun(result: StorePage)
      requires Valid()
      modifies this`page, this`noPages, this`storeItems, this`hasDialog,
               this`nextPageCanExecute, this`previousPageCanExecute
      ensures Valid()
      ensures old(CanMoveNext(page, noPages)) ==>
                page == old(page) + 1 && noPages == (if bound then result.noPages else 0)
                && Displayed() == (if bound then result.items else [])
                && hasDialog == (old(hasDialog) || bound)
      ensures !old(CanMoveNext(page, noPages)) ==> unchanged(this)
    {
      if page < noPages {
        page := page + 1;
        RefreshControl(result);
      }
    }

    /** The previous-page command: one page back, when not on the first page. */
    method PreviousPageRun(result: StorePage)
      requires Valid()
      modifies this`page, this`noPages, this`storeItems, this`hasDialog,
               this`nextPageCanExecute, this`previousPageCanExecute
      ensures Valid()
      ensures old(CanMovePrevious(page)) ==>
                page == old(page) - 1 && noPages == (if bound then result.noPages else 0)
                && Displayed() == (if bound then result.items else [])
                && hasDialog == (old(hasDialog) || bound)
      ensures !old(CanMovePrevious(page)) ==> unchanged(this)
    {
      if page > 1 {
        page := page - 1;
        RefreshControl(result);
      }
    }

    /**
      A change of the page-size spinner's `Value` (now `value`) goes back to
      page 1 and refreshes with that page size; any other property of the
      spinner changes nothing.
     */
    method PageSizePropertyChanged(propertyName: string, value: int, result: StorePage)
      requires Valid()
      modifies this`page, this`pageSize, this`noPages, this`storeItems, this`hasDialog,
               this`nextPageCanExecute, this`previousPageCanExecute
      ensures Valid()
      ensures propertyName == "Value" ==>
                page == 1 && pageSize == value && !previousPageCanExecute
                && noPages == (if bound then result.noPages else 0)
                && Displayed() == (if bound then result.items else [])
                && hasDialog == (old(hasDialog) || bound)
      ensures propertyName != "Value" ==> unchanged(this)
    {
      if propertyName == "Value" {
        pageSize := value;
        page := 1;
        RefreshControl(result);
      }
    }

    /** A new binding (or none): the query is rebuilt and the grid refreshed. */
    method AfterBindingChanged(hasBinding: bool, result: StorePage)
      requires Valid()
      modifies this`bound, this`noPages, this`storeItems, this`hasDialog,
               this`nextPageCanExecute, this`previousPageCanExecute
      ensures Valid()
      ensures bound == hasBinding && page == old(page)
      ensures noPages == (if hasBinding then result.noPages else 0)
      ensures Displayed() == (if hasBinding then result.items else [])
      ensures hasDialog == (old(hasDialog) || hasBinding)
    {
      bound := hasBinding;
      RefreshControl(result);
    }

    /** The refresh command: re-run the query; it stays executable. */
    method RefreshRun(result: StorePage)
      requires Valid()
      modifies this`refreshCanExecute, this`noPages, this`storeItems, this`hasDialog,
               this`nextPageCanExecute, this`previousPageCanExecute
      ensures Valid() && refreshCanExecute
      ensures noPages == (if bound then result.noPages else 0)
      ensures Displayed() == (if bound then result.items else [])
      ensures hasDialog == (old(hasDialog) || bound)
    {
      RefreshControl(result);
      refreshCanExecute := true;
    }

    /**
      The filters command: open the filter dialog. Creating the dialog needs
      the query's store, so without a dialog and without a binding the command
      fails (`ok` is false) and nothing changes; it stays executable either way.
     */
    method FiltersRun() returns (ok: bool)
      requires Valid()
      modifies this`hasDialog, this`dialogOpen, this`filtersCanExecute
      ensures Valid() && filtersCanExecute
      ensures ok == old(hasDialog || bound)
      ensures ok ==> hasDialog && dialogOpen
      ensures !ok ==> unchanged(this)
    {
      ok := hasDialog || bound;
      if ok {
        hasDialog := true;
        dialogOpen := true;
        filtersCanExecute := true;
      }
    }

    /**
      The clear command: re-run the query (the dialog's filters are not modelled). It
      fails like the filters command when there is neither dialog nor binding.
     */
    method ClearRun(result: StorePage) returns (ok: bool)
      requires Valid()
      modifies this`clearCanExecute, this`noPages, this`storeItems, this`hasDialog,
               this`nextPageCanExecute, this`previousPageCanExecute
      ensures Valid() && clearCanExecute
      ensures ok == old(hasDialog || bound)
      ensures ok ==> hasDialog && noPages == (if bound then result.noPages else 0)
      ensures ok ==> Displayed() == (if bound then result.items else [])
      ensures !ok ==> unchanged(this)
    {
      ok := hasDialog || bound;
      if ok {
        hasDialog := true;
        RefreshControl(result);
        clearCanExecute := true;
      }
    }

    /**
      Select one displayed item: the selection becomes exactly that item and
      the grid's selection exactly its row. A null item or one not displayed
      changes nothing.
     */
    method Select(item: Option<Item>)
      modifies this`selected, this`selectedRows
      ensures item.None? || item.value !in Displayed() ==>
                selected == old(selected) && selectedRows == old(selectedRows)
      ensures item.Some? && item.value in Displayed() ==>
                && selected == [item.value]
                && |selectedRows| == 1
                && selectedRows[0] < |Displayed()|
                && Displayed()[selectedRows[0]] == item.value
                && item.value !in Displayed()[..selectedRows[0]]
                && ItemsAt(Displayed(), selectedRows) == selected
    {
      if item.Some? {
        var displayed := Displayed();
        var index := IndexOf(displayed, item.value);
        if index >= 0 {
          selectedRows := [index];
          selected := [item.value];
        }
      }
    }

    /** The grid's own selection changed: the selection becomes the items in those rows. */
    method GridRowsSelected(rows: seq<nat>)
      requires forall k :: 0 <= k < |rows| ==> rows[k] < |Displayed()|
      modifies this`selected, this`selectedRows
      ensures selectedRows == rows
      ensures selected == ItemsAt(Displayed(), rows)
    {
      selectedRows := rows;
      selected := [];
      var items := Displayed();
      var k := 0;
      while k < |rows|
        invariant 0 <= k <= |rows|
        invariant selected == ItemsAt(items, rows[..k])
        invariant selectedRows == rows && items == Displayed()
      {
        assert rows[..k + 1][..k] == rows[..k];
        selected := selected + [items[rows[k]]];
        k := k + 1;
      }
      assert rows[..k] == rows;
    }
  }
}
