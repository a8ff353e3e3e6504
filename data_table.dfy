/**
 * The recipient table of the bulk sender
 * (frontend/components/pages/mail/bulk-mail/data-table.tsx): the e-mail
 * search, pagination and its page-button window, row, page and global
 * selection, and the header checkbox state.
 */
module DataTable {
  import opened Strings
  import opened BulkMail

  /** `data.filter(item => item.email.toLowerCase().includes(searchTerm.toLowerCase()))`. */
  function FilterByEmail(rows: seq<MailRow>, term: string): (r: seq<MailRow>)
    ensures |r| <= |rows|
    ensures forall x :: x in r <==> x in rows && Contains(ToLower(x.email), ToLower(term))
    decreases |rows|
  {
    if rows == [] then []
    else
      assert rows == [rows[0]] + rows[1..];
      (if Contains(ToLower(rows[0].email), ToLower(term)) then [rows[0]] else []) + FilterByEmail(rows[1..], term)
  }

  /** The search works piece by piece: it distributes over concatenation, so kept rows keep their order and multiplicity. */
  lemma {:induction false} FilterByEmailAppend(a: seq<MailRow>, b: seq<MailRow>, term: string)
    ensures FilterByEmail(a + b, term) == FilterByEmail(a, term) + FilterByEmail(b, term)
    decreases |a|
  {
    if a == [] {
      assert a + b == b;
    } else {
      assert (a + b)[1..] == a[1..] + b;
      FilterByEmailAppend(a[1..], b, term);
    }
  }

  /** One row is kept exactly when its lower-cased e-mail contains the lower-cased term. */
  lemma FilterByEmailSingle(x: MailRow, term: string)
    ensures FilterByEmail([x], term) == if Contains(ToLower(x.email), ToLower(term)) then [x] else []
  {
    assert [x][1..] == [];
  }

  /** An empty search keeps every row, in order. */
  lemma {:induction false} EmptySearchKeepsAll(rows: seq<MailRow>)
    ensures FilterByEmail(rows, "") == rows
    decreases |rows|
  {
    if rows != [] {
      assert OccursAt(ToLower(rows[0].email), ToLower(""), 0);
      EmptySearchKeepsAll(rows[1..]);
      assert rows == [rows[0]] + rows[1..];
    }
  }

  /** `Math.ceil(n / pageSize)`. */
  function TotalPages(n: nat, pageSize: nat): (t: nat)
    requires pageSize > 0
    ensures t == 0 <==> n == 0
    ensures n > 0 ==> (t - 1) * pageSize < n <= t * pageSize
  {
    (n + pageSize - 1) / pageSize
  }

  function Min(a: int, b: int): int {
    if a < b then a else b
  }

  /** `filteredData.slice(page * size, page * size + size)`; `slice` clamps both ends to the length. */
  function PageSlice(rows: seq<MailRow>, page: nat, pageSize: nat): (r: seq<MailRow>)
    ensures |r| <= pageSize
    ensures page * pageSize <= |rows| ==> r == rows[page * pageSize..Min(page * pageSize + pageSize, |rows|)]
    ensures page * pageSize >= |rows| ==> r == []
  {
    var start := Min(page * pageSize, |rows|);
    var end := Min(page * pageSize + pageSize, |rows|);
    rows[start..end]
  }

  /** Every page before the last is full, and the pages together cover all rows. */
  lemma PagesFull(rows: seq<MailRow>, page: nat, pageSize: nat)
    requires pageSize > 0 && page + 1 < TotalPages(|rows|, pageSize)
    ensures |PageSlice(rows, page, pageSize)| == pageSize
  {
    assert (page + 1) * pageSize <= (TotalPages(|rows|, pageSize) - 1) * pageSize;
  }

  /** The page numbers shown as buttons, for `Math.min(5, totalPages)` buttons. */
  function PageWindow(current: int, total: nat): (w: seq<int>)
    ensures |w| == Min(5, total)
  {
    seq(Min(5, total), i requires 0 <= i < Min(5, total) =>
      if total <= 5 then i
      else if current < 3 then i
      else if current > total - 4 then total - 5 + i
      else current - 2 + i)
  }

  /** On a valid page the window holds consecutive valid page numbers, including the current one. */
  lemma PageWindowValid(current: int, total: nat)
    requires 0 <= current < total
    ensures forall i :: 0 < i < |PageWindow(current, total)| ==> PageWindow(current, total)[i] == PageWindow(current, total)[i - 1] + 1
    ensures forall i :: 0 <= i < |PageWindow(current, total)| ==> 0 <= PageWindow(current, total)[i] < total
    ensures current in PageWindow(current, total)
  {
    var w := PageWindow(current, total);
    if total <= 5 || current < 3 {
      assert w[current] == current;
    } else if current > total - 4 {
      assert w[current - (total - 5)] == current;
    } else {
      assert w[2] == current;
    }
  }

  predicate PrevDisabled(current: int) {
    current == 0
  }

  predicate NextDisabled(current: int, total: nat) {
    current >= total - 1
  }

  /** The enabled navigation buttons lead to valid pages only, and both are disabled when there is a single page. */
  lemma NavigationStaysInRange(current: int, total: nat)
    requires 0 <= current < total
    ensures !PrevDisabled(current) ==> 0 <= current - 1 < total
    ensures !NextDisabled(current, total) ==> 0 <= current + 1 < total
    ensures total == 1 ==> PrevDisabled(current) && NextDisabled(current, total)
  {
  }

  /** `toggleRowSelection`: the row with the id gets the new flag; every other row is unchanged. */
  function ToggleRow(rows: seq<MailRow>, id: string, checked: bool): (r: seq<MailRow>)
    ensures |r| == |rows|
    ensures forall i :: 0 <= i < |rows| ==> r[i] == if rows[i].id == id then rows[i].(selected := checked) else rows[i]
  {
    seq(|rows|, i requires 0 <= i < |rows| => if rows[i].id == id then rows[i].(selected := checked) else rows[i])
  }

  /** `handleSelectAll`: every row gets the flag and nothing else changes. */
  function SelectAll(rows: seq<MailRow>, checked: bool): (r: seq<MailRow>)
    ensures |r| == |rows|
    ensures forall i :: 0 <= i < |rows| ==> r[i] == rows[i].(selected := checked)
  {
    seq(|rows|, i requires 0 <= i < |rows| => rows[i].(selected := checked))
  }

  /** Selecting all makes every row count for the send. */
  lemma SelectAllSelectsEveryRow(rows: seq<MailRow>)
    ensures Selected(SelectAll(rows, true)) == SelectAll(rows, true)
    ensures Selected(SelectAll(rows, false)) == []
  {
    AllSelectedKept(SelectAll(rows, true));
    NoneSelectedDropped(SelectAll(rows, false));
  }

  lemma {:induction false} AllSelectedKept(rows: seq<MailRow>)
    requires forall i :: 0 <= i < |rows| ==> rows[i].selected
    ensures Selected(rows) == rows
    decreases |rows|
  {
    if rows != [] {
      AllSelectedKept(rows[1..]);
      assert rows == [rows[0]] + rows[1..];
    }
  }

  lemma {:induction false} NoneSelectedDropped(rows: seq<MailRow>)
    requires forall i :: 0 <= i < |rows| ==> !rows[i].selected
    ensures Selected(rows) == []
    decreases |rows|
  {
    if rows != [] {
      NoneSelectedDropped(rows[1..]);
    }
  }

  /** `updatedData.find(row => row.id === id)`: the index of the first row with the id, or -1. */
  function FirstWithId(rows: seq<MailRow>, id: string): (k: int)
    ensures -1 <= k < |rows|
    ensures k >= 0 ==> rows[k].id == id && forall j :: 0 <= j < k ==> rows[j].id != id
    ensures k == -1 ==> forall j :: 0 <= j < |rows| ==> rows[j].id != id
    decreases |rows|
  {
    if rows == [] then -1
    else if rows[0].id == id then 0
    else
      var k := FirstWithId(rows[1..], id);
      if k == -1 then -1 else k + 1
  }

  /** Row `i` is the one `find` returns for some row of the page. */
  predicate FoundForPage(rows: seq<MailRow>, page: seq<MailRow>, i: int) {
    exists p | 0 <= p < |page| :: FirstWithId(rows, page[p].id) == i
  }

  /** The data after `toggleAllCurrentPage`: every row found for a page row gets the flag. */
  function ToggledPage(rows: seq<MailRow>, page: seq<MailRow>, checked: bool): (r: seq<MailRow>)
    ensures |r| == |rows|
  {
    seq(|rows|, i requires 0 <= i < |rows| => if FoundForPage(rows, page, i) then rows[i].(selected := checked) else rows[i])
  }

  /** With unique ids, toggling the page sets exactly the rows whose id is on the page and leaves the others. */
  lemma ToggledPageExact(rows: seq<MailRow>, page: seq<MailRow>, checked: bool)
    requires forall i, j :: 0 <= i < j < |rows| ==> rows[i].id != rows[j].id
    ensures forall i :: 0 <= i < |rows| ==>
      ToggledPage(rows, page, checked)[i] ==
        if exists p :: 0 <= p < |page| && page[p].id == rows[i].id then rows[i].(selected := checked) else rows[i]
  {
    forall i | 0 <= i < |rows|
      ensures FoundForPage(rows, page, i) <==> exists p :: 0 <= p < |page| && page[p].id == rows[i].id
    {
      if exists p :: 0 <= p < |page| && page[p].id == rows[i].id {
        var p :| 0 <= p < |page| && page[p].id == rows[i].id;
        assert FirstWithId(rows, page[p].id) == i;
      }
    }
  }

  /** Rows with the same ids in the same places are found at the same index. */
  lemma {:induction false} FirstWithIdSameIds(a: seq<MailRow>, b: seq<MailRow>, id: string)
    requires |a| == |b| && forall i :: 0 <= i < |a| ==> a[i].id == b[i].id
    ensures FirstWithId(a, id) == FirstWithId(b, id)
    decreases |a|
  {
    if a != [] {
      FirstWithIdSameIds(a[1..], b[1..], id);
    }
  }

  /** The `find` over the working copy. */
  method FindById(a: array<MailRow>, id: string) returns (k: int)
    ensures k == FirstWithId(a[..], id)
  {
    k := 0;
    while k < a.Length && a[k].id != id
      invariant 0 <= k <= a.Length
      invariant forall j :: 0 <= j < k ==> a[j].id != id
    {
      k := k + 1;
    }
    if k == a.Length {
      k := -1;
    }
    FirstWithIdExact(a[..], id, k);
  }

  lemma FirstWithIdExact(rows: seq<MailRow>, id: string, k: int)
    requires -1 <= k < |rows|
    requires k >= 0 ==> rows[k].id == id && forall j :: 0 <= j < k ==> rows[j].id != id
    requires k == -1 ==> forall j :: 0 <= j < |rows| ==> rows[j].id != id
    ensures FirstWithId(rows, id) == k
  {
    var f := FirstWithId(rows, id);
    if f >= 0 && k >= 0 {
      assert !(f < k) && !(k < f);
    }
  }

  /** One more page row: its found row, if any, gets the flag on top of the earlier ones. */
  lemma ToggledPageStep(rows: seq<MailRow>, page: seq<MailRow>, k: nat, checked: bool)
    requires k < |page|
    ensures var idx := FirstWithId(rows, page[k].id);
      var prev := ToggledPage(rows, page[..k], checked);
      ToggledPage(rows, page[..k + 1], checked) == if idx >= 0 then prev[idx := prev[idx].(selected := checked)] else prev
  {
    var idx := FirstWithId(rows, page[k].id);
    forall i | 0 <= i < |rows|
      ensures FoundForPage(rows, page[..k + 1], i) <==> FoundForPage(rows, page[..k], i) || i == idx
    {
      if FoundForPage(rows, page[..k + 1], i) {
        var p :| 0 <= p < k + 1 && FirstWithId(rows, page[..k + 1][p].id) == i;
        if p < k { assert page[..k + 1][p] == page[..k][p]; }
      }
      if FoundForPage(rows, page[..k], i) {
        var p :| 0 <= p < k && FirstWithId(rows, page[..k][p].id) == i;
        assert page[..k + 1][p] == page[..k][p];
      }
      if i == idx {
        assert page[..k + 1][k] == page[k];
      }
    }
  }

  /** The copy after the first `k` page rows are handled, one `find` and one flag at a time. */
  function ToggledSteps(rows: seq<MailRow>, page: seq<MailRow>, checked: bool, k: nat): (r: seq<MailRow>)
    requires k <= |page|
    ensures |r| == |rows|
  {
    if k == 0 then rows
    else
      var prev := ToggledSteps(rows, page, checked, k - 1);
      var idx := FirstWithId(rows, page[k - 1].id);
      if idx >= 0 then prev[idx := prev[idx].(selected := checked)] else prev
  }

  /** The steps keep every id in place. */
  lemma {:induction false} ToggledStepsIds(rows: seq<MailRow>, page: seq<MailRow>, checked: bool, k: nat)
    requires k <= |page|
    ensures forall i :: 0 <= i < |rows| ==> ToggledSteps(rows, page, checked, k)[i].id == rows[i].id
    decreases k
  {
    if k > 0 {
      ToggledStepsIds(rows, page, checked, k - 1);
    }
  }

  /** One more page row: `find` in the copy lands where it lands in the data, and that row gets the flag. */
  lemma ToggledStepsNext(rows: seq<MailRow>, page: seq<MailRow>, checked: bool, k: nat, cur: seq<MailRow>, idx: int)
    requires k < |page| && cur == ToggledSteps(rows, page, checked, k) && idx == FirstWithId(cur, page[k].id)
    ensures ToggledSteps(rows, page, checked, k + 1) == if idx >= 0 then cur[idx := cur[idx].(selected := checked)] else cur
  {
    ToggledStepsIds(rows, page, checked, k);
    FirstWithIdSameIds(cur, rows, page[k].id);
  }

  /** Handling the page rows one at a time gives the toggled data of those rows. */
  lemma {:induction false} ToggledStepsAgree(rows: seq<MailRow>, page: seq<MailRow>, checked: bool, k: nat)
    requires k <= |page|
    ensures ToggledSteps(rows, page, checked, k) == ToggledPage(rows, page[..k], checked)
    decreases k
  {
    if k == 0 {
      assert forall i :: 0 <= i < |rows| ==> !FoundForPage(rows, page[..0], i);
    } else {
      ToggledStepsAgree(rows, page, checked, k - 1);
      ToggledPageStep(rows, page, k - 1, checked);
    }
  }

  /**
   * `toggleAllCurrentPage`: a copy of the data, then for every page row the
   * first row with its id is found and its flag set in place.
   */
  method ToggleAllCurrentPage(rows: seq<MailRow>, page: seq<MailRow>, checked: bool) returns (r: seq<MailRow>)
    ensures r == ToggledPage(rows, page, checked)
  {
    var a := new MailRow[|rows|](i requires 0 <= i < |rows| => rows[i]);
    assert a[..] == rows;
    var k := 0;
    while k < |page|
      invariant 0 <= k <= |page|
      invariant a[..] == ToggledSteps(rows, page, checked, k)
    {
      var idx := FindById(a, page[k].id);
      ToggledStepsNext(rows, page, checked, k, a[..], idx);
      if idx >= 0 {
        a[idx] := a[idx].(selected := checked);
      }
      k := k + 1;
    }
    ToggledStepsAgree(rows, page, checked, |page|);
    assert page[..|page|] == page;
    r := a[..];
  }

  /** `(allSelected, indeterminate)` as the header effect derives it from the page. */
  datatype HeaderState = HeaderState(allSelected: bool, indeterminate: bool)

  /** The header effect. */
  function Header(page: seq<MailRow>): (h: HeaderState)
    ensures !(h.allSelected && h.indeterminate)
    ensures page == [] || |Selected(page)| == 0 ==> h == HeaderState(false, false)
    ensures page != [] && |Selected(page)| == |page| ==> h == HeaderState(true, false)
    ensures 0 < |Selected(page)| < |page| ==> h == HeaderState(false, true)
  {
    if |page| == 0 then HeaderState(false, false)
    else
      var count := |Selected(page)|;
      if count == 0 then HeaderState(false, false)
      else if count == |page| then HeaderState(true, false)
      else HeaderState(false, true)
  }

  /** After the page is toggled on, every data row that is on the page is selected (unique ids). */
  lemma ToggleOnSelectsPage(rows: seq<MailRow>, page: seq<MailRow>, i: nat, p: nat)
    requires forall i, j :: 0 <= i < j < |rows| ==> rows[i].id != rows[j].id
    requires i < |rows| && p < |page| && rows[i].id == page[p].id
    ensures ToggledPage(rows, page, true)[i].selected
  {
    ToggledPageExact(rows, page, true);
  }

  /**
   * The table's own state: the data it edits, the page, the page size, the
   * search term and the header flags.
   */
  class TableView {
    var data: seq<MailRow>
    var currentPage: nat
    var pageSize: nat
    var searchTerm: string
    var allSelected: bool
    var indeterminate: bool

    predicate Valid()
      reads this
    {
      pageSize > 0
    }

    /** `filteredData`. */
    function Filtered(): seq<MailRow>
      reads this
    {
      FilterByEmail(data, searchTerm)
    }

    /** `currentPageData`. */
    function CurrentPage(): (r: seq<MailRow>)
      reads this
      ensures |r| <= pageSize
    {
      PageSlice(Filtered(), currentPage, pageSize)
    }

    constructor (rows: seq<MailRow>)
      ensures Valid() && data == rows && currentPage == 0 && pageSize == 10 && searchTerm == ""
      ensures !allSelected && !indeterminate
    {
      data, currentPage, pageSize, searchTerm := rows, 0, 10, "";
      allSelected, indeterminate := false, false;
    }

    /** Typing in the search box resets to the first page. */
    method SetSearchTerm(term: string)
      modifies this`searchTerm, this`currentPage
      ensures searchTerm == term && currentPage == 0
    {
      searchTerm := term;
      currentPage := 0;
    }

    /** `handlePageSizeChange`: the new size, and back to the first page. */
    method ChangePageSize(size: nat)
      requires size > 0
      modifies this`pageSize, this`currentPage
      ensures Valid() && pageSize == size && currentPage == 0
    {
      pageSize := size;
      currentPage := 0;
    }

    /** The Previous and Next buttons, which act only when enabled. */
    method Previous()
      modifies this`currentPage
      ensures currentPage == if old(currentPage) == 0 then 0 else old(currentPage) - 1
    {
      if !PrevDisabled(currentPage) {
        currentPage := currentPage - 1;
      }
    }

    method Next()
      requires Valid()
      modifies this`currentPage
      ensures var total := TotalPages(|Filtered()|, pageSize);
        currentPage == if NextDisabled(old(currentPage), total) then old(currentPage) else old(currentPage) + 1
    {
      if !NextDisabled(currentPage, TotalPages(|Filtered()|, pageSize)) {
        currentPage := currentPage + 1;
      }
    }

    method ToggleRowSelection(id: string, checked: bool)
      modifies this`data
      ensures data == ToggleRow(old(data), id, checked)
    {
      data := ToggleRow(data, id, checked);
    }

    method HandleSelectAll(checked: bool)
      modifies this`data
      ensures data == SelectAll(old(data), checked)
    {
      data := SelectAll(data, checked);
    }

    method ToggleAllOnPage(checked: bool)
      modifies this`data
      ensures data == ToggledPage(old(data), old(CurrentPage()), checked)
    {
      data := ToggleAllCurrentPage(data, CurrentPage(), checked);
    }

    /** The effect that refreshes the header checkbox from the current page. */
    method RefreshHeader()
      modifies this`allSelected, this`indeterminate
      ensures HeaderState(allSelected, indeterminate) == Header(CurrentPage())
    {
      var page := CurrentPage();
      if |page| == 0 {
        allSelected, indeterminate := false, false;
        return;
      }
      var count := |Selected(page)|;
      if count == 0 {
        allSelected, indeterminate := false, false;
      } else if count == |page| {
        allSelected, indeterminate := true, false;
      } else {
        allSelected, indeterminate := false, true;
      }
    }
  }
}
