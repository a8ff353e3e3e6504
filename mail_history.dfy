/**
 * The mail-history view (frontend/components/pages/mail/history/mail-sent-table.tsx):
 * one display row per contact, the search/status/platform filter, the sort
 * by the chosen key and direction, the distinct platforms, and the totals
 * and success rate on the stats cards.
 */
module MailHistory {
  import opened Wrappers
  import opened Strings
  import opened MailJob

  /** One sent e-mail of a contact, as the history endpoint returns it; `sentAt` as a time value. */
  datatype SentEmail = SentEmail(platform: string, sentAt: int, status: Status)

  datatype ContactHistory = ContactHistory(id: string, email: string, companyName: string, emailsSent: seq<SentEmail>)

  /** `EmailData`: one display row. */
  datatype HistoryRow = HistoryRow(
    id: string,
    contactEmail: string,
    companyName: string,
    platform: Option<string>,
    emailCount: nat,
    status: Status,
    lastSentAt: int)

  /** One display row per contact; the first sent e-mail supplies status, platform and time. */
  function TransformContact(c: ContactHistory, now: int): (r: HistoryRow)
    ensures r.id == c.id && r.contactEmail == c.email && r.companyName == c.companyName
    ensures r.emailCount == |c.emailsSent|
    ensures c.emailsSent == [] ==> r.status == PENDING && r.platform == None && r.lastSentAt == now
    ensures c.emailsSent != [] ==> r.status == c.emailsSent[0].status && r.lastSentAt == c.emailsSent[0].sentAt
    ensures c.emailsSent != [] && c.emailsSent[0].platform != "" ==> r.platform == Some(c.emailsSent[0].platform)
    ensures c.emailsSent != [] && c.emailsSent[0].platform == "" ==> r.platform == None
  {
    if c.emailsSent == [] then
      HistoryRow(c.id, c.email, c.companyName, None, 0, PENDING, now)
    else
      var latest := c.emailsSent[0];
      HistoryRow(c.id, c.email, c.companyName, if latest.platform == "" then None else Some(latest.platform),
        |c.emailsSent|, latest.status, latest.sentAt)
  }

  /** `transformedData`: no contacts in the response give no rows; `now` is the clock reading. */
  function Transform(contacts: Option<seq<ContactHistory>>, now: int): (r: seq<HistoryRow>)
    ensures contacts.None? ==> r == []
    ensures contacts.Some? ==> |r| == |contacts.value|
    ensures contacts.Some? ==> forall i :: 0 <= i < |r| ==> r[i] == TransformContact(contacts.value[i], now)
  {
    match contacts
    case None => []
    case Some(cs) => seq(|cs|, i requires 0 <= i < |cs| => TransformContact(cs[i], now))
  }

  /** A transformed row's platform, when present, is never empty. */
  predicate PlatformNonEmpty(row: HistoryRow) {
    row.platform.Some? ==> row.platform.value != ""
  }

  lemma TransformPlatformsNonEmpty(contacts: Option<seq<ContactHistory>>, now: int)
    ensures forall row :: row in Transform(contacts, now) ==> PlatformNonEmpty(row)
  {
  }

  /** The three filter controls. */
  datatype HistoryFilter = HistoryFilter(searchTerm: string, statusFilter: string, platformFilter: string)

  const All: string := "all"

  function StatusName(s: Status): string {
    match s
    case PENDING => "PENDING"
    case DONE => "DONE"
    case FAILED => "FAILED"
  }

  predicate MatchesSearch(row: HistoryRow, term: string) {
    Contains(ToLower(row.contactEmail), ToLower(term)) || Contains(ToLower(row.companyName), ToLower(term))
  }

  predicate MatchesStatus(row: HistoryRow, statusFilter: string) {
    statusFilter == All || StatusName(row.status) == statusFilter
  }

  /** A missing or empty platform matches only the `all` filter. */
  predicate MatchesPlatform(row: HistoryRow, platformFilter: string) {
    platformFilter == All
    || (row.platform.Some? && row.platform.value != "" && ToLower(row.platform.value) == ToLower(platformFilter))
  }

  predicate Matches(row: HistoryRow, f: HistoryFilter) {
    MatchesSearch(row, f.searchTerm) && MatchesStatus(row, f.statusFilter) && MatchesPlatform(row, f.platformFilter)
  }

  /** `transformedData.filter(...)`: the matching rows, in order. */
  function FilterRows(rows: seq<HistoryRow>, f: HistoryFilter): (r: seq<HistoryRow>)
    ensures |r| <= |rows|
    ensures forall x :: x in r <==> x in rows && Matches(x, f)
    decreases |rows|
  {
    if rows == [] then []
    else
      assert rows == [rows[0]] + rows[1..];
      (if Matches(rows[0], f) then [rows[0]] else []) + FilterRows(rows[1..], f)
  }

  /** Filtering works piece by piece: it distributes over concatenation, so kept rows keep their order. */
  lemma {:induction false} FilterRowsAppend(a: seq<HistoryRow>, b: seq<HistoryRow>, f: HistoryFilter)
    ensures FilterRows(a + b, f) == FilterRows(a, f) + FilterRows(b, f)
    decreases |a|
  {
    if a == [] {
      assert a + b == b;
    } else {
      assert (a + b)[1..] == a[1..] + b;
      FilterRowsAppend(a[1..], b, f);
    }
  }

  /** One row is kept exactly when it matches the three controls. */
  lemma FilterRowsSingle(x: HistoryRow, f: HistoryFilter)
    ensures FilterRows([x], f) == if Matches(x, f) then [x] else []
  {
    assert [x][1..] == [];
  }

  /** With every control at its initial value, nothing is filtered out. */
  lemma {:induction false} DefaultFilterKeepsAll(rows: seq<HistoryRow>)
    ensures FilterRows(rows, HistoryFilter("", All, All)) == rows
    decreases |rows|
  {
    if rows != [] {
      assert OccursAt(ToLower(rows[0].contactEmail), ToLower(""), 0);
      DefaultFilterKeepsAll(rows[1..]);
      assert rows == [rows[0]] + rows[1..];
    }
  }

  datatype SortField = LastSent | EmailCount | Company
  datatype SortOrder = Asc | Desc

  /** `localeCompare`, taken as the order of character codes: negative, zero or positive. */
  function LexCompare(s: string, t: string): (c: int)
    ensures -1 <= c <= 1
    ensures c == 0 <==> s == t
    decreases |s|
  {
    if s == [] && t == [] then 0
    else if s == [] then -1
    else if t == [] then 1
    else if s[0] < t[0] then -1
    else if s[0] > t[0] then 1
    else
      var c := LexCompare(s[1..], t[1..]);
      assert c == 0 ==> s == [s[0]] + s[1..] && t == [t[0]] + t[1..];
      c
  }

  lemma {:induction false} LexAntisymmetric(s: string, t: string)
    ensures LexCompare(s, t) == -LexCompare(t, s)
    decreases |s|
  {
    if s != [] && t != [] && s[0] == t[0] {
      LexAntisymmetric(s[1..], t[1..]);
    }
  }

  lemma {:induction false} LexTransitive(s: string, t: string, u: string)
    requires LexCompare(s, t) <= 0 && LexCompare(t, u) <= 0
    ensures LexCompare(s, u) <= 0
    decreases |s|
  {
    if s != [] && t != [] && u != [] && s[0] == t[0] && t[0] == u[0] {
      LexTransitive(s[1..], t[1..], u[1..]);
    }
  }

  /** The comparator before the direction is applied. */
  function Compare(a: HistoryRow, b: HistoryRow, field: SortField): int {
    match field
    case LastSent => a.lastSentAt - b.lastSentAt
    case EmailCount => a.emailCount - b.emailCount
    case Company => LexCompare(a.companyName, b.companyName)
  }

  /** The comparator passed to `sort`: `desc` negates the comparison. */
  function Comparison(a: HistoryRow, b: HistoryRow, field: SortField, order: SortOrder): int {
    if order == Desc then -Compare(a, b, field) else Compare(a, b, field)
  }

  /** `a` may stand before `b`. */
  predicate InOrder(a: HistoryRow, b: HistoryRow, field: SortField, order: SortOrder) {
    Comparison(a, b, field, order) <= 0
  }

  /** The comparator is a total preorder, for every key and direction. */
  lemma InOrderTotal(a: HistoryRow, b: HistoryRow, field: SortField, order: SortOrder)
    ensures InOrder(a, b, field, order) || InOrder(b, a, field, order)
  {
    LexAntisymmetric(a.companyName, b.companyName);
  }

  lemma InOrderTransitive(a: HistoryRow, b: HistoryRow, c: HistoryRow, field: SortField, order: SortOrder)
    requires InOrder(a, b, field, order) && InOrder(b, c, field, order)
    ensures InOrder(a, c, field, order)
  {
    if field == Company {
      if order == Asc {
        LexTransitive(a.companyName, b.companyName, c.companyName);
      } else {
        LexAntisymmetric(a.companyName, b.companyName);
        LexAntisymmetric(b.companyName, c.companyName);
        LexAntisymmetric(a.companyName, c.companyName);
        LexTransitive(c.companyName, b.companyName, a.companyName);
      }
    }
  }

  predicate Sorted(s: seq<HistoryRow>, field: SortField, order: SortOrder) {
    forall i, j :: 0 <= i < j < |s| ==> InOrder(s[i], s[j], field, order)
  }

  /** `x` placed before the first element it may precede, so earlier equal rows stay first. */
  function Insert(x: HistoryRow, s: seq<HistoryRow>, field: SortField, order: SortOrder): (r: seq<HistoryRow>)
    ensures multiset(r) == multiset(s) + multiset{x}
    ensures |r| == |s| + 1
    decreases |s|
  {
    if s == [] then [x]
    else if InOrder(x, s[0], field, order) then [x] + s
    else
      assert s == [s[0]] + s[1..];
      [s[0]] + Insert(x, s[1..], field, order)
  }

  /** A row that may precede every row of a sorted list can head it. */
  lemma SortedCons(h: HistoryRow, s: seq<HistoryRow>, field: SortField, order: SortOrder)
    requires Sorted(s, field, order)
    requires forall j :: 0 <= j < |s| ==> InOrder(h, s[j], field, order)
    ensures Sorted([h] + s, field, order)
  {
    var r := [h] + s;
    forall i, j | 0 <= i < j < |r| ensures InOrder(r[i], r[j], field, order) {
      assert r[j] == s[j - 1];
      if i > 0 { assert r[i] == s[i - 1]; }
    }
  }

  /** Every row of an insertion is the inserted row or a row of the list. */
  lemma InsertFrom(x: HistoryRow, s: seq<HistoryRow>, field: SortField, order: SortOrder, j: nat)
    requires j < |Insert(x, s, field, order)|
    ensures Insert(x, s, field, order)[j] == x || Insert(x, s, field, order)[j] in s
  {
    var r := Insert(x, s, field, order);
    assert r[j] in multiset(r);
  }

  lemma {:induction false} InsertSorted(x: HistoryRow, s: seq<HistoryRow>, field: SortField, order: SortOrder)
    requires Sorted(s, field, order)
    ensures Sorted(Insert(x, s, field, order), field, order)
    decreases |s|
  {
    if s == [] {
    } else if InOrder(x, s[0], field, order) {
      forall j | 0 <= j < |s| ensures InOrder(x, s[j], field, order) {
        if j > 0 { InOrderTransitive(x, s[0], s[j], field, order); }
      }
      SortedCons(x, s, field, order);
    } else {
      var tail := Insert(x, s[1..], field, order);
      assert Insert(x, s, field, order) == [s[0]] + tail;
      InOrderTotal(x, s[0], field, order);
      assert Sorted(s[1..], field, order) by {
        forall i, j | 0 <= i < j < |s[1..]| ensures InOrder(s[1..][i], s[1..][j], field, order) {
          assert s[1..][i] == s[i + 1] && s[1..][j] == s[j + 1];
        }
      }
      InsertSorted(x, s[1..], field, order);
      forall j | 0 <= j < |tail| ensures InOrder(s[0], tail[j], field, order) {
        InsertFrom(x, s[1..], field, order, j);
        if tail[j] != x {
          var k :| 0 <= k < |s[1..]| && s[1..][k] == tail[j];
          assert s[k + 1] == tail[j];
        }
      }
      SortedCons(s[0], tail, field, order);
    }
  }

  /** The rows after `filtered.sort(...)`: a stable insertion sort stands in for the library's. */
  function SortRows(s: seq<HistoryRow>, field: SortField, order: SortOrder): (r: seq<HistoryRow>)
    ensures multiset(r) == multiset(s)
    ensures |r| == |s|
    decreases |s|
  {
    if s == [] then []
    else
      assert s == [s[0]] + s[1..];
      Insert(s[0], SortRows(s[1..], field, order), field, order)
  }

  lemma {:induction false} SortRowsSorted(s: seq<HistoryRow>, field: SortField, order: SortOrder)
    ensures Sorted(SortRows(s, field, order), field, order)
    decreases |s|
  {
    if s != [] {
      SortRowsSorted(s[1..], field, order);
      InsertSorted(s[0], SortRows(s[1..], field, order), field, order);
    }
  }

  /** `filteredAndSortedData`. */
  function FilteredAndSorted(rows: seq<HistoryRow>, f: HistoryFilter, field: SortField, order: SortOrder): seq<HistoryRow> {
    SortRows(FilterRows(rows, f), field, order)
  }

  /** The view shows exactly the matching rows, each as often as it was filtered in, in the chosen order. */
  lemma FilteredAndSortedCorrect(rows: seq<HistoryRow>, f: HistoryFilter, field: SortField, order: SortOrder)
    ensures multiset(FilteredAndSorted(rows, f, field, order)) == multiset(FilterRows(rows, f))
    ensures Sorted(FilteredAndSorted(rows, f, field, order), field, order)
    ensures forall x :: x in FilteredAndSorted(rows, f, field, order) <==> x in rows && Matches(x, f)
  {
    SortRowsSorted(FilterRows(rows, f), field, order);
    var r := FilteredAndSorted(rows, f, field, order);
    forall x ensures x in r <==> x in FilterRows(rows, f) {
      assert x in r <==> x in multiset(r);
    }
  }

  /** Newest first by default: under `desc` on the send time, a later row stands first. */
  lemma DescendingPutsLaterFirst(a: HistoryRow, b: HistoryRow)
    requires a.lastSentAt > b.lastSentAt
    ensures InOrder(a, b, LastSent, Desc) && !InOrder(b, a, LastSent, Desc)
  {
  }

  /** The non-empty platform a row contributes, if any (`if (email.platform)`). */
  predicate HasPlatform(row: HistoryRow) {
    row.platform.Some? && row.platform.value != ""
  }

  /** `Array.from(platformSet)`: each platform once, in the order first seen. */
  function DistinctPlatforms(rows: seq<HistoryRow>): (ps: seq<string>)
    ensures forall i, j :: 0 <= i < j < |ps| ==> ps[i] != ps[j]
    ensures forall p :: p in ps <==> exists k :: 0 <= k < |rows| && HasPlatform(rows[k]) && rows[k].platform.value == p
    decreases |rows|
  {
    if rows == [] then []
    else
      var prev := DistinctPlatforms(rows[..|rows| - 1]);
      var last := rows[|rows| - 1];
      assert forall k :: 0 <= k < |rows| - 1 ==> rows[..|rows| - 1][k] == rows[k];
      if HasPlatform(last) && last.platform.value !in prev then prev + [last.platform.value] else prev
  }

  /** Platform `p` is carried by some row before index `n`. */
  predicate SeenBefore(rows: seq<HistoryRow>, p: string, n: int) {
    exists l :: 0 <= l < n && l < |rows| && HasPlatform(rows[l]) && rows[l].platform.value == p
  }

  /** One instance of first-seen order: where the j-th platform occurs at `k`, the i-th (i < j) has occurred before. */
  lemma {:induction false} FirstSeenAt(rows: seq<HistoryRow>, i: nat, j: nat, k: nat)
    requires i < j < |DistinctPlatforms(rows)| && k < |rows|
    requires HasPlatform(rows[k]) && rows[k].platform.value == DistinctPlatforms(rows)[j]
    ensures SeenBefore(rows, DistinctPlatforms(rows)[i], k)
    decreases |rows|
  {
    var n := |rows| - 1;
    var init := rows[..n];
    var prev := DistinctPlatforms(init);
    var ps := DistinctPlatforms(rows);
    assert forall m :: 0 <= m < n ==> init[m] == rows[m];
    assert ps[i] == prev[i] && ps[i] in prev;
    if j < |prev| {
      assert ps[j] == prev[j];
      var kj := k;
      if k == n {
        assert ps[j] in prev;
        kj :| 0 <= kj < |init| && HasPlatform(init[kj]) && init[kj].platform.value == ps[j];
      }
      FirstSeenAt(init, i, j, kj);
      var l :| 0 <= l < kj && l < |init| && HasPlatform(init[l]) && init[l].platform.value == prev[i];
      assert rows[l] == init[l];
    } else {
      var li :| 0 <= li < |init| && HasPlatform(init[li]) && init[li].platform.value == ps[i];
      assert ps[j] !in prev;
      assert k == n;
      assert rows[li] == init[li];
    }
  }

  /**
   * The platforms come in order of first appearance: wherever a later
   * platform occurs, each earlier one has already occurred.
   */
  lemma DistinctPlatformsFirstSeen(rows: seq<HistoryRow>)
    ensures var ps := DistinctPlatforms(rows);
      forall i, j, k :: 0 <= i < j < |ps| && 0 <= k < |rows| && HasPlatform(rows[k]) && rows[k].platform.value == ps[j]
        ==> SeenBefore(rows, ps[i], k)
  {
    var ps := DistinctPlatforms(rows);
    forall i, j, k | 0 <= i < j < |ps| && 0 <= k < |rows| && HasPlatform(rows[k]) && rows[k].platform.value == ps[j]
      ensures SeenBefore(rows, ps[i], k)
    {
      FirstSeenAt(rows, i, j, k);
    }
  }

  /** The `forEach` that fills the set. */
  method CollectPlatforms(rows: seq<HistoryRow>) returns (ps: seq<string>)
    ensures ps == DistinctPlatforms(rows)
  {
    ps := [];
    var seen: set<string> := {};
    var i := 0;
    while i < |rows|
      invariant 0 <= i <= |rows|
      invariant ps == DistinctPlatforms(rows[..i])
      invariant seen == set p | p in ps
    {
      assert rows[..i + 1][..i] == rows[..i];
      var row := rows[i];
      if row.platform.Some? && row.platform.value != "" && row.platform.value !in seen {
        seen := seen + {row.platform.value};
        ps := ps + [row.platform.value];
      }
      i := i + 1;
    }
    assert rows[..|rows|] == rows;
  }

  datatype SortState = SortState(sortBy: SortField, sortOrder: SortOrder)

  /** `handleSort`: the current key flips the direction; a new key starts descending. */
  function HandleSort(s: SortState, field: SortField): (r: SortState)
    ensures r.sortBy == field
    ensures s.sortBy == field ==> r.sortOrder != s.sortOrder
    ensures s.sortBy != field ==> r.sortOrder == Desc
  {
    if s.sortBy == field then SortState(field, if s.sortOrder == Asc then Desc else Asc)
    else SortState(field, Desc)
  }

  /** Clicking the same header twice restores the state. */
  lemma HandleSortTwice(s: SortState)
    ensures HandleSort(HandleSort(s, s.sortBy), s.sortBy) == s
  {
  }

  /** `totalEmailsSent`: the sum of the rows' e-mail counts. */
  function TotalEmailsSent(rows: seq<HistoryRow>): nat
    decreases |rows|
  {
    if rows == [] then 0 else rows[0].emailCount + TotalEmailsSent(rows[1..])
  }

  function SentCount(contacts: seq<ContactHistory>): nat
    decreases |contacts|
  {
    if contacts == [] then 0 else |contacts[0].emailsSent| + SentCount(contacts[1..])
  }

  /** The total counts every e-mail of every contact. */
  lemma {:induction false} TotalCountsEveryEmail(contacts: seq<ContactHistory>, now: int)
    ensures TotalEmailsSent(Transform(Some(contacts), now)) == SentCount(contacts)
    decreases |contacts|
  {
    if contacts != [] {
      TotalCountsEveryEmail(contacts[1..], now);
      assert Transform(Some(contacts), now)[1..] == Transform(Some(contacts[1..]), now);
    }
  }

  /** A positive total needs at least one row, so the rate's division is defined. */
  lemma {:induction false} PositiveTotalHasRows(rows: seq<HistoryRow>)
    ensures TotalEmailsSent(rows) > 0 ==> |rows| > 0
    ensures TotalEmailsSent(rows) == 0 <==> forall i :: 0 <= i < |rows| ==> rows[i].emailCount == 0
    decreases |rows|
  {
    if rows != [] {
      PositiveTotalHasRows(rows[1..]);
      assert forall i :: 1 <= i < |rows| ==> rows[1..][i - 1] == rows[i];
    }
  }

  /** The rows with status `DONE`. */
  function DoneCount(rows: seq<HistoryRow>): (n: nat)
    ensures n <= |rows|
    decreases |rows|
  {
    if rows == [] then 0 else (if rows[0].status == DONE then 1 else 0) + DoneCount(rows[1..])
  }

  /** `a <= b` survives multiplying both sides by the same count. */
  lemma {:induction false} MulMonotone(a: nat, b: nat, c: nat)
    requires a <= b
    ensures a * c <= b * c
    decreases c
  {
    if c > 0 {
      MulMonotone(a, b, c - 1);
      assert a * c == a * (c - 1) + a;
      assert b * c == b * (c - 1) + b;
    }
  }

  /** `Math.round(done / n * 100)` on exact values: the percentage rounded half up. */
  function RoundedPercent(done: nat, n: nat): (q: nat)
    requires 0 < n && done <= n
    ensures q <= 100
    ensures q * (2 * n) <= 200 * done + n < (q + 1) * (2 * n)
  {
    var q := (200 * done + n) / (2 * n);
    assert q * (2 * n) <= 200 * done + n < (q + 1) * (2 * n);
    assert q <= 100 by {
      if q > 100 {
        MulMonotone(101, q, 2 * n);
      }
    }
    q
  }

  /**
   * `successRate`: 0 without any sent e-mail, otherwise the share of `DONE`
   * rows in percent, rounded half up.
   */
  function SuccessRate(rows: seq<HistoryRow>): (r: nat)
    ensures TotalEmailsSent(rows) == 0 ==> r == 0
    ensures r <= 100
    ensures TotalEmailsSent(rows) > 0 ==> |rows| > 0 && r * (2 * |rows|) <= 200 * DoneCount(rows) + |rows| < (r + 1) * (2 * |rows|)
  {
    PositiveTotalHasRows(rows);
    if TotalEmailsSent(rows) == 0 then 0 else RoundedPercent(DoneCount(rows), |rows|)
  }

  /** Every row `DONE` gives 100; none gives 0. */
  lemma SuccessRateExtremes(rows: seq<HistoryRow>)
    requires TotalEmailsSent(rows) > 0
    ensures DoneCount(rows) == |rows| ==> SuccessRate(rows) == 100
    ensures DoneCount(rows) == 0 ==> SuccessRate(rows) == 0
  {
    var n := |rows|;
    var r := SuccessRate(rows);
    if DoneCount(rows) == n && r < 100 {
      MulMonotone(r + 1, 100, 2 * n);
      assert false;
    }
    if DoneCount(rows) == 0 && r > 0 {
      MulMonotone(1, r, 2 * n);
      assert false;
    }
  }

  /** The view's controls, as the component keeps them in state. */
  class HistoryView {
    var filter: HistoryFilter
    var sort: SortState

    constructor ()
      ensures filter == HistoryFilter("", All, All) && sort == SortState(LastSent, Desc)
    {
      filter := HistoryFilter("", All, All);
      sort := SortState(LastSent, Desc);
    }

    method ClickSort(field: SortField)
      modifies this`sort
      ensures sort == HandleSort(old(sort), field)
    {
      if sort.sortBy == field {
        sort := sort.(sortOrder := if sort.sortOrder == Asc then Desc else Asc);
      } else {
        sort := SortState(field, Desc);
      }
    }

    function Shown(rows: seq<HistoryRow>): seq<HistoryRow>
      reads this
    {
      FilteredAndSorted(rows, filter, sort.sortBy, sort.sortOrder)
    }
  }
}
