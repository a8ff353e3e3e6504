/**
 * Turning an uploaded spreadsheet into table rows
 * (frontend/components/pages/mail/bulk-mail/excel-extract.tsx): the
 * required-column check on the first row's keys and the row transform.
 * Parsing the workbook is outside the model: the parsed rows (or the parse
 * error) and the random row ids are inputs.
 */
module ExcelExtract {
  import opened Wrappers
  import opened Strings
  import BulkMail

  /** One parsed sheet row: column name to cell text. */
  type SheetRow = map<string, string>

  const RequiredHeaders: seq<string> := ["email", "companyname", "name", "subject", "platform"]

  const MissingColumnsPrefix: string := "The uploaded file is missing required columns: "
  const ProcessFailedMessage: string := "Failed to process the uploaded file. Please ensure it is a valid Excel or CSV file."

  /** `Object.keys(data[0] || {}).map(h => h.toLowerCase())`, as a set. */
  function Headers(rows: seq<SheetRow>): (hs: set<string>)
    ensures rows == [] ==> hs == {}
    ensures rows != [] ==> forall k :: k in rows[0] ==> ToLower(k) in hs
    ensures forall h :: h in hs ==> rows != [] && exists k :: k in rows[0] && ToLower(k) == h
  {
    if rows == [] then {} else set k | k in rows[0] :: ToLower(k)
  }

  /** `requiredHeaders.filter(h => !headers.includes(h.toLowerCase()))`. */
  function Missing(required: seq<string>, headers: set<string>): (r: seq<string>)
    ensures |r| <= |required|
    ensures forall h :: h in r <==> h in required && ToLower(h) !in headers
    decreases |required|
  {
    if required == [] then []
    else
      assert required == [required[0]] + required[1..];
      (if ToLower(required[0]) !in headers then [required[0]] else []) + Missing(required[1..], headers)
  }

  /** The check works piece by piece: it distributes over concatenation, so missing names are listed in the required order. */
  lemma {:induction false} MissingAppend(a: seq<string>, b: seq<string>, headers: set<string>)
    ensures Missing(a + b, headers) == Missing(a, headers) + Missing(b, headers)
    decreases |a|
  {
    if a == [] {
      assert a + b == b;
    } else {
      assert (a + b)[1..] == a[1..] + b;
      MissingAppend(a[1..], b, headers);
    }
  }

  /** One required name is listed exactly when its lower-case form is not a header. */
  lemma MissingSingle(h: string, headers: set<string>)
    ensures Missing([h], headers) == if ToLower(h) !in headers then [h] else []
  {
    assert [h][1..] == [];
  }

  /** A missing or empty cell reads as `''` (`row.key || ''`). */
  function Cell(row: SheetRow, key: string): string {
    if key in row then row[key] else ""
  }

  /** One table row from one sheet row: fields read by their exact lower-case names, selected. */
  function ToMailRow(row: SheetRow, id: string): (m: BulkMail.MailRow)
    ensures m.selected && m.id == id
    ensures m.email == Cell(row, "email") && m.companyname == Cell(row, "companyname") && m.name == Cell(row, "name")
    ensures m.subject == Cell(row, "subject") && m.platform == Cell(row, "platform")
  {
    BulkMail.MailRow(id, Cell(row, "email"), Cell(row, "companyname"), Cell(row, "name"), Cell(row, "subject"), Cell(row, "platform"), true)
  }

  /**
   * `processFile` on a sheet that was read, for the given required columns:
   * a missing column ends the upload with the list of missing names;
   * otherwise one selected row per sheet row.
   */
  function ProcessRows(required: seq<string>, rows: seq<SheetRow>, ids: seq<string>): (r: Result<seq<BulkMail.MailRow>, string>)
    requires |ids| == |rows|
    ensures var missing := Missing(required, Headers(rows));
      (missing != [] ==> r == Err(MissingColumnsPrefix + Join(missing, ", ")))
      && (r.Ok? <==> missing == [])
    ensures r.Ok? ==> |r.value| == |rows| && forall i :: 0 <= i < |rows| ==> r.value[i] == ToMailRow(rows[i], ids[i])
  {
    var missing := Missing(required, Headers(rows));
    if |missing| > 0 then Err(MissingColumnsPrefix + Join(missing, ", "))
    else Ok(seq(|rows|, i requires 0 <= i < |rows| => ToMailRow(rows[i], ids[i])))
  }

  /** `processFile`: a read failure ends the upload with the generic message; a read sheet is checked against the five required columns. */
  function ProcessFile(read: Result<seq<SheetRow>, string>, ids: seq<string>): (r: Result<seq<BulkMail.MailRow>, string>)
    requires read.Ok? ==> |ids| == |read.value|
    ensures read.Err? ==> r == Err(ProcessFailedMessage)
    ensures read.Ok? ==> r == ProcessRows(RequiredHeaders, read.value, ids)
  {
    match read
    case Err(_) => Err(ProcessFailedMessage)
    case Ok(rows) => ProcessRows(RequiredHeaders, rows, ids)
  }

  lemma RequiredAreLowerCase()
    ensures forall h :: h in RequiredHeaders ==> ToLower(h) == h
  {
    forall h | h in RequiredHeaders ensures ToLower(h) == h {
      assert forall i :: 0 <= i < |h| ==> !('A' <= h[i] <= 'Z');
    }
  }

  /** An empty sheet has no header row, so every required column is reported missing and the file is refused. */
  lemma EmptySheetRejected()
    ensures Missing(RequiredHeaders, Headers([])) == RequiredHeaders
    ensures ProcessFile(Ok([]), []) == Err(MissingColumnsPrefix + Join(RequiredHeaders, ", "))
  {
    MissingNone(RequiredHeaders);
  }

  lemma {:induction false} MissingNone(required: seq<string>)
    ensures Missing(required, {}) == required
    decreases |required|
  {
    if required != [] {
      MissingNone(required[1..]);
    }
  }

  lemma {:induction false} MissingAllPresent(required: seq<string>, headers: set<string>)
    requires forall h :: h in required ==> ToLower(h) in headers
    ensures Missing(required, headers) == []
    decreases |required|
  {
    if required != [] {
      MissingAllPresent(required[1..], headers);
    }
  }

  /**
   * The check is case-insensitive but the transform reads exact lower-case
   * names: when the first row has every column, one of them under a
   * capitalised name such as `Email`, the file passes and every row's email
   * is empty.
   */
  lemma CapitalisedColumnReadsEmpty(rows: seq<SheetRow>, ids: seq<string>, k: string)
    requires |ids| == |rows| && rows != []
    requires k in rows[0] && ToLower(k) == "email"
    requires forall h :: h in RequiredHeaders && h != "email" ==> h in rows[0]
    requires forall i :: 0 <= i < |rows| ==> "email" !in rows[i]
    ensures ProcessFile(Ok(rows), ids).Ok?
    ensures forall i :: 0 <= i < |rows| ==> ProcessFile(Ok(rows), ids).value[i].email == ""
  {
    RequiredAreLowerCase();
    MissingAllPresent(RequiredHeaders, Headers(rows));
  }

  /** An example for `CapitalisedColumnReadsEmpty`: `Email` lower-cases to `email` but is a different key. */
  lemma EmailTitleCase()
    ensures ToLower("Email") == "email" && "Email" != "email"
  {
    assert LowerChar('E') == 'e';
    assert ToLower("Email")[0] == 'e';
    assert "Email"[0] != "email"[0];
  }
}
