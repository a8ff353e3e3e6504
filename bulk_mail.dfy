/**
 * The bulk sender's send action (frontend/components/pages/mail/bulk-mail/bulk-mail.tsx):
 * the validation chain that refuses a send, and the per-recipient
 * personalisation of the body (placeholders, then newlines to `<br>`).
 */
module BulkMail {
  import opened Wrappers
  import opened Strings

  /** `MailData`: one spreadsheet row as the table holds it. */
  datatype MailRow = MailRow(id: string, email: string, companyname: string, name: string, subject: string, platform: string, selected: bool)

  /** One element of the `emails` JSON the request carries. */
  datatype EmailObject = EmailObject(name: string, companyname: string, email: string, subject: string, platform: string, body: string)

  const NoRecipientsMessage: string := "No recipients selected"
  const EmptyBodyMessage: string := "Email body is empty"
  const UsernameRequiredMessage: string := "App Username is required"
  const PasswordRequiredMessage: string := "App Password is required"

  const NamePlaceholder: string := "{{name}}"
  const CompanyPlaceholder: string := "{{companyname}}"
  const PlatformPlaceholder: string := "{{platform}}"

  /** `emailData.filter(row => row.selected)`. */
  function Selected(rows: seq<MailRow>): (r: seq<MailRow>)
    ensures |r| <= |rows|
    ensures forall i :: 0 <= i < |r| ==> r[i].selected
    decreases |rows|
  {
    if rows == [] then []
    else (if rows[0].selected then [rows[0]] else []) + Selected(rows[1..])
  }

  /** Selection keeps exactly the selected rows. */
  lemma {:induction false} SelectedMembers(rows: seq<MailRow>, x: MailRow)
    ensures x in Selected(rows) <==> x in rows && x.selected
    decreases |rows|
  {
    if rows != [] {
      SelectedMembers(rows[1..], x);
      assert rows == [rows[0]] + rows[1..];
    }
  }

  /** Selection keeps row order: it distributes over concatenation. */
  lemma {:induction false} SelectedAppend(xs: seq<MailRow>, ys: seq<MailRow>)
    ensures Selected(xs + ys) == Selected(xs) + Selected(ys)
    decreases |xs|
  {
    if xs == [] {
      assert xs + ys == ys;
    } else {
      assert (xs + ys)[0] == xs[0];
      assert (xs + ys)[1..] == xs[1..] + ys;
      SelectedAppend(xs[1..], ys);
    }
  }

  /** The three placeholder passes, in the order the send applies them. */
  function Personalize(body: string, row: MailRow): string {
    ReplaceAll(ReplaceAll(ReplaceAll(body, NamePlaceholder, row.name), CompanyPlaceholder, row.companyname), PlatformPlaceholder, row.platform)
  }

  /** `replace(/\n/g, '<br>')`. */
  function FormatBody(s: string): (r: string)
    ensures '\n' !in r
  {
    ReplaceNewlines(s, "<br>")
  }

  /** Formatting works piece by piece: it distributes over concatenation. */
  lemma FormatBodyAppend(a: string, b: string)
    ensures FormatBody(a + b) == FormatBody(a) + FormatBody(b)
  {
    ReplaceNewlinesAppend(a, b, "<br>");
  }

  /** A newline becomes `<br>` and every other character is kept. */
  lemma FormatBodyChar(c: char)
    ensures FormatBody([c]) == if c == '\n' then "<br>" else [c]
  {
    ReplaceNewlinesChar(c, "<br>");
  }

  /** The object sent for one selected row: its fields copied, its body personalised and formatted. */
  function EmailFor(body: string, row: MailRow): (e: EmailObject)
    ensures e.name == row.name && e.companyname == row.companyname && e.email == row.email
    ensures e.subject == row.subject && e.platform == row.platform
    ensures e.body == FormatBody(Personalize(body, row)) && '\n' !in e.body
  {
    EmailObject(row.name, row.companyname, row.email, row.subject, row.platform, FormatBody(Personalize(body, row)))
  }

  /**
   * `mutationFn` up to the request: the first failing check, in the order
   * recipients, body, username, password, refuses the send with its message;
   * otherwise one email object per selected row, in row order.
   */
  function PrepareBulkSend(rows: seq<MailRow>, body: string, appUsername: string, appPassword: string): (r: Result<seq<EmailObject>, string>)
    ensures Selected(rows) == [] ==> r == Err(NoRecipientsMessage)
    ensures Selected(rows) != [] && IsBlank(body) ==> r == Err(EmptyBodyMessage)
    ensures Selected(rows) != [] && !IsBlank(body) && IsBlank(appUsername) ==> r == Err(UsernameRequiredMessage)
    ensures Selected(rows) != [] && !IsBlank(body) && !IsBlank(appUsername) && IsBlank(appPassword) ==> r == Err(PasswordRequiredMessage)
    ensures r.Ok? <==> Selected(rows) != [] && !IsBlank(body) && !IsBlank(appUsername) && !IsBlank(appPassword)
    ensures r.Ok? ==> |r.value| == |Selected(rows)|
    ensures r.Ok? ==> forall i :: 0 <= i < |r.value| ==> r.value[i] == EmailFor(body, Selected(rows)[i])
  {
    var selected := Selected(rows);
    if |selected| == 0 then Err(NoRecipientsMessage)
    else if IsBlank(body) then Err(EmptyBodyMessage)
    else if IsBlank(appUsername) then Err(UsernameRequiredMessage)
    else if IsBlank(appPassword) then Err(PasswordRequiredMessage)
    else Ok(seq(|selected|, i requires 0 <= i < |selected| => EmailFor(body, selected[i])))
  }

  /** A body of whitespace only is refused even when it holds newlines or tabs. */
  lemma WhitespaceBodyRefused(rows: seq<MailRow>, body: string, appUsername: string, appPassword: string)
    requires Selected(rows) != [] && AllWhitespace(body)
    ensures PrepareBulkSend(rows, body, appUsername, appPassword) == Err(EmptyBodyMessage)
  {
    BlankIffAllWhitespace(body);
  }

  lemma CharAbsentNotContained(s: string, c: char)
    requires c !in s
    ensures !Contains(s, [c])
  {
    forall j | 0 <= j <= |s| ensures !OccursAt(s, [c], j) {
      if j + 1 <= |s| {
        assert s[j..j + 1] == [s[j]];
        assert s[j] in s;
      }
    }
  }

  /** A body without placeholders and without newlines is sent exactly as typed. */
  lemma PlainBodyUnchanged(body: string, row: MailRow)
    requires !Contains(body, NamePlaceholder) && !Contains(body, CompanyPlaceholder) && !Contains(body, PlatformPlaceholder)
    requires '\n' !in body
    ensures EmailFor(body, row).body == body
  {
    ReplaceAllWithoutOccurrence(body, NamePlaceholder, row.name);
    ReplaceAllWithoutOccurrence(body, CompanyPlaceholder, row.companyname);
    ReplaceAllWithoutOccurrence(body, PlatformPlaceholder, row.platform);
    CharAbsentNotContained(body, '\n');
    ReplaceAllWithoutOccurrence(body, "\n", "<br>");
  }

  /**
   * The passes run in sequence, so text inserted by an earlier pass is
   * rewritten by a later one: a name that reads `{{platform}}` ends up as the
   * row's platform.
   */
  lemma LaterPassRewritesEarlier(row: MailRow)
    requires row.name == PlatformPlaceholder && row.platform == "X"
    ensures Personalize(NamePlaceholder, row) == "X"
  {
    var afterName := ReplaceAll(NamePlaceholder, NamePlaceholder, row.name);
    assert afterName == PlatformPlaceholder by {
      assert NamePlaceholder[|NamePlaceholder|..] == "";
    }
    assert ReplaceAll(afterName, CompanyPlaceholder, row.companyname) == PlatformPlaceholder;
    assert PlatformPlaceholder[|PlatformPlaceholder|..] == "";
  }

  /** Unselected rows contribute nothing: adding one changes no email object. */
  lemma UnselectedRowIgnored(xs: seq<MailRow>, row: MailRow, ys: seq<MailRow>, body: string, appUsername: string, appPassword: string)
    requires !row.selected
    ensures PrepareBulkSend(xs + [row] + ys, body, appUsername, appPassword) == PrepareBulkSend(xs + ys, body, appUsername, appPassword)
  {
    SelectedAppend(xs + [row], ys);
    SelectedAppend(xs, [row]);
    SelectedAppend(xs, ys);
    assert [row][1..] == [];
    assert Selected([row]) == [];
    assert Selected(xs + [row] + ys) == Selected(xs + ys);
  }

  /** What the request resolved to: a parsed response, or a thrown fetch error. */
  datatype SendResponse = Answered(success: bool, message: string) | Threw

  const SendFailedMessage: string := "An error occurred while sending emails. Please try again later."

  /** `mutationFn`'s own error toast after the request, if any: the server's message, or the generic one when the request threw. */
  function SendErrorToast(resp: SendResponse): (t: Option<string>)
    ensures resp.Answered? && resp.success ==> t == None
    ensures resp.Answered? && !resp.success ==> t == Some(resp.message)
    ensures resp.Threw? ==> t == Some(SendFailedMessage)
  {
    match resp
    case Answered(ok, msg) => if ok then None else Some(msg)
    case Threw => Some(SendFailedMessage)
  }

  /** A toast the page shows. */
  datatype Toast = SuccessToast(text: string) | ErrorToast(text: string)

  const OnErrorFallback: string := "Failed to send email"

  /** `onError`'s toast: the error's message, or the fallback when the message is empty. */
  function OnErrorToast(errorMessage: string): (t: Toast)
    ensures t.ErrorToast? && t.text != ""
    ensures errorMessage != "" ==> t.text == errorMessage
  {
    ErrorToast(if errorMessage == "" then OnErrorFallback else errorMessage)
  }

  /**
   * What `mutationFn` resolves to: the response (its message) when the server
   * reports success, otherwise `undefined`; every other path returns early or
   * is caught, so it never rejects.
   */
  function MutationData(prep: Result<seq<EmailObject>, string>, resp: SendResponse): (d: Option<string>)
    ensures d.Some? <==> prep.Ok? && resp.Answered? && resp.success
    ensures d.Some? ==> d.value == resp.message
  {
    if prep.Ok? && resp.Answered? && resp.success then Some(resp.message) else None
  }

  /** The toasts `mutationFn` shows itself: the refusal of a check, or the request's error toast. */
  function MutationFnToasts(prep: Result<seq<EmailObject>, string>, resp: SendResponse): (ts: seq<Toast>)
    ensures prep.Err? ==> ts == [ErrorToast(prep.error)]
    ensures prep.Ok? ==> ts == if SendErrorToast(resp).Some? then [ErrorToast(SendErrorToast(resp).value)] else []
  {
    if prep.Err? then [ErrorToast(prep.error)]
    else match SendErrorToast(resp)
      case Some(t) => [ErrorToast(t)]
      case None => []
  }

  /**
   * One click of send as written, with `resp` the request's outcome (unused
   * when a check refuses): `mutationFn`'s toasts, then `onSuccess`, which
   * invalidates the history query and reads `data.message`. On `undefined`
   * that read throws a TypeError, whose engine-given message is
   * `typeErrorMessage`; the mutation hands it to `onError`. The result is the
   * toasts in order and whether the history query was invalidated.
   */
  function SendToasts(rows: seq<MailRow>, body: string, appUsername: string, appPassword: string,
                      resp: SendResponse, typeErrorMessage: string): (r: (seq<Toast>, bool))
    ensures r.1
    ensures var prep := PrepareBulkSend(rows, body, appUsername, appPassword);
      prep.Ok? && resp.Answered? && resp.success ==> r.0 == [SuccessToast(resp.message)]
    ensures var prep := PrepareBulkSend(rows, body, appUsername, appPassword);
      !(prep.Ok? && resp.Answered? && resp.success) ==>
        |r.0| == 2 && r.0[0].ErrorToast? && r.0[1] == OnErrorToast(typeErrorMessage)
  {
    var prep := PrepareBulkSend(rows, body, appUsername, appPassword);
    var own := MutationFnToasts(prep, resp);
    match MutationData(prep, resp)
    case Some(msg) => (own + [SuccessToast(msg)], true)
    case None => (own + [OnErrorToast(typeErrorMessage)], true)
  }

  /** As written, a send refused by a check shows two error toasts: the check's message, then the TypeError's. */
  lemma RefusedSendShowsTwoToasts(rows: seq<MailRow>, body: string, appUsername: string, appPassword: string,
                                  resp: SendResponse, typeErrorMessage: string)
    requires PrepareBulkSend(rows, body, appUsername, appPassword).Err?
    ensures SendToasts(rows, body, appUsername, appPassword, resp, typeErrorMessage).0
      == [ErrorToast(PrepareBulkSend(rows, body, appUsername, appPassword).error), OnErrorToast(typeErrorMessage)]
  {
  }

  /** The concrete case: with no row selected, "No recipients selected" is followed by a second error toast. */
  lemma NoRecipientsShowsTwoToasts(body: string, appUsername: string, appPassword: string, resp: SendResponse)
    ensures var ts := SendToasts([], body, appUsername, appPassword, resp, "").0;
      ts == [ErrorToast(NoRecipientsMessage), ErrorToast(OnErrorFallback)]
  {
    assert Selected([]) == [];
  }

  /**
   * Corrected: `onSuccess` shows the success toast only when `mutationFn`
   * returned a response, so nothing throws after a refusal or a failure.
   */
  function SendToastsCorrected(rows: seq<MailRow>, body: string, appUsername: string, appPassword: string,
                               resp: SendResponse): (r: (seq<Toast>, bool))
    ensures r.1
  {
    var prep := PrepareBulkSend(rows, body, appUsername, appPassword);
    var own := MutationFnToasts(prep, resp);
    match MutationData(prep, resp)
    case Some(msg) => (own + [SuccessToast(msg)], true)
    case None => (own, true)
  }

  /**
   * With the correction every click shows exactly one toast: the success
   * toast exactly when the server accepted, and otherwise the first toast of
   * the as-written send.
   */
  lemma CorrectedShowsOneToast(rows: seq<MailRow>, body: string, appUsername: string, appPassword: string,
                               resp: SendResponse, typeErrorMessage: string)
    ensures var ts := SendToastsCorrected(rows, body, appUsername, appPassword, resp).0;
      |ts| == 1
      && (ts[0].SuccessToast? <==> PrepareBulkSend(rows, body, appUsername, appPassword).Ok? && resp.Answered? && resp.success)
      && ts == SendToasts(rows, body, appUsername, appPassword, resp, typeErrorMessage).0[..1]
  {
  }
}

