/**
 * The send-mail form's schema (frontend/schema/mail.ts): at least one
 * recipient, each with a valid address, and six required text fields. The
 * e-mail pattern zod applies is an input (`isEmail`). Issues are listed in
 * the order zod reports them: the recipient list's length, each recipient,
 * then the text fields in declaration order.
 */
module MailSchema {
  import opened Wrappers

  datatype SendMailForm = SendMailForm(
    recipients: seq<string>,
    subject: string,
    platform: string,
    companyName: string,
    body: string,
    appusername: string,
    apppassword: string)

  /** Where an issue was found: a named field, or the address of one recipient. */
  datatype IssuePath = FieldPath(name: string) | RecipientEmail(index: nat)

  datatype Issue = Issue(path: IssuePath, message: string)

  const InvalidEmailMessage: string := "Invalid email address"
  const NoRecipientMessage: string := "At least one recipient is required"

  const SubjectMessage: string := "Subject is required"
  const CompanyNameMessage: string := "Company name is required"
  const BodyMessage: string := "Email content is required"
  const AppUsernameMessage: string := "App username is required"
  const AppPasswordMessage: string := "App password is required"

  /** The platform's `min(1)` message as written: the subject's text. */
  const PlatformMessageAsWritten: string := "Subject is required"

  /** The platform's message as the field evidently intends. */
  const PlatformMessageCorrected: string := "Platform is required"

  /** One issue per recipient whose address the pattern refuses, in list order. */
  function RecipientIssues(recipients: seq<string>, isEmail: string -> bool, from: nat): (r: seq<Issue>)
    ensures |r| <= |recipients|
    ensures forall j :: 0 <= j < |r| ==> r[j].message == InvalidEmailMessage && r[j].path.RecipientEmail?
    ensures r == [] <==> forall i :: 0 <= i < |recipients| ==> isEmail(recipients[i])
    decreases |recipients|
  {
    if recipients == [] then []
    else
      var rest := RecipientIssues(recipients[1..], isEmail, from + 1);
      assert forall i :: 1 <= i < |recipients| ==> recipients[1..][i - 1] == recipients[i];
      (if isEmail(recipients[0]) then [] else [Issue(RecipientEmail(from), InvalidEmailMessage)]) + rest
  }

  /** `z.string().min(1, message)`: an empty value gives one issue at the field. */
  function Required(value: string, name: string, message: string): (r: seq<Issue>)
    ensures r == [] <==> value != ""
    ensures r != [] ==> r == [Issue(FieldPath(name), message)]
  {
    if value == "" then [Issue(FieldPath(name), message)] else []
  }

  /** The six text fields in declaration order, with the platform's message given. */
  function TextIssues(form: SendMailForm, platformMessage: string): seq<Issue> {
    Required(form.subject, "subject", SubjectMessage)
    + Required(form.platform, "platform", platformMessage)
    + Required(form.companyName, "companyName", CompanyNameMessage)
    + Required(form.body, "body", BodyMessage)
    + Required(form.appusername, "appusername", AppUsernameMessage)
    + Required(form.apppassword, "apppassword", AppPasswordMessage)
  }

  /** The schema's `safeParse`, with the platform's message given. */
  function ParseWith(form: SendMailForm, isEmail: string -> bool, platformMessage: string): (r: Result<SendMailForm, seq<Issue>>)
    ensures r.Ok? <==>
      |form.recipients| >= 1 && (forall i :: 0 <= i < |form.recipients| ==> isEmail(form.recipients[i]))
      && form.subject != "" && form.platform != "" && form.companyName != ""
      && form.body != "" && form.appusername != "" && form.apppassword != ""
    ensures r.Ok? ==> r.value == form
    ensures r.Err? ==> |r.error| > 0
  {
    var lengthIssues := if |form.recipients| < 1 then [Issue(FieldPath("recipients"), NoRecipientMessage)] else [];
    var issues := lengthIssues + RecipientIssues(form.recipients, isEmail, 0) + TextIssues(form, platformMessage);
    if issues == [] then Ok(form) else Err(issues)
  }

  /** An empty platform is refused with an issue at `platform` carrying the message given. */
  lemma PlatformIssueListed(form: SendMailForm, isEmail: string -> bool, platformMessage: string)
    ensures form.platform == "" ==>
      ParseWith(form, isEmail, platformMessage).Err?
      && Issue(FieldPath("platform"), platformMessage) in ParseWith(form, isEmail, platformMessage).error
  {
    if form.platform == "" {
      var lengthIssues := if |form.recipients| < 1 then [Issue(FieldPath("recipients"), NoRecipientMessage)] else [];
      var text := TextIssues(form, platformMessage);
      var issue := Issue(FieldPath("platform"), platformMessage);
      var subject := Required(form.subject, "subject", SubjectMessage);
      assert text[|subject|] == issue;
      assert (lengthIssues + RecipientIssues(form.recipients, isEmail, 0) + text)[|lengthIssues + RecipientIssues(form.recipients, isEmail, 0)| + |subject|] == issue;
    }
  }

  /** `sendEmailSchema.safeParse`, as written: an empty platform is reported with the subject's message. */
  function Parse(form: SendMailForm, isEmail: string -> bool): (r: Result<SendMailForm, seq<Issue>>)
    ensures form.platform == "" ==> r.Err? && Issue(FieldPath("platform"), SubjectMessage) in r.error
  {
    PlatformIssueListed(form, isEmail, PlatformMessageAsWritten);
    ParseWith(form, isEmail, PlatformMessageAsWritten)
  }

  /** The schema with the platform's message corrected: an empty platform is reported as such. */
  function ParseCorrected(form: SendMailForm, isEmail: string -> bool): (r: Result<SendMailForm, seq<Issue>>)
    ensures form.platform == "" ==> r.Err? && Issue(FieldPath("platform"), PlatformMessageCorrected) in r.error
  {
    PlatformIssueListed(form, isEmail, PlatformMessageCorrected);
    ParseWith(form, isEmail, PlatformMessageCorrected)
  }

  /** A form whose only fault is an empty platform gets exactly one issue, at `platform`, with the message given. */
  lemma PlatformOnlyIssue(form: SendMailForm, isEmail: string -> bool, platformMessage: string)
    requires |form.recipients| >= 1 && (forall i :: 0 <= i < |form.recipients| ==> isEmail(form.recipients[i]))
    requires form.subject != "" && form.platform == ""
    requires form.companyName != "" && form.body != "" && form.appusername != "" && form.apppassword != ""
    ensures ParseWith(form, isEmail, platformMessage) == Err([Issue(FieldPath("platform"), platformMessage)])
  {
    var issue := Issue(FieldPath("platform"), platformMessage);
    assert RecipientIssues(form.recipients, isEmail, 0) == [];
    assert Required(form.subject, "subject", SubjectMessage) == [];
    assert Required(form.platform, "platform", platformMessage) == [issue];
    assert TextIssues(form, platformMessage) == [issue];
    assert [] + [] + [issue] == [issue];
  }

  /** An empty list is refused with its own message, whatever the other fields hold. */
  lemma NoRecipientsRefused(form: SendMailForm, isEmail: string -> bool)
    requires form.recipients == []
    ensures Parse(form, isEmail).Err?
    ensures Parse(form, isEmail).error[0] == Issue(FieldPath("recipients"), NoRecipientMessage)
  {
  }

  /** As written, an empty platform is reported with the subject's message. */
  lemma PlatformReportsSubjectMessage(form: SendMailForm, isEmail: string -> bool)
    requires |form.recipients| >= 1 && (forall i :: 0 <= i < |form.recipients| ==> isEmail(form.recipients[i]))
    requires form.subject != "" && form.platform == ""
    requires form.companyName != "" && form.body != "" && form.appusername != "" && form.apppassword != ""
    ensures Parse(form, isEmail) == Err([Issue(FieldPath("platform"), SubjectMessage)])
  {
    PlatformOnlyIssue(form, isEmail, PlatformMessageAsWritten);
  }

  /** Corrected, the same form is reported with "Platform is required", which names the field at fault. */
  lemma PlatformReportsPlatformMessage(form: SendMailForm, isEmail: string -> bool)
    requires |form.recipients| >= 1 && (forall i :: 0 <= i < |form.recipients| ==> isEmail(form.recipients[i]))
    requires form.subject != "" && form.platform == ""
    requires form.companyName != "" && form.body != "" && form.appusername != "" && form.apppassword != ""
    ensures ParseCorrected(form, isEmail) == Err([Issue(FieldPath("platform"), PlatformMessageCorrected)])
    ensures ParseCorrected(form, isEmail) != Parse(form, isEmail)
  {
    PlatformOnlyIssue(form, isEmail, PlatformMessageCorrected);
    PlatformOnlyIssue(form, isEmail, PlatformMessageAsWritten);
    assert PlatformMessageCorrected[0] != PlatformMessageAsWritten[0];
  }

  /** An example about the message constants: with the correction the six text fields have six different messages. */
  lemma CorrectedMessagesDistinct()
    ensures PlatformMessageCorrected != SubjectMessage
    ensures var m := [SubjectMessage, PlatformMessageCorrected, CompanyNameMessage, BodyMessage, AppUsernameMessage, AppPasswordMessage];
      forall i, j :: 0 <= i < j < |m| ==> m[i] != m[j]
    ensures PlatformMessageAsWritten == SubjectMessage
  {
    var m := [SubjectMessage, PlatformMessageCorrected, CompanyNameMessage, BodyMessage, AppUsernameMessage, AppPasswordMessage];
    assert m[0][0] == 'S' && m[1][0] == 'P' && m[2][0] == 'C' && m[3][0] == 'E';
    assert m[4][0] == 'A' && m[5][0] == 'A';
    assert m[4][4] == 'u' && m[5][4] == 'p';
  }

  /** Correcting the message changes no verdict, only the text of the platform's issue. */
  lemma CorrectionKeepsVerdict(form: SendMailForm, isEmail: string -> bool)
    ensures Parse(form, isEmail).Ok? <==> ParseCorrected(form, isEmail).Ok?
  {
  }
}
