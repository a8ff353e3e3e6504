/**
 * The producer side of the mail pipeline (backend/src/controllers/mail.controller.ts):
 * `sendMail` and `bulkMailSender` upload the attachments, then for every
 * recipient find or create the contact, create one PENDING EmailSent record,
 * one Attachment row per uploaded file and one queued job.
 *
 * The database is a `MailStore` object whose tables are sequences and whose
 * ids come from one counter. The concurrent `Promise.all` fan-out is run as
 * an ordered loop. Upload outcomes, the parsed JSON and the caller's user id
 * are inputs.
 */
module MailController {
  import opened Wrappers
  import opened MailJob
  import MailQueue
  import S3

  datatype Contact = Contact(id: nat, email: string, companyName: string, userId: string)

  datatype EmailSentRecord = EmailSentRecord(id: nat, subject: string, body: string, status: Status, contactId: nat, platform: string, userId: string)

  datatype AttachmentRecord = AttachmentRecord(id: nat, fileKey: string, fileName: string, fileUrl: string, emailSentId: nat)

  /** One `emailQueue.add(name, data)`. */
  datatype QueuedJob = QueuedJob(name: string, data: JobData)

  /** A snapshot of the tables the controller writes and of the id counter. */
  datatype Db = Db(contacts: seq<Contact>, emails: seq<EmailSentRecord>, attachments: seq<AttachmentRecord>, jobs: seq<QueuedJob>, nextId: nat)

  /** Every stored id was handed out by the counter. */
  predicate IdsBelow(db: Db) {
    (forall i :: 0 <= i < |db.contacts| ==> db.contacts[i].id < db.nextId)
    && (forall i :: 0 <= i < |db.emails| ==> db.emails[i].id < db.nextId)
    && (forall i :: 0 <= i < |db.attachments| ==> db.attachments[i].id < db.nextId)
  }

  /** A request field that may hold one value or an array of them. */
  datatype OneOrMany<T> = One(item: T) | Many(items: seq<T>)

  /** `Array.isArray(v) ? v : [v]`. */
  function AsList<T>(v: OneOrMany<T>): (r: seq<T>)
    ensures v.One? ==> r == [v.item]
    ensures v.Many? ==> r == v.items
  {
    match v
    case One(x) => [x]
    case Many(xs) => xs
  }

  /** What the controller needs to know about one recipient. */
  datatype Mail = Mail(recipient: string, companyName: string, subject: string, body: string, platform: Option<string>, jobBody: string)

  /** The request's caller and SMTP credentials, shared by every recipient. */
  datatype Sender = Sender(userId: string, appUsername: string, appPassword: string)

  /** `prisma.contact.findFirst({ where: { email } })`: the first contact with that email, whoever owns it. */
  function FindContact(contacts: seq<Contact>, email: string): (r: Option<Contact>)
    ensures r.Some? ==> r.value in contacts && r.value.email == email
    ensures r.None? <==> forall i :: 0 <= i < |contacts| ==> contacts[i].email != email
    decreases |contacts|
  {
    if contacts == [] then None
    else if contacts[0].email == email then Some(contacts[0])
    else FindContact(contacts[1..], email)
  }

  /** The attachment rows created for one record; ids are handed out from `firstId` in upload order. */
  function AttachmentRows(uploaded: seq<S3.Uploaded>, firstId: nat, emailSentId: nat): (r: seq<AttachmentRecord>)
    ensures |r| == |uploaded|
    ensures forall i :: 0 <= i < |r| ==>
      r[i] == AttachmentRecord(firstId + i, uploaded[i].fileKey, uploaded[i].fileName, uploaded[i].url, emailSentId)
    decreases |uploaded|
  {
    if uploaded == [] then []
    else
      var last := |uploaded| - 1;
      AttachmentRows(uploaded[..last], firstId, emailSentId)
        + [AttachmentRecord(firstId + last, uploaded[last].fileKey, uploaded[last].fileName, uploaded[last].url, emailSentId)]
  }

  /** `attachments.map(a => a.fileUrl)`. */
  function FileUrls(rows: seq<AttachmentRecord>): (r: seq<string>)
    ensures |r| == |rows| && forall i :: 0 <= i < |rows| ==> r[i] == rows[i].fileUrl
  {
    seq(|rows|, i requires 0 <= i < |rows| => rows[i].fileUrl)
  }

  /** The public URLs of the uploads. */
  function UploadUrls(uploaded: seq<S3.Uploaded>): (r: seq<string>)
    ensures |r| == |uploaded| && forall i :: 0 <= i < |uploaded| ==> r[i] == uploaded[i].url
  {
    seq(|uploaded|, i requires 0 <= i < |uploaded| => uploaded[i].url)
  }

  /** The job's `attachmentIds` are the URLs of the rows just created, which are the upload URLs. */
  lemma AttachmentIdsAreUploadUrls(uploaded: seq<S3.Uploaded>, firstId: nat, emailSentId: nat)
    ensures FileUrls(AttachmentRows(uploaded, firstId, emailSentId)) == UploadUrls(uploaded)
  {
  }

  /** The contact used for a recipient, and the store after the lookup. */
  function ContactFor(db: Db, m: Mail, userId: string): (Db, nat) {
    match FindContact(db.contacts, m.recipient)
    case Some(c) => (db, c.id)
    case None => (db.(contacts := db.contacts + [Contact(db.nextId, m.recipient, m.companyName, userId)], nextId := db.nextId + 1), db.nextId)
  }

  /** The EmailSent record a mail yields: PENDING, the mail's subject, body and platform (default ""). */
  predicate RecordOf(rec: EmailSentRecord, m: Mail, sender: Sender) {
    rec.status == PENDING && rec.subject == m.subject && rec.body == m.body
    && rec.platform == (if m.platform.Some? then m.platform.value else "") && rec.userId == sender.userId
  }

  /** The job a mail yields once its record exists. */
  function JobOf(m: Mail, emailId: nat, uploaded: seq<S3.Uploaded>, sender: Sender): QueuedJob {
    QueuedJob(MailQueue.ProducerQueueName,
      JobData(sender.userId, emailId, m.recipient, m.subject, m.jobBody, UploadUrls(uploaded), sender.appUsername, sender.appPassword))
  }

  /** The state after the writes made for one recipient, and the EmailSent record created. */
  function Produce(db: Db, m: Mail, uploaded: seq<S3.Uploaded>, sender: Sender): (r: (Db, EmailSentRecord))
    ensures RecordOf(r.1, m, sender)
    ensures r.0.emails == db.emails + [r.1]
    ensures r.0.jobs == db.jobs + [JobOf(m, r.1.id, uploaded, sender)]
    ensures db.nextId <= r.1.id < r.0.nextId
    ensures IdsBelow(db) ==> IdsBelow(r.0)
  {
    var (db1, contactId) := ContactFor(db, m, sender.userId);
    var rec := EmailSentRecord(db1.nextId, m.subject, m.body, PENDING, contactId, m.platform.GetOr(""), sender.userId);
    var rows := AttachmentRows(uploaded, db1.nextId + 1, rec.id);
    AttachmentIdsAreUploadUrls(uploaded, db1.nextId + 1, rec.id);
    var job := QueuedJob(MailQueue.ProducerQueueName,
      JobData(sender.userId, rec.id, m.recipient, m.subject, m.jobBody, FileUrls(rows), sender.appUsername, sender.appPassword));
    (Db(db1.contacts, db1.emails + [rec], db1.attachments + rows, db1.jobs + [job], db1.nextId + 1 + |uploaded|), rec)
  }

  /** The whole fan-out, recipient after recipient: the final state and the records in recipient order. */
  function FanOut(db: Db, mails: seq<Mail>, uploaded: seq<S3.Uploaded>, sender: Sender): (r: (Db, seq<EmailSentRecord>))
    ensures |r.1| == |mails|
    ensures r.0.emails == db.emails + r.1
    ensures |r.0.jobs| == |db.jobs| + |mails| && r.0.jobs[..|db.jobs|] == db.jobs
    ensures db.nextId <= r.0.nextId
    decreases |mails|
  {
    if mails == [] then (db, [])
    else
      var (db1, recs) := FanOut(db, mails[..|mails| - 1], uploaded, sender);
      var (db2, rec) := Produce(db1, mails[|mails| - 1], uploaded, sender);
      assert db2.jobs[..|db.jobs|] == db1.jobs[..|db.jobs|];
      (db2, recs + [rec])
  }

  /**
   * An existing contact with the recipient's email is reused and no contact is
   * added; otherwise exactly one contact is created for the recipient.
   */
  lemma ProduceFindsOrCreatesContact(db: Db, m: Mail, uploaded: seq<S3.Uploaded>, sender: Sender)
    ensures var (db', rec) := Produce(db, m, uploaded, sender);
      match FindContact(db.contacts, m.recipient)
      case Some(c) => db'.contacts == db.contacts && rec.contactId == c.id
      case None => db'.contacts == db.contacts + [Contact(db.nextId, m.recipient, m.companyName, sender.userId)] && rec.contactId == db.nextId
  {
  }

  /** The record's contact carries the recipient's email. */
  lemma ProduceContactMatchesRecipient(db: Db, m: Mail, uploaded: seq<S3.Uploaded>, sender: Sender)
    ensures var (db', rec) := Produce(db, m, uploaded, sender);
      exists i :: 0 <= i < |db'.contacts| && db'.contacts[i].id == rec.contactId && db'.contacts[i].email == m.recipient
  {
    var (db', rec) := Produce(db, m, uploaded, sender);
    match FindContact(db.contacts, m.recipient)
    case Some(c) =>
      var i :| 0 <= i < |db.contacts| && db.contacts[i] == c;
      assert db'.contacts[i].id == rec.contactId;
    case None =>
      assert db'.contacts[|db.contacts|].email == m.recipient;
  }

  /** No upload means no attachment rows and an empty `attachmentIds`. */
  lemma ProduceWithoutUploads(db: Db, m: Mail, sender: Sender)
    ensures Produce(db, m, [], sender).0.attachments == db.attachments
    ensures Produce(db, m, [], sender).0.jobs[|db.jobs|].data.attachmentIds == []
  {
  }

  /** Each upload adds one attachment row pointing at the new record, with the upload's key, name and URL. */
  lemma ProduceAttachmentRows(db: Db, m: Mail, uploaded: seq<S3.Uploaded>, sender: Sender)
    ensures var (db', rec) := Produce(db, m, uploaded, sender);
      |db'.attachments| == |db.attachments| + |uploaded| && db'.attachments[..|db.attachments|] == db.attachments
      && forall i :: 0 <= i < |uploaded| ==>
        var row := db'.attachments[|db.attachments| + i];
        row.emailSentId == rec.id && row.fileKey == uploaded[i].fileKey
        && row.fileName == uploaded[i].fileName && row.fileUrl == uploaded[i].url
  {
    var (db1, contactId) := ContactFor(db, m, sender.userId);
    var rows := AttachmentRows(uploaded, db1.nextId + 1, db1.nextId);
    assert Produce(db, m, uploaded, sender).0.attachments == db.attachments + rows;
  }

  /** Record `i` is mail `i`'s record and job `jobs0 + i` names it, for every mail. */
  predicate OnePerMail(jobs0: nat, mails: seq<Mail>, uploaded: seq<S3.Uploaded>, sender: Sender,
                       jobs: seq<QueuedJob>, recs: seq<EmailSentRecord>) {
    |recs| == |mails| && |jobs| == jobs0 + |mails|
    && forall i :: 0 <= i < |mails| ==>
      RecordOf(recs[i], mails[i], sender) && jobs[jobs0 + i] == JobOf(mails[i], recs[i].id, uploaded, sender)
  }

  /** One more mail, with its record and job appended, keeps the correspondence. */
  lemma OnePerMailSnoc(jobs0: nat, mails: seq<Mail>, m: Mail, uploaded: seq<S3.Uploaded>, sender: Sender,
                       jobs: seq<QueuedJob>, recs: seq<EmailSentRecord>, rec: EmailSentRecord)
    requires OnePerMail(jobs0, mails, uploaded, sender, jobs, recs)
    requires RecordOf(rec, m, sender)
    ensures OnePerMail(jobs0, mails + [m], uploaded, sender, jobs + [JobOf(m, rec.id, uploaded, sender)], recs + [rec])
  {
    var mails', jobs', recs' := mails + [m], jobs + [JobOf(m, rec.id, uploaded, sender)], recs + [rec];
    forall i | 0 <= i < |mails'|
      ensures RecordOf(recs'[i], mails'[i], sender) && jobs'[jobs0 + i] == JobOf(mails'[i], recs'[i].id, uploaded, sender)
    {
      if i < |mails| {
        assert mails'[i] == mails[i] && recs'[i] == recs[i] && jobs'[jobs0 + i] == jobs[jobs0 + i];
      }
    }
  }

  /** The fan-out's records and jobs correspond to the mails, one each, in order. */
  lemma {:induction false} FanOutCorrespondence(db: Db, mails: seq<Mail>, uploaded: seq<S3.Uploaded>, sender: Sender)
    ensures OnePerMail(|db.jobs|, mails, uploaded, sender, FanOut(db, mails, uploaded, sender).0.jobs, FanOut(db, mails, uploaded, sender).1)
    decreases |mails|
  {
    if mails != [] {
      var init, last := mails[..|mails| - 1], mails[|mails| - 1];
      FanOutCorrespondence(db, init, uploaded, sender);
      var (db1, recs) := FanOut(db, init, uploaded, sender);
      var (db2, rec) := Produce(db1, last, uploaded, sender);
      assert mails == init + [last];
      assert FanOut(db, mails, uploaded, sender) == (db2, recs + [rec]);
      OnePerMailSnoc(|db.jobs|, init, last, uploaded, sender, db1.jobs, recs, rec);
    }
  }

  /**
   * The fan-out creates one record per mail, in mail order, and appends one
   * job per mail naming that mail's record, recipient and the upload URLs, on
   * the queue the worker consumes.
   */
  lemma FanOutOnePerMail(db: Db, mails: seq<Mail>, uploaded: seq<S3.Uploaded>, sender: Sender)
    ensures var (db', recs) := FanOut(db, mails, uploaded, sender);
      forall i :: 0 <= i < |mails| ==>
        RecordOf(recs[i], mails[i], sender) && db'.jobs[|db.jobs| + i] == JobOf(mails[i], recs[i].id, uploaded, sender)
        && db'.jobs[|db.jobs| + i].name == MailQueue.WorkerQueueName
  {
    FanOutCorrespondence(db, mails, uploaded, sender);
  }

  /** The fan-out keeps ids fresh: every record id is new, above all ids stored before, and increasing in mail order. */
  lemma {:induction false} FanOutFreshIds(db: Db, mails: seq<Mail>, uploaded: seq<S3.Uploaded>, sender: Sender)
    requires IdsBelow(db)
    ensures var (db', recs) := FanOut(db, mails, uploaded, sender);
      IdsBelow(db')
      && (forall i :: 0 <= i < |recs| ==> db.nextId <= recs[i].id < db'.nextId)
      && (forall i, j :: 0 <= i < j < |recs| ==> recs[i].id < recs[j].id)
    decreases |mails|
  {
    if mails != [] {
      var init := mails[..|mails| - 1];
      FanOutFreshIds(db, init, uploaded, sender);
      var (db1, recs) := FanOut(db, init, uploaded, sender);
      var (db2, rec) := Produce(db1, mails[|mails| - 1], uploaded, sender);
      var all := recs + [rec];
      assert FanOut(db, mails, uploaded, sender) == (db2, all);
      forall i | 0 <= i < |all| ensures db.nextId <= all[i].id < db2.nextId {
        if i < |recs| { assert all[i] == recs[i]; }
      }
      forall i, j | 0 <= i < j < |all| ensures all[i].id < all[j].id {
        assert all[i] == recs[i];
        if j < |recs| { assert all[j] == recs[j]; }
      }
    }
  }

  /** `FindContact` returns the first contact with the email: a contact after a non-matching prefix. */
  lemma {:induction false} FindContactFirst(contacts: seq<Contact>, email: string, k: nat)
    requires k < |contacts| && contacts[k].email == email
    requires forall i :: 0 <= i < k ==> contacts[i].email != email
    ensures FindContact(contacts, email) == Some(contacts[k])
    decreases k
  {
    if k > 0 {
      FindContactFirst(contacts[1..], email, k - 1);
    }
  }

  // ---------------------------------------------------------------------------
  // Store calls that reject
  // ---------------------------------------------------------------------------

  /**
   * The awaited calls of one recipient's chain, in order: the contact lookup,
   * the contact create after a miss, the record create, one attachment create
   * per upload and the queue add. All but the queue add are Prisma calls.
   */
  datatype StoreCall = ContactLookup | ContactCreate | RecordCreate | AttachmentCreate(index: nat) | QueueAdd

  /** Whether the chain for `m` makes the call at all. */
  predicate MakesCall(db: Db, m: Mail, uploaded: seq<S3.Uploaded>, call: StoreCall) {
    match call
    case ContactCreate => FindContact(db.contacts, m.recipient).None?
    case AttachmentCreate(k) => k < |uploaded|
    case _ => true
  }

  /** `reject` names a call the chain makes; that call rejects, and the chain stops there. */
  predicate Rejects(db: Db, m: Mail, uploaded: seq<S3.Uploaded>, reject: Option<StoreCall>) {
    reject.Some? && MakesCall(db, m, uploaded, reject.value)
  }

  /** Every row of `db` is still in `db'`, in place, and the counter has not gone back. */
  predicate Extends(db: Db, db': Db) {
    |db.contacts| <= |db'.contacts| && db'.contacts[..|db.contacts|] == db.contacts
    && |db.emails| <= |db'.emails| && db'.emails[..|db.emails|] == db.emails
    && |db.attachments| <= |db'.attachments| && db'.attachments[..|db.attachments|] == db.attachments
    && |db.jobs| <= |db'.jobs| && db'.jobs[..|db.jobs|] == db.jobs
    && db.nextId <= db'.nextId
  }

  lemma ExtendsTransitive(a: Db, b: Db, c: Db)
    requires Extends(a, b) && Extends(b, c)
    ensures Extends(a, c)
  {
    assert c.contacts[..|a.contacts|] == c.contacts[..|b.contacts|][..|a.contacts|];
    assert c.emails[..|a.emails|] == c.emails[..|b.emails|][..|a.emails|];
    assert c.attachments[..|a.attachments|] == c.attachments[..|b.attachments|][..|a.attachments|];
    assert c.jobs[..|a.jobs|] == c.jobs[..|b.jobs|][..|a.jobs|];
  }

  /** The store once the contact is settled, the record created and the first `k` attachment rows written; no job yet. */
  function RecordAndRows(db: Db, m: Mail, uploaded: seq<S3.Uploaded>, sender: Sender, k: nat): (r: (Db, EmailSentRecord))
    requires k <= |uploaded|
    ensures RecordOf(r.1, m, sender) && db.nextId <= r.1.id
    ensures r.0.emails == db.emails + [r.1] && r.0.jobs == db.jobs
    ensures r.0.attachments == db.attachments + AttachmentRows(uploaded[..k], r.1.id + 1, r.1.id)
    ensures r.0.contacts == ContactFor(db, m, sender.userId).0.contacts && r.1.contactId == ContactFor(db, m, sender.userId).1
    ensures r.0.nextId == r.1.id + 1 + k
  {
    var (db1, contactId) := ContactFor(db, m, sender.userId);
    var rec := EmailSentRecord(db1.nextId, m.subject, m.body, PENDING, contactId, m.platform.GetOr(""), sender.userId);
    (Db(db1.contacts, db1.emails + [rec], db1.attachments + AttachmentRows(uploaded[..k], db1.nextId + 1, rec.id),
        db1.jobs, db1.nextId + 1 + k), rec)
  }

  /** Rows written from the counter keep every id below the counter. */
  lemma RecordAndRowsIdsBelow(db: Db, m: Mail, uploaded: seq<S3.Uploaded>, sender: Sender, k: nat)
    requires k <= |uploaded|
    ensures IdsBelow(db) ==> IdsBelow(RecordAndRows(db, m, uploaded, sender, k).0)
  {
    if IdsBelow(db) {
      var (db', rec) := RecordAndRows(db, m, uploaded, sender, k);
      var rows := AttachmentRows(uploaded[..k], rec.id + 1, rec.id);
      forall i | 0 <= i < |db'.attachments| ensures db'.attachments[i].id < db'.nextId {
        if i >= |db.attachments| { assert db'.attachments[i] == rows[i - |db.attachments|]; }
      }
    }
  }

  /**
   * One recipient's chain when the call `reject` names rejects; with `None`,
   * or a call the chain does not make, every call resolves. The writes made
   * before the rejected call stay, and the chain ends with its record or with
   * the rejected call.
   */
  function ProduceUntil(db: Db, m: Mail, uploaded: seq<S3.Uploaded>, sender: Sender, reject: Option<StoreCall>): (r: (Db, Result<EmailSentRecord, StoreCall>))
    ensures !Rejects(db, m, uploaded, reject) ==> r == (Produce(db, m, uploaded, sender).0, Ok(Produce(db, m, uploaded, sender).1))
    ensures Rejects(db, m, uploaded, reject) ==> r.1 == Err(reject.value) && r.0.jobs == db.jobs
  {
    if !Rejects(db, m, uploaded, reject) then
      var (db', rec) := Produce(db, m, uploaded, sender);
      (db', Ok(rec))
    else
      match reject.value
      case ContactLookup => (db, Err(ContactLookup))
      case ContactCreate => (db, Err(ContactCreate))
      case RecordCreate => (ContactFor(db, m, sender.userId).0, Err(RecordCreate))
      case AttachmentCreate(k) => (RecordAndRows(db, m, uploaded, sender, k).0, Err(AttachmentCreate(k)))
      case QueueAdd => (RecordAndRows(db, m, uploaded, sender, |uploaded|).0, Err(QueueAdd))
  }

  /** Whatever call rejects, the rows written before stay in place and the ids stay below the counter. */
  lemma ProduceUntilKeeps(db: Db, m: Mail, uploaded: seq<S3.Uploaded>, sender: Sender, reject: Option<StoreCall>)
    ensures Extends(db, ProduceUntil(db, m, uploaded, sender, reject).0)
    ensures IdsBelow(db) ==> IdsBelow(ProduceUntil(db, m, uploaded, sender, reject).0)
  {
    if Rejects(db, m, uploaded, reject) {
      match reject.value
      case AttachmentCreate(k) => RecordAndRowsIdsBelow(db, m, uploaded, sender, k);
      case QueueAdd => RecordAndRowsIdsBelow(db, m, uploaded, sender, |uploaded|);
      case _ =>
    }
  }

  /** The chain's end when the contact step rejects: nothing written. */
  lemma UntilAtContact(db: Db, m: Mail, uploaded: seq<S3.Uploaded>, sender: Sender, reject: Option<StoreCall>)
    requires reject == Some(ContactLookup) || (reject == Some(ContactCreate) && FindContact(db.contacts, m.recipient).None?)
    ensures ProduceUntil(db, m, uploaded, sender, reject) == (db, Err(reject.value))
  {
  }

  /** The chain's end when the record create rejects: only the contact step's write. */
  lemma UntilAtRecord(db: Db, m: Mail, uploaded: seq<S3.Uploaded>, sender: Sender)
    ensures ProduceUntil(db, m, uploaded, sender, Some(RecordCreate)) == (ContactFor(db, m, sender.userId).0, Err(RecordCreate))
  {
  }

  /** The chain's end when an attachment create or the queue add rejects: the record and the rows before it. */
  lemma UntilAtRows(db: Db, m: Mail, uploaded: seq<S3.Uploaded>, sender: Sender, reject: Option<StoreCall>, k: nat)
    requires (reject == Some(AttachmentCreate(k)) && k < |uploaded|) || (reject == Some(QueueAdd) && k == |uploaded|)
    ensures ProduceUntil(db, m, uploaded, sender, reject) == (RecordAndRows(db, m, uploaded, sender, k).0, Err(reject.value))
  {
  }

  /** A store assembled field by field from the contact step, the record and `k` rows is `RecordAndRows`'s. */
  lemma RecordAndRowsFromParts(db: Db, m: Mail, uploaded: seq<S3.Uploaded>, sender: Sender, k: nat, d: Db, rec: EmailSentRecord)
    requires k <= |uploaded|
    requires var (db1, contactId) := ContactFor(db, m, sender.userId);
      d.contacts == db1.contacts && rec == EmailSentRecord(db1.nextId, m.subject, m.body, PENDING, contactId, m.platform.GetOr(""), sender.userId)
    requires d.emails == db.emails + [rec] && d.jobs == db.jobs && d.nextId == rec.id + 1 + k
    requires d.attachments == db.attachments + AttachmentRows(uploaded[..k], rec.id + 1, rec.id)
    ensures d == RecordAndRows(db, m, uploaded, sender, k).0
  {
  }

  /**
   * The rest of a chain from the store `d` in which its record `rec` was just
   * created: the attachment rows up to a rejected create, then the job unless
   * the queue add rejects.
   */
  function AfterRecord(d: Db, rec: EmailSentRecord, m: Mail, uploaded: seq<S3.Uploaded>, sender: Sender, reject: Option<StoreCall>)
    : (r: (Db, Result<EmailSentRecord, StoreCall>))
  {
    var k := if reject.Some? && reject.value.AttachmentCreate? && reject.value.index < |uploaded| then reject.value.index else |uploaded|;
    var d1 := d.(attachments := d.attachments + AttachmentRows(uploaded[..k], d.nextId, rec.id), nextId := d.nextId + k);
    if k < |uploaded| then (d1, Err(reject.value))
    else if reject == Some(QueueAdd) then (d1, Err(QueueAdd))
    else (d1.(jobs := d1.jobs + [JobOf(m, rec.id, uploaded, sender)]), Ok(rec))
  }

  lemma AfterRecordRowRejected(db: Db, m: Mail, uploaded: seq<S3.Uploaded>, sender: Sender, k: nat)
    requires k < |uploaded|
    ensures var (d0, rec) := RecordAndRows(db, m, uploaded, sender, 0);
      ProduceUntil(db, m, uploaded, sender, Some(AttachmentCreate(k))) == AfterRecord(d0, rec, m, uploaded, sender, Some(AttachmentCreate(k)))
  {
    var (d0, rec) := RecordAndRows(db, m, uploaded, sender, 0);
    assert uploaded[..0] == [];
    assert d0.attachments == db.attachments && d0.nextId == rec.id + 1;
    UntilAtRows(db, m, uploaded, sender, Some(AttachmentCreate(k)), k);
    assert RecordAndRows(db, m, uploaded, sender, k).1 == rec;
  }

  lemma AfterRecordQueueRejected(db: Db, m: Mail, uploaded: seq<S3.Uploaded>, sender: Sender)
    ensures var (d0, rec) := RecordAndRows(db, m, uploaded, sender, 0);
      ProduceUntil(db, m, uploaded, sender, Some(QueueAdd)) == AfterRecord(d0, rec, m, uploaded, sender, Some(QueueAdd))
  {
    var (d0, rec) := RecordAndRows(db, m, uploaded, sender, 0);
    assert uploaded[..0] == [];
    assert d0.attachments == db.attachments && d0.nextId == rec.id + 1;
    UntilAtRows(db, m, uploaded, sender, Some(QueueAdd), |uploaded|);
  }

  lemma AfterRecordCompletes(db: Db, m: Mail, uploaded: seq<S3.Uploaded>, sender: Sender, reject: Option<StoreCall>)
    requires !Rejects(db, m, uploaded, reject)
    ensures var (d0, rec) := RecordAndRows(db, m, uploaded, sender, 0);
      ProduceUntil(db, m, uploaded, sender, reject) == AfterRecord(d0, rec, m, uploaded, sender, reject)
  {
    var (d0, rec) := RecordAndRows(db, m, uploaded, sender, 0);
    assert uploaded[..0] == [];
    assert d0.attachments == db.attachments && d0.nextId == rec.id + 1;
    ProduceIsRowsThenJob(db, m, uploaded, sender);
  }

  /** Once neither the contact step nor the record create has rejected, the chain goes on as `AfterRecord` says. */
  lemma UntilAfterRecord(db: Db, m: Mail, uploaded: seq<S3.Uploaded>, sender: Sender, reject: Option<StoreCall>)
    requires reject != Some(ContactLookup) && reject != Some(RecordCreate)
    requires !(reject == Some(ContactCreate) && FindContact(db.contacts, m.recipient).None?)
    ensures var (d0, rec) := RecordAndRows(db, m, uploaded, sender, 0);
      ProduceUntil(db, m, uploaded, sender, reject) == AfterRecord(d0, rec, m, uploaded, sender, reject)
  {
    if reject.Some? && reject.value.AttachmentCreate? && reject.value.index < |uploaded| {
      AfterRecordRowRejected(db, m, uploaded, sender, reject.value.index);
    } else if reject == Some(QueueAdd) {
      AfterRecordQueueRejected(db, m, uploaded, sender);
    } else {
      AfterRecordCompletes(db, m, uploaded, sender, reject);
    }
  }

  /** A completed chain is the record and all its rows, followed by the job. */
  lemma ProduceIsRowsThenJob(db: Db, m: Mail, uploaded: seq<S3.Uploaded>, sender: Sender)
    ensures var (d, rec) := RecordAndRows(db, m, uploaded, sender, |uploaded|);
      Produce(db, m, uploaded, sender) == (d.(jobs := d.jobs + [JobOf(m, rec.id, uploaded, sender)]), rec)
  {
    assert uploaded[..|uploaded|] == uploaded;
  }

  /** A rejected lookup writes nothing. */
  lemma LookupRejectionWritesNothing(db: Db, m: Mail, uploaded: seq<S3.Uploaded>, sender: Sender)
    ensures ProduceUntil(db, m, uploaded, sender, Some(ContactLookup)) == (db, Err(ContactLookup))
  {
  }

  /** A rejected record create after a miss leaves the contact just created, and no record. */
  lemma RecordRejectionKeepsNewContact(db: Db, m: Mail, uploaded: seq<S3.Uploaded>, sender: Sender)
    requires FindContact(db.contacts, m.recipient).None?
    ensures var (db', r) := ProduceUntil(db, m, uploaded, sender, Some(RecordCreate));
      r == Err(RecordCreate) && db'.emails == db.emails && db'.jobs == db.jobs
      && db'.contacts == db.contacts + [Contact(db.nextId, m.recipient, m.companyName, sender.userId)]
  {
  }

  /** A rejected attachment create keeps the record and the rows of the uploads before it, and queues no job. */
  lemma AttachmentRejectionKeepsEarlierRows(db: Db, m: Mail, uploaded: seq<S3.Uploaded>, sender: Sender, k: nat)
    requires k < |uploaded|
    ensures var (db', r) := ProduceUntil(db, m, uploaded, sender, Some(AttachmentCreate(k)));
      r == Err(AttachmentCreate(k)) && db'.jobs == db.jobs && |db'.emails| == |db.emails| + 1
      && RecordOf(db'.emails[|db.emails|], m, sender)
      && |db'.attachments| == |db.attachments| + k
      && forall i :: 0 <= i < k ==>
        var row := db'.attachments[|db.attachments| + i];
        row.emailSentId == db'.emails[|db.emails|].id && row.fileUrl == uploaded[i].url
  {
    var (db', rec) := RecordAndRows(db, m, uploaded, sender, k);
    var rows := AttachmentRows(uploaded[..k], rec.id + 1, rec.id);
    forall i | 0 <= i < k ensures db'.attachments[|db.attachments| + i] == rows[i] && uploaded[..k][i] == uploaded[i] {
    }
  }

  /**
   * A rejected queue add strands the record: it stays PENDING with all its
   * attachment rows, and no job will ever deliver it or mark it.
   */
  lemma QueueRejectionStrandsRecord(db: Db, m: Mail, uploaded: seq<S3.Uploaded>, sender: Sender)
    ensures var (db', r) := ProduceUntil(db, m, uploaded, sender, Some(QueueAdd));
      r == Err(QueueAdd) && db'.jobs == db.jobs && |db'.emails| == |db.emails| + 1
      && RecordOf(db'.emails[|db.emails|], m, sender) && db'.emails[|db.emails|].status == PENDING
      && |db'.attachments| == |db.attachments| + |uploaded|
  {
  }

  /**
   * Every recipient's chain, each stopping at its own rejected call
   * (`rejects[i]` for mail `i`). `Promise.all` does not cancel the other
   * chains, so the store ends with every chain's writes.
   */
  function FanOutUntil(db: Db, mails: seq<Mail>, rejects: seq<Option<StoreCall>>, uploaded: seq<S3.Uploaded>, sender: Sender)
    : (r: (Db, seq<Result<EmailSentRecord, StoreCall>>))
    requires |rejects| == |mails|
    ensures |r.1| == |mails|
    ensures Extends(db, r.0)
    ensures forall i :: 0 <= i < |mails| && r.1[i].Err? ==> rejects[i] == Some(r.1[i].error)
    decreases |mails|
  {
    if mails == [] then (db, [])
    else
      var n := |mails| - 1;
      var (db1, rs) := FanOutUntil(db, mails[..n], rejects[..n], uploaded, sender);
      var (db2, res) := ProduceUntil(db1, mails[n], uploaded, sender, rejects[n]);
      ProduceUntilKeeps(db1, mails[n], uploaded, sender, rejects[n]);
      ExtendsTransitive(db, db1, db2);
      (db2, rs + [res])
  }

  /** When no call rejects, the chains are the plain fan-out: the same store, and each chain ends with that mail's record. */
  lemma {:induction false} FanOutUntilNoRejects(db: Db, mails: seq<Mail>, rejects: seq<Option<StoreCall>>, uploaded: seq<S3.Uploaded>, sender: Sender)
    requires |rejects| == |mails| && forall i :: 0 <= i < |rejects| ==> rejects[i].None?
    ensures var (db', rs) := FanOutUntil(db, mails, rejects, uploaded, sender);
      db' == FanOut(db, mails, uploaded, sender).0
      && forall i :: 0 <= i < |mails| ==> rs[i] == Ok(FanOut(db, mails, uploaded, sender).1[i])
    decreases |mails|
  {
    if mails != [] {
      var n := |mails| - 1;
      FanOutUntilNoRejects(db, mails[..n], rejects[..n], uploaded, sender);
      var (db1, rs) := FanOutUntil(db, mails[..n], rejects[..n], uploaded, sender);
      var (f1, recs) := FanOut(db, mails[..n], uploaded, sender);
      assert rejects[n].None?;
      var (db2, res) := ProduceUntil(db1, mails[n], uploaded, sender, rejects[n]);
      var all := FanOut(db, mails, uploaded, sender).1;
      assert all == recs + [Produce(f1, mails[n], uploaded, sender).1];
      forall i | 0 <= i < |mails| ensures (rs + [res])[i] == Ok(all[i]) {
        if i < n { assert (rs + [res])[i] == rs[i] && all[i] == recs[i]; }
      }
    }
  }

  /** The jobs the chains queue: one for each chain that completed, naming its record, in mail order. */
  function CompletedJobs(mails: seq<Mail>, rs: seq<Result<EmailSentRecord, StoreCall>>, uploaded: seq<S3.Uploaded>, sender: Sender): (js: seq<QueuedJob>)
    requires |rs| == |mails|
    ensures |js| <= |mails|
    decreases |mails|
  {
    if mails == [] then []
    else
      var n := |mails| - 1;
      CompletedJobs(mails[..n], rs[..n], uploaded, sender)
        + (if rs[n].Ok? then [JobOf(mails[n], rs[n].value.id, uploaded, sender)] else [])
  }

  /** One chain appends its mail's job when it completes, and no job when a call rejects. */
  lemma ProduceUntilJob(db: Db, m: Mail, uploaded: seq<S3.Uploaded>, sender: Sender, reject: Option<StoreCall>)
    ensures var (db', res) := ProduceUntil(db, m, uploaded, sender, reject);
      db'.jobs == db.jobs + if res.Ok? then [JobOf(m, res.value.id, uploaded, sender)] else []
  {
  }

  /** A chain queues its job exactly when it completes: a rejected chain leaves no job behind. */
  lemma {:induction false} FanOutUntilJobs(db: Db, mails: seq<Mail>, rejects: seq<Option<StoreCall>>, uploaded: seq<S3.Uploaded>, sender: Sender)
    requires |rejects| == |mails|
    ensures var (db', rs) := FanOutUntil(db, mails, rejects, uploaded, sender);
      db'.jobs == db.jobs + CompletedJobs(mails, rs, uploaded, sender)
    decreases |mails|
  {
    if mails != [] {
      var n := |mails| - 1;
      FanOutUntilJobs(db, mails[..n], rejects[..n], uploaded, sender);
      var (db1, rs) := FanOutUntil(db, mails[..n], rejects[..n], uploaded, sender);
      var (db2, res) := ProduceUntil(db1, mails[n], uploaded, sender, rejects[n]);
      ProduceUntilJob(db1, mails[n], uploaded, sender, rejects[n]);
      assert (rs + [res])[..n] == rs && (rs + [res])[n] == res;
    }
  }

  /** `Promise.all` over the chains: every record in mail order, or a rejected call. */
  function Settle(rs: seq<Result<EmailSentRecord, StoreCall>>): (r: Result<seq<EmailSentRecord>, StoreCall>)
    ensures r.Ok? <==> forall i :: 0 <= i < |rs| ==> rs[i].Ok?
    ensures r.Ok? ==> |r.value| == |rs| && forall i :: 0 <= i < |rs| ==> rs[i] == Ok(r.value[i])
    ensures r.Err? ==> exists i :: 0 <= i < |rs| && rs[i] == Err(r.error)
    decreases |rs|
  {
    if rs == [] then Ok([])
    else
      match rs[0]
      case Err(c) => Err(c)
      case Ok(rec) =>
        match Settle(rs[1..])
        case Err(c) =>
          assert forall i :: 0 <= i < |rs[1..]| ==> rs[1..][i] == rs[i + 1];
          Err(c)
        case Ok(recs) =>
          assert forall i :: 1 <= i < |rs| ==> rs[i] == rs[1..][i - 1];
          Ok([rec] + recs)
  }

  /** With no rejected call, the chains settle to the plain fan-out's records. */
  lemma SettleNoRejects(db: Db, mails: seq<Mail>, rejects: seq<Option<StoreCall>>, uploaded: seq<S3.Uploaded>, sender: Sender)
    requires |rejects| == |mails|
    ensures (forall i :: 0 <= i < |rejects| ==> rejects[i].None?) ==>
      var (db', rs) := FanOutUntil(db, mails, rejects, uploaded, sender);
      db' == FanOut(db, mails, uploaded, sender).0 && Settle(rs) == Ok(FanOut(db, mails, uploaded, sender).1)
  {
    if forall i :: 0 <= i < |rejects| ==> rejects[i].None? {
      FanOutUntilNoRejects(db, mails, rejects, uploaded, sender);
      var rs := FanOutUntil(db, mails, rejects, uploaded, sender).1;
      var recs := FanOut(db, mails, uploaded, sender).1;
      assert Settle(rs).value == recs;
    }
  }

  /** The handler's answer once the chains settle: 200 with the records, or the rejection forwarded to the error middleware. */
  function FanOutReply(rs: seq<Result<EmailSentRecord, StoreCall>>): (out: Outcome)
    ensures out.Responded? <==> forall i :: 0 <= i < |rs| ==> rs[i].Ok?
    ensures out.Responded? ==> out == Responded(200, true, QueuedMessage, Settle(rs).value)
    ensures out.StoreRejected? ==> exists i :: 0 <= i < |rs| && rs[i] == Err(out.call)
  {
    match Settle(rs)
    case Ok(recs) => Responded(200, true, QueuedMessage, recs)
    case Err(c) => StoreRejected(c)
  }

  // ---------------------------------------------------------------------------
  // Uploads and the two request handlers
  // ---------------------------------------------------------------------------

  /** One multer file with the clock reading and the storage service's answer for its upload. */
  datatype UploadAttempt = UploadAttempt(file: S3.UploadFile, timestamp: nat, put: Result<(), string>)

  /** What the handler hands back: a JSON response, or an error forwarded to the error middleware. */
  datatype Outcome =
    | Responded(httpStatus: nat, status: bool, message: string, records: seq<EmailSentRecord>)
    | Raised(statusCode: Option<nat>, message: string)
      /** The rejection of a store call, forwarded as it is; the error middleware answers a Prisma error 500 "Prisma Query Error!". */
    | StoreRejected(call: StoreCall)

  const QueuedMessage: string := "Emails queued for sending."
  const NoEmailsMessage: string := "No emails provided for bulk sending."

  function UploadFailedMessage(originalname: string): string {
    "Failed to upload file " + originalname + ": failed to upload files"
  }

  /** Each file's `s3Upload` outcome, in file order. */
  function Uploads(env: S3.S3Env, fs: seq<UploadAttempt>): (r: seq<Result<S3.Uploaded, string>>)
    ensures |r| == |fs|
    ensures forall i :: 0 <= i < |fs| ==> r[i] == S3.S3Upload(env, Some(fs[i].file), fs[i].timestamp, fs[i].put)
  {
    seq(|fs|, i requires 0 <= i < |fs| => S3.S3Upload(env, Some(fs[i].file), fs[i].timestamp, fs[i].put))
  }

  /** `Promise.all` over the per-file outcomes: all results in order, or the first failure as a 500 naming its file. */
  function Gather(fs: seq<UploadAttempt>, rs: seq<Result<S3.Uploaded, string>>): (r: Result<seq<S3.Uploaded>, Outcome>)
    requires |rs| == |fs|
    ensures r.Ok? ==> |r.value| == |fs|
    decreases |fs|
  {
    if fs == [] then Ok([])
    else
      match rs[0]
      case Err(_) => Err(Raised(Some(500), UploadFailedMessage(fs[0].file.originalname)))
      case Ok(u) =>
        match Gather(fs[1..], rs[1..])
        case Err(e) => Err(e)
        case Ok(us) => Ok([u] + us)
  }

  /** Gathering succeeds exactly when every outcome does, and then yields the outcomes' values in order. */
  lemma {:induction false} GatherAll(fs: seq<UploadAttempt>, rs: seq<Result<S3.Uploaded, string>>)
    requires |rs| == |fs|
    ensures Gather(fs, rs).Ok? <==> forall i :: 0 <= i < |rs| ==> rs[i].Ok?
    ensures Gather(fs, rs).Ok? ==> forall i :: 0 <= i < |rs| ==> rs[i] == Ok(Gather(fs, rs).value[i])
    decreases |fs|
  {
    if fs != [] {
      GatherAll(fs[1..], rs[1..]);
      assert forall i :: 1 <= i < |rs| ==> rs[i] == rs[1..][i - 1];
      var r := Gather(fs, rs);
      if r.Ok? {
        var rest := Gather(fs[1..], rs[1..]);
        assert rest.Ok? && r.value == [rs[0].value] + rest.value;
        forall i | 1 <= i < |rs| ensures rs[i] == Ok(r.value[i]) {
          assert r.value[i] == rest.value[i - 1];
        }
      }
    }
  }

  /** The first failing outcome decides the error. */
  lemma {:induction false} GatherFirstFailure(fs: seq<UploadAttempt>, rs: seq<Result<S3.Uploaded, string>>, k: nat)
    requires |rs| == |fs| && k < |rs| && rs[k].Err?
    requires forall j :: 0 <= j < k ==> rs[j].Ok?
    ensures Gather(fs, rs) == Err(Raised(Some(500), UploadFailedMessage(fs[k].file.originalname)))
    decreases k
  {
    if k > 0 {
      assert forall j :: 0 <= j < k - 1 ==> rs[1..][j] == rs[j + 1];
      GatherFirstFailure(fs[1..], rs[1..], k - 1);
    }
  }

  /**
   * Uploading the files; a failing file becomes a 500 naming it. With several
   * failing files the model reports the first in file order, one of the
   * outcomes `Promise.all` can give.
   */
  function UploadEach(env: S3.S3Env, fs: seq<UploadAttempt>): (r: Result<seq<S3.Uploaded>, Outcome>)
    ensures r.Ok? ==> |r.value| == |fs|
  {
    Gather(fs, Uploads(env, fs))
  }

  /** The uploads succeed exactly when every file's put succeeds, and then they are the files' own uploads, in file order. */
  lemma UploadEachSucceeds(env: S3.S3Env, fs: seq<UploadAttempt>)
    ensures UploadEach(env, fs).Ok? <==> forall i :: 0 <= i < |fs| ==> fs[i].put.Ok?
    ensures UploadEach(env, fs).Ok? ==> forall i :: 0 <= i < |fs| ==>
      S3.S3Upload(env, Some(fs[i].file), fs[i].timestamp, fs[i].put) == Ok(UploadEach(env, fs).value[i])
  {
    GatherAll(fs, Uploads(env, fs));
  }

  /**
   * A request with some failing file fails its uploads with a 500 that names
   * a failing file. Which one `Promise.all` reports depends on timing, so only
   * that it is one of the failing files is stated.
   */
  lemma UploadEachFailure(env: S3.S3Env, fs: seq<UploadAttempt>, k: nat)
    requires k < |fs| && fs[k].put.Err?
    ensures exists j :: (0 <= j < |fs| && fs[j].put.Err? &&
      UploadEach(env, fs) == Err(Raised(Some(500), UploadFailedMessage(fs[j].file.originalname))))
  {
    var j := 0;
    while fs[j].put.Ok?
      invariant 0 <= j <= k
      invariant forall i :: 0 <= i < j ==> fs[i].put.Ok?
      decreases k - j
    {
      j := j + 1;
    }
    GatherFirstFailure(fs, Uploads(env, fs), j);
  }

  /** With exactly one failing file, the 500 names that file. */
  lemma UploadEachSoleFailure(env: S3.S3Env, fs: seq<UploadAttempt>, k: nat)
    requires k < |fs| && fs[k].put.Err?
    requires forall j :: 0 <= j < |fs| && j != k ==> fs[j].put.Ok?
    ensures UploadEach(env, fs) == Err(Raised(Some(500), UploadFailedMessage(fs[k].file.originalname)))
  {
    GatherFirstFailure(fs, Uploads(env, fs), k);
  }

  /** The upload step: only when `req.files` is a non-empty array is anything uploaded. */
  function UploadAll(env: S3.S3Env, files: Option<seq<UploadAttempt>>): (r: Result<seq<S3.Uploaded>, Outcome>)
    ensures files.None? || files == Some([]) ==> r == Ok([])
  {
    match files
    case None => Ok([])
    case Some(fs) => UploadEach(env, fs)
  }

  /** `sendMail`'s body fields. */
  datatype SendMailRequest = SendMailRequest(
    recipients: OneOrMany<string>, subject: string, platform: Option<string>, companyName: string,
    body: string, appUsername: string, appPassword: string)

  /** One element of the parsed `emails` of a bulk request (`BulkMailArr`). */
  datatype BulkMail = BulkMail(name: string, email: string, companyname: string, platform: Option<string>, body: string, subject: string)

  /** The per-recipient mails of `sendMail`: every recipient shares the request's subject, body and platform. */
  function SendMailMails(req: SendMailRequest): (r: seq<Mail>)
    ensures |r| == |AsList(req.recipients)|
    ensures forall i :: 0 <= i < |r| ==> r[i] == Mail(AsList(req.recipients)[i], req.companyName, req.subject, req.body, req.platform, req.body)
  {
    var rs := AsList(req.recipients);
    seq(|rs|, i requires 0 <= i < |rs| => Mail(rs[i], req.companyName, req.subject, req.body, req.platform, req.body))
  }

  /** The mail `bulkMailSender` produces for one element as written: the job's body is the element's subject. */
  function BulkMailAsWritten(e: BulkMail): (m: Mail)
    ensures m.body == e.body && m.jobBody == e.subject
  {
    Mail(e.email, e.companyname, e.subject, e.body, e.platform, e.subject)
  }

  /** As written, the worker would deliver the subject as the message text of every bulk mail whose body differs from its subject. */
  lemma BulkJobBodyIsSubject(db: Db, e: BulkMail, sender: Sender)
    requires IdsBelow(db) && e.body != e.subject
    ensures var (db', recs) := FanOut(db, [BulkMailAsWritten(e)], [], sender);
      db'.jobs[|db.jobs|].data.body == e.subject && db'.jobs[|db.jobs|].data.body != recs[0].body
  {
    FanOutOnePerMail(db, [BulkMailAsWritten(e)], [], sender);
  }

  /** The corrected mail for one bulk element: the job carries the stored body, as `sendMail` does. */
  function BulkMailCorrected(e: BulkMail): (m: Mail)
    ensures m.recipient == e.email && m.subject == e.subject && m.body == e.body && m.jobBody == m.body
  {
    Mail(e.email, e.companyname, e.subject, e.body, e.platform, e.body)
  }

  /** With the correction, every bulk job carries exactly the body stored in its record. */
  lemma BulkJobBodyMatchesRecord(db: Db, emails: seq<BulkMail>, uploaded: seq<S3.Uploaded>, sender: Sender)
    requires IdsBelow(db)
    ensures var mails := seq(|emails|, i requires 0 <= i < |emails| => BulkMailCorrected(emails[i]));
      var (db', recs) := FanOut(db, mails, uploaded, sender);
      forall i :: 0 <= i < |emails| ==> db'.jobs[|db.jobs| + i].data.body == recs[i].body == emails[i].body
  {
    var mails := seq(|emails|, i requires 0 <= i < |emails| => BulkMailCorrected(emails[i]));
    FanOutOnePerMail(db, mails, uploaded, sender);
  }

  /** `sendMail` always mails the body it stores. */
  lemma SendMailJobBodyMatchesRecord(db: Db, req: SendMailRequest, uploaded: seq<S3.Uploaded>, sender: Sender)
    requires IdsBelow(db)
    ensures var (db', recs) := FanOut(db, SendMailMails(req), uploaded, sender);
      forall i :: 0 <= i < |recs| ==> db'.jobs[|db.jobs| + i].data.body == recs[i].body == req.body
  {
    FanOutOnePerMail(db, SendMailMails(req), uploaded, sender);
  }

  /** The id counter and the tables the controller writes. */
  class MailStore {
    var contacts: seq<Contact>
    var emails: seq<EmailSentRecord>
    var attachments: seq<AttachmentRecord>
    var jobs: seq<QueuedJob>
    var nextId: nat

    function State(): Db
      reads this
    {
      Db(contacts, emails, attachments, jobs, nextId)
    }

    constructor ()
      ensures State() == Db([], [], [], [], 0)
    {
      contacts, emails, attachments, jobs, nextId := [], [], [], [], 0;
    }

    /**
     * `findFirst`, then `create` when no contact has the recipient's email.
     * When `reject` names the lookup, or the create the miss leads to, that
     * call rejects and nothing is written.
     */
    method FindOrCreateContact(m: Mail, userId: string, reject: Option<StoreCall>) returns (contactId: Result<nat, StoreCall>)
      modifies this`contacts, this`nextId
      ensures contactId.Err? <==> reject == Some(ContactLookup) || (reject == Some(ContactCreate) && FindContact(old(contacts), m.recipient).None?)
      ensures contactId.Err? ==> contactId.error == reject.value && contacts == old(contacts) && nextId == old(nextId)
      ensures contactId.Ok? ==> (State(), contactId.value) == ContactFor(old(State()), m, userId)
    {
      if reject == Some(ContactLookup) {
        return Err(ContactLookup);
      }
      var contact := FindContact(contacts, m.recipient);
      if contact.Some? {
        contactId := Ok(contact.value.id);
      } else if reject == Some(ContactCreate) {
        contactId := Err(ContactCreate);
      } else {
        contactId := Ok(nextId);
        contacts := contacts + [Contact(nextId, m.recipient, m.companyName, userId)];
        nextId := nextId + 1;
      }
    }

    /**
     * One `prisma.attachment.create` per upload, in upload order; returns the
     * rows created. When `reject` names the create for upload `k`, it rejects
     * and only the rows before it exist.
     */
    method CreateAttachments(uploaded: seq<S3.Uploaded>, emailSentId: nat, reject: Option<StoreCall>)
      returns (created: seq<AttachmentRecord>, rejected: bool)
      modifies this`attachments, this`nextId
      ensures rejected <==> reject.Some? && reject.value.AttachmentCreate? && reject.value.index < |uploaded|
      ensures var k := if rejected then reject.value.index else |uploaded|;
        created == AttachmentRows(uploaded[..k], old(nextId), emailSentId) && nextId == old(nextId) + k
      ensures !rejected ==> created == AttachmentRows(uploaded, old(nextId), emailSentId)
      ensures attachments == old(attachments) + created
    {
      created := [];
      var i := 0;
      while i < |uploaded| && reject != Some(AttachmentCreate(i))
        invariant 0 <= i <= |uploaded|
        invariant reject.Some? && reject.value.AttachmentCreate? && reject.value.index < |uploaded| ==> i <= reject.value.index
        invariant created == AttachmentRows(uploaded[..i], old(nextId), emailSentId)
        invariant attachments == old(attachments) + created && nextId == old(nextId) + i
      {
        assert uploaded[..i + 1][..i] == uploaded[..i];
        var row := AttachmentRecord(nextId, uploaded[i].fileKey, uploaded[i].fileName, uploaded[i].url, emailSentId);
        created := created + [row];
        attachments := attachments + [row];
        nextId := nextId + 1;
        i := i + 1;
      }
      rejected := i < |uploaded|;
      assert uploaded[..|uploaded|] == uploaded;
    }

    /**
     * The chain for one recipient: find or create the contact, the record,
     * the attachment rows, the job. It stops at the call `reject` names.
     */
    method ProduceOne(m: Mail, uploaded: seq<S3.Uploaded>, sender: Sender, reject: Option<StoreCall>) returns (res: Result<EmailSentRecord, StoreCall>)
      modifies this
      ensures (State(), res) == ProduceUntil(old(State()), m, uploaded, sender, reject)
      ensures reject.None? ==> State() == Produce(old(State()), m, uploaded, sender).0 && res == Ok(Produce(old(State()), m, uploaded, sender).1)
    {
      ghost var db0 := State();
      var contactId := FindOrCreateContact(m, sender.userId, reject);
      if contactId.Err? {
        UntilAtContact(db0, m, uploaded, sender, reject);
        return Err(contactId.error);
      }
      if reject == Some(RecordCreate) {
        UntilAtRecord(db0, m, uploaded, sender);
        return Err(RecordCreate);
      }
      var rec := EmailSentRecord(nextId, m.subject, m.body, PENDING, contactId.value, m.platform.GetOr(""), sender.userId);
      emails := emails + [rec];
      nextId := nextId + 1;
      assert uploaded[..0] == [];
      RecordAndRowsFromParts(db0, m, uploaded, sender, 0, State(), rec);
      UntilAfterRecord(db0, m, uploaded, sender, reject);
      res := WriteRowsAndJob(m, uploaded, sender, reject, rec);
    }

    /** The rest of a chain once its record `rec` exists: the attachment rows, then the job. */
    method WriteRowsAndJob(m: Mail, uploaded: seq<S3.Uploaded>, sender: Sender, reject: Option<StoreCall>, rec: EmailSentRecord)
      returns (res: Result<EmailSentRecord, StoreCall>)
      modifies this`attachments, this`nextId, this`jobs
      ensures (State(), res) == AfterRecord(old(State()), rec, m, uploaded, sender, reject)
    {
      var created, rejected := CreateAttachments(uploaded, rec.id, reject);
      if rejected {
        return Err(reject.value);
      }
      if reject == Some(QueueAdd) {
        return Err(QueueAdd);
      }
      var attachmentIds: seq<string> := [];
      if |uploaded| > 0 {
        AttachmentIdsAreUploadUrls(uploaded, old(nextId), rec.id);
        attachmentIds := FileUrls(created);
      }
      jobs := jobs + [QueuedJob(MailQueue.ProducerQueueName,
        JobData(sender.userId, rec.id, m.recipient, m.subject, m.jobBody, attachmentIds, sender.appUsername, sender.appPassword))];
      res := Ok(rec);
    }

    /** `Promise.all(list.map(...))` run in list order; chain `i` stops at the call `rejects[i]` names. */
    method ProduceAll(mails: seq<Mail>, rejects: seq<Option<StoreCall>>, uploaded: seq<S3.Uploaded>, sender: Sender)
      returns (results: seq<Result<EmailSentRecord, StoreCall>>)
      requires |rejects| == |mails|
      modifies this
      ensures (State(), results) == FanOutUntil(old(State()), mails, rejects, uploaded, sender)
      ensures (forall i :: 0 <= i < |rejects| ==> rejects[i].None?) ==>
        State() == FanOut(old(State()), mails, uploaded, sender).0 && Settle(results) == Ok(FanOut(old(State()), mails, uploaded, sender).1)
    {
      ghost var db0 := State();
      results := [];
      var i := 0;
      while i < |mails|
        invariant 0 <= i <= |mails|
        invariant (State(), results) == FanOutUntil(db0, mails[..i], rejects[..i], uploaded, sender)
      {
        assert mails[..i + 1][..i] == mails[..i] && rejects[..i + 1][..i] == rejects[..i];
        var res := ProduceOne(mails[i], uploaded, sender, rejects[i]);
        results := results + [res];
        i := i + 1;
      }
      assert mails[..|mails|] == mails && rejects[..|rejects|] == rejects;
      SettleNoRejects(db0, mails, rejects, uploaded, sender);
    }

    /**
     * `sendMail`: uploads, then the fan-out over the recipients, then 200 with
     * the records, or the first rejected store call once the chains settle.
     */
    method SendMail(req: SendMailRequest, userId: string, env: S3.S3Env, files: Option<seq<UploadAttempt>>,
                    rejects: seq<Option<StoreCall>>) returns (out: Outcome)
      requires |rejects| == |AsList(req.recipients)|
      modifies this
      ensures UploadAll(env, files).Err? ==> out == UploadAll(env, files).error && State() == old(State())
      ensures UploadAll(env, files).Ok? ==>
        var (db', results) := FanOutUntil(old(State()), SendMailMails(req), rejects, UploadAll(env, files).value, Sender(userId, req.appUsername, req.appPassword));
        State() == db' && out == FanOutReply(results)
      ensures UploadAll(env, files).Ok? && (forall i :: 0 <= i < |rejects| ==> rejects[i].None?) ==>
        var (db', recs) := FanOut(old(State()), SendMailMails(req), UploadAll(env, files).value, Sender(userId, req.appUsername, req.appPassword));
        State() == db' && out == Responded(200, true, QueuedMessage, recs)
    {
      var uploads := UploadAll(env, files);
      if uploads.Err? {
        return uploads.error;
      }
      var results := ProduceAll(SendMailMails(req), rejects, uploads.value, Sender(userId, req.appUsername, req.appPassword));
      out := FanOutReply(results);
    }

    /**
     * `bulkMailSender`: the JSON is parsed first, then the files are uploaded,
     * and only then is an empty list refused with 400. The store uses the
     * corrected job body.
     */
    method BulkMailSender(parsed: Result<OneOrMany<BulkMail>, string>, appUsername: string, appPassword: string,
                          userId: string, env: S3.S3Env, files: Option<seq<UploadAttempt>>,
                          rejects: seq<Option<StoreCall>>) returns (out: Outcome)
      requires parsed.Ok? ==> |rejects| == |AsList(parsed.value)|
      modifies this
      ensures parsed.Err? ==> out == Raised(None, parsed.error) && State() == old(State())
      ensures parsed.Ok? && UploadAll(env, files).Err? ==> out == UploadAll(env, files).error && State() == old(State())
      ensures parsed.Ok? && UploadAll(env, files).Ok? && AsList(parsed.value) == [] ==>
        out == Responded(400, false, NoEmailsMessage, []) && State() == old(State())
      ensures parsed.Ok? && UploadAll(env, files).Ok? && AsList(parsed.value) != [] ==>
        var emails := AsList(parsed.value);
        var mails := seq(|emails|, i requires 0 <= i < |emails| => BulkMailCorrected(emails[i]));
        var (db', results) := FanOutUntil(old(State()), mails, rejects, UploadAll(env, files).value, Sender(userId, appUsername, appPassword));
        State() == db' && out == FanOutReply(results)
      ensures parsed.Ok? && UploadAll(env, files).Ok? && AsList(parsed.value) != [] && (forall i :: 0 <= i < |rejects| ==> rejects[i].None?) ==>
        var emails := AsList(parsed.value);
        var mails := seq(|emails|, i requires 0 <= i < |emails| => BulkMailCorrected(emails[i]));
        var (db', recs) := FanOut(old(State()), mails, UploadAll(env, files).value, Sender(userId, appUsername, appPassword));
        State() == db' && out == Responded(200, true, QueuedMessage, recs)
    {
      if parsed.Err? {
        return Raised(None, parsed.error);
      }
      var emails := AsList(parsed.value);
      var uploads := UploadAll(env, files);
      if uploads.Err? {
        return uploads.error;
      }
      if |emails| == 0 {
        return Responded(400, false, NoEmailsMessage, []);
      }
      var mails := seq(|emails|, i requires 0 <= i < |emails| => BulkMailCorrected(emails[i]));
      var results := ProduceAll(mails, rejects, uploads.value, Sender(userId, appUsername, appPassword));
      out := FanOutReply(results);
    }
  }
}
