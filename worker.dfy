/**
 * The mail worker (worker/src/index.ts): for each job it derives attachment
 * file names, downloads the attachments (dropping the ones that fail),
 * assembles the message, hands it to the SMTP transport built from the job's
 * own credentials, and drives the status of the job's EmailSent record.
 *
 * The outside world enters as inputs: what the URL parser makes of an
 * attachment URL, whether each download, each delivery and each database
 * write succeeds. The queue library's retry loop is modelled by `RunJob`
 * under the rule stated in module `MailQueue`.
 */
module Worker {
  import opened Wrappers
  import opened Bytes
  import opened Strings
  import opened MailJob
  import MailQueue

  const DefaultFilename: string := "attachment"

  /** `r` is the last `/`-separated segment of `p`. */
  predicate IsLastSegment(p: string, r: string) {
    '/' !in r && |r| <= |p| && p[|p| - |r|..] == r && (|r| == |p| || p[|p| - |r| - 1] == '/')
  }

  /**
   * `getFilenameFromUrl`. `pathname` is what `new URL(url).pathname` yields,
   * `None` when the URL does not parse.
   */
  function GetFilenameFromUrl(pathname: Option<string>): (r: string)
    ensures r != "" && '/' !in r
    ensures pathname.None? ==> r == DefaultFilename
    ensures pathname.Some? && pathname.value != "" && pathname.value[|pathname.value| - 1] != '/' ==>
      IsLastSegment(pathname.value, r)
    ensures pathname.Some? && (pathname.value == "" || pathname.value[|pathname.value| - 1] == '/') ==>
      r == DefaultFilename
  {
    match pathname
    case None => DefaultFilename
    case Some(p) =>
      var segment := LastSegment(p);
      if segment == "" then DefaultFilename else segment
  }

  datatype Download = Downloaded(content: seq<byte>) | DownloadFailed

  /** What the environment answers for one attachment URL: the parsed pathname and the download outcome. */
  datatype AttachmentSource = AttachmentSource(url: string, pathname: Option<string>, download: Download)

  datatype EmailAttachment = EmailAttachment(filename: string, content: seq<byte>)

  /** The sources describe exactly the job's attachment URLs, in order. */
  predicate SourcesFor(job: JobData, sources: seq<AttachmentSource>) {
    |sources| == |job.attachmentIds|
    && forall i :: 0 <= i < |sources| ==> sources[i].url == job.attachmentIds[i]
  }

  /** The body of one `attachmentIds.map` callback: the attachment, or `null` when the download threw. */
  function FetchAttachment(src: AttachmentSource): (a: Option<EmailAttachment>)
    ensures a.Some? <==> src.download.Downloaded?
    ensures a.Some? ==> a.value == EmailAttachment(GetFilenameFromUrl(src.pathname), src.download.content)
  {
    match src.download
    case Downloaded(content) => Some(EmailAttachment(GetFilenameFromUrl(src.pathname), content))
    case DownloadFailed => None
  }

  /** How many of the downloads succeeded. */
  function CountDownloaded(sources: seq<AttachmentSource>): nat
    decreases |sources|
  {
    if sources == [] then 0
    else (if sources[0].download.Downloaded? then 1 else 0) + CountDownloaded(sources[1..])
  }

  /** `Promise.all` over the map, then `filter(a => a !== null)`. */
  function CollectAttachments(sources: seq<AttachmentSource>): (r: seq<EmailAttachment>)
    ensures |r| == CountDownloaded(sources) <= |sources|
    decreases |sources|
  {
    if sources == [] then []
    else
      (match FetchAttachment(sources[0]) case Some(a) => [a] case None => [])
      + CollectAttachments(sources[1..])
  }

  /** Collecting distributes over concatenation, so the successful attachments keep their order. */
  lemma {:induction false} CollectAppend(xs: seq<AttachmentSource>, ys: seq<AttachmentSource>)
    ensures CollectAttachments(xs + ys) == CollectAttachments(xs) + CollectAttachments(ys)
    decreases |xs|
  {
    if xs == [] {
      assert xs + ys == ys;
    } else {
      assert (xs + ys)[0] == xs[0];
      assert (xs + ys)[1..] == xs[1..] + ys;
      CollectAppend(xs[1..], ys);
    }
  }

  /** A download that throws is dropped and nothing else changes. */
  lemma FailedDownloadDropped(xs: seq<AttachmentSource>, failed: AttachmentSource, ys: seq<AttachmentSource>)
    requires failed.download.DownloadFailed?
    ensures CollectAttachments(xs + [failed] + ys) == CollectAttachments(xs) + CollectAttachments(ys)
  {
    CollectAppend(xs + [failed], ys);
    CollectAppend(xs, [failed]);
  }

  /** When every download succeeds, the attachments correspond one-to-one with the URLs. */
  lemma {:induction false} AllDownloadedKeepsEvery(sources: seq<AttachmentSource>)
    requires forall i :: 0 <= i < |sources| ==> sources[i].download.Downloaded?
    ensures |CollectAttachments(sources)| == |sources|
    ensures forall i :: 0 <= i < |sources| ==>
      CollectAttachments(sources)[i] == EmailAttachment(GetFilenameFromUrl(sources[i].pathname), sources[i].download.content)
    decreases |sources|
  {
    if sources != [] {
      AllDownloadedKeepsEvery(sources[1..]);
    }
  }

  /** A job with two attachment URLs, one of which fails, gets exactly the other one. */
  lemma OneOfTwoFails(good: AttachmentSource, bad: AttachmentSource)
    requires good.download.Downloaded? && bad.download.DownloadFailed?
    ensures CollectAttachments([good, bad]) == [EmailAttachment(GetFilenameFromUrl(good.pathname), good.download.content)]
    ensures CollectAttachments([bad, good]) == [EmailAttachment(GetFilenameFromUrl(good.pathname), good.download.content)]
  {
    assert [good, bad][1..] == [bad];
    assert [bad, good][1..] == [good];
  }

  /** `mailOptions`. */
  datatype MailOptions = MailOptions(from: string, to: string, subject: string, html: string, attachments: seq<EmailAttachment>)

  function BuildMailOptions(job: JobData, attachments: seq<EmailAttachment>): (m: MailOptions)
    ensures m.from == job.appUsername && m.to == job.recipient
    ensures m.subject == job.subject && m.html == job.body
    ensures |m.attachments| == |attachments|
    ensures forall i :: 0 <= i < |attachments| ==>
      m.attachments[i].filename == attachments[i].filename && m.attachments[i].content == attachments[i].content
  {
    MailOptions(job.appUsername, job.recipient, job.subject, job.body,
      seq(|attachments|, i requires 0 <= i < |attachments| => EmailAttachment(attachments[i].filename, attachments[i].content)))
  }

  /** The message the processor builds for a job: its attachments are those of the successful downloads. */
  function JobMessage(job: JobData, sources: seq<AttachmentSource>): MailOptions {
    BuildMailOptions(job, if |job.attachmentIds| > 0 then CollectAttachments(sources) else [])
  }

  /** A job without attachment URLs yields a message without attachments. */
  lemma NoAttachmentIdsNoAttachments(job: JobData, sources: seq<AttachmentSource>)
    requires SourcesFor(job, sources) && job.attachmentIds == []
    ensures JobMessage(job, sources).attachments == []
  {
  }

  /** The message carries at most one attachment per URL and exactly one per successful download. */
  lemma MessageAttachmentCount(job: JobData, sources: seq<AttachmentSource>)
    requires SourcesFor(job, sources)
    ensures |JobMessage(job, sources).attachments| == CountDownloaded(sources) <= |job.attachmentIds|
  {
  }

  /** The nodemailer transport: SMTP host and port from the environment, credentials from the job. */
  datatype Transport = Transport(host: string, port: int, secure: bool, user: string, pass: string)

  function CreateTransport(smtpHost: string, smtpPort: int, job: JobData): (t: Transport)
    ensures t.host == smtpHost && t.port == smtpPort
    ensures t.secure <==> smtpPort == 465
    ensures t.user == job.appUsername && t.pass == job.appPassword
  {
    Transport(smtpHost, smtpPort, smtpPort == 465, job.appUsername, job.appPassword)
  }

  datatype SendOutcome = Delivered | Rejected(error: string)

  /**
   * One attempt's environment: the answers for the attachment URLs, the
   * transport's verdict, and whether the processor's and the event
   * handler's database writes reach the database.
   */
  datatype Attempt = Attempt(sources: seq<AttachmentSource>, send: SendOutcome, catchWriteOk: bool, handlerWriteOk: bool)

  /** `prisma.emailSent.update`: it changes the record when the database answers and the record exists. */
  function Updated(st: map<nat, Status>, id: nat, s: Status, ok: bool): (st': map<nat, Status>)
    ensures st'.Keys == st.Keys
    ensures forall other :: other in st && other != id ==> st'[other] == st[other]
    ensures id in st ==> st'[id] == if ok then s else st[id]
  {
    if ok && id in st then st[id := s] else st
  }

  /** The write the update performs, if any. */
  function Written(st: map<nat, Status>, id: nat, s: Status, ok: bool): seq<(nat, Status)> {
    if ok && id in st then [(id, s)] else []
  }

  /** The attempts the library makes with a budget of `budget`: up to the first delivery. */
  function AttemptsUsed(attempts: seq<Attempt>, budget: nat): (n: nat)
    ensures n <= budget && n <= |attempts|
    decreases |attempts|
  {
    if budget == 0 || attempts == [] then 0
    else if attempts[0].send.Delivered? then 1
    else 1 + AttemptsUsed(attempts[1..], budget - 1)
  }

  /** When attempt `k` is the first to deliver within the budget, the library makes exactly `k + 1` attempts. */
  lemma {:induction false} AttemptsUsedFirstDelivery(attempts: seq<Attempt>, budget: nat, k: nat)
    requires k < |attempts| && k < budget && attempts[k].send.Delivered?
    requires forall j :: 0 <= j < k ==> attempts[j].send.Rejected?
    ensures AttemptsUsed(attempts, budget) == k + 1
    decreases k
  {
    if k > 0 {
      assert attempts[0].send.Rejected?;
      forall j | 0 <= j < k - 1 ensures attempts[1..][j].send.Rejected? {
        assert attempts[1..][j] == attempts[j + 1];
      }
      AttemptsUsedFirstDelivery(attempts[1..], budget - 1, k - 1);
    }
  }

  /** When no attempt within the budget delivers, the library uses the whole budget, or every attempt there is. */
  lemma {:induction false} AttemptsUsedNoDelivery(attempts: seq<Attempt>, budget: nat)
    requires forall j :: 0 <= j < |attempts| && j < budget ==> attempts[j].send.Rejected?
    ensures AttemptsUsed(attempts, budget) == if budget < |attempts| then budget else |attempts|
    decreases |attempts|
  {
    if budget > 0 && attempts != [] {
      assert attempts[0].send.Rejected?;
      forall j | 0 <= j < |attempts[1..]| && j < budget - 1 ensures attempts[1..][j].send.Rejected? {
        assert attempts[1..][j] == attempts[j + 1];
      }
      AttemptsUsedNoDelivery(attempts[1..], budget - 1);
    }
  }

  /** Some attempt within the budget delivers. */
  predicate DeliveredWithin(attempts: seq<Attempt>, budget: nat) {
    exists k :: 0 <= k < |attempts| && k < budget && attempts[k].send.Delivered?
  }

  /**
   * The status table after one attempt and the event it raises: on delivery
   * the `completed` handler writes `DONE`; on a failure the processor's catch
   * writes `FAILED` and then the `failed` handler writes `FAILED` again.
   */
  function AfterAttempt(st: map<nat, Status>, id: nat, a: Attempt): (st': map<nat, Status>)
    ensures st'.Keys == st.Keys
    ensures forall other :: other in st && other != id ==> st'[other] == st[other]
    ensures id in st && a.send.Delivered? ==> st'[id] == if a.handlerWriteOk then DONE else st[id]
    ensures id in st && !a.send.Delivered? ==> st'[id] == if a.catchWriteOk || a.handlerWriteOk then FAILED else st[id]
  {
    if a.send.Delivered? then Updated(st, id, DONE, a.handlerWriteOk)
    else Updated(Updated(st, id, FAILED, a.catchWriteOk), id, FAILED, a.handlerWriteOk)
  }

  function AttemptWrites(st: map<nat, Status>, id: nat, a: Attempt): seq<(nat, Status)> {
    if a.send.Delivered? then Written(st, id, DONE, a.handlerWriteOk)
    else Written(st, id, FAILED, a.catchWriteOk) + Written(Updated(st, id, FAILED, a.catchWriteOk), id, FAILED, a.handlerWriteOk)
  }

  /** The status table after the library has run the job with the given attempt budget. */
  function RunStatus(st: map<nat, Status>, id: nat, attempts: seq<Attempt>, budget: nat): map<nat, Status>
    decreases |attempts|
  {
    if budget == 0 || attempts == [] then st
    else if attempts[0].send.Delivered? then AfterAttempt(st, id, attempts[0])
    else RunStatus(AfterAttempt(st, id, attempts[0]), id, attempts[1..], budget - 1)
  }

  /** The successful status writes of that run, in order: the record's status history. */
  function RunWrites(st: map<nat, Status>, id: nat, attempts: seq<Attempt>, budget: nat): seq<(nat, Status)>
    decreases |attempts|
  {
    if budget == 0 || attempts == [] then []
    else if attempts[0].send.Delivered? then AttemptWrites(st, id, attempts[0])
    else AttemptWrites(st, id, attempts[0]) + RunWrites(AfterAttempt(st, id, attempts[0]), id, attempts[1..], budget - 1)
  }

  /** Every database write of every attempt goes through. */
  predicate WritesSucceed(attempts: seq<Attempt>) {
    forall k :: 0 <= k < |attempts| ==> attempts[k].catchWriteOk && attempts[k].handlerWriteOk
  }

  /**
   * With a working database the record ends `DONE` exactly when some attempt
   * within the budget delivers, `FAILED` when at least one attempt was made
   * and none delivered, and is untouched when no attempt was made.
   */
  lemma {:induction false} RunFinalStatus(st: map<nat, Status>, id: nat, attempts: seq<Attempt>, budget: nat)
    requires id in st && WritesSucceed(attempts)
    ensures RunStatus(st, id, attempts, budget).Keys == st.Keys
    ensures DeliveredWithin(attempts, budget) ==> RunStatus(st, id, attempts, budget)[id] == DONE
    ensures !DeliveredWithin(attempts, budget) && budget > 0 && attempts != [] ==> RunStatus(st, id, attempts, budget)[id] == FAILED
    ensures budget == 0 || attempts == [] ==> RunStatus(st, id, attempts, budget) == st
    decreases |attempts|
  {
    if budget == 0 || attempts == [] {
    } else if attempts[0].send.Delivered? {
      assert DeliveredWithin(attempts, budget);
    } else {
      var tail := attempts[1..];
      assert WritesSucceed(tail) by {
        forall k | 0 <= k < |tail| ensures tail[k].catchWriteOk && tail[k].handlerWriteOk {
          assert tail[k] == attempts[k + 1];
        }
      }
      RunFinalStatus(AfterAttempt(st, id, attempts[0]), id, tail, budget - 1);
      assert DeliveredWithin(attempts, budget) <==> DeliveredWithin(tail, budget - 1) by {
        if DeliveredWithin(attempts, budget) {
          var k :| 0 <= k < |attempts| && k < budget && attempts[k].send.Delivered?;
          assert k > 0 && tail[k - 1] == attempts[k];
        }
        if DeliveredWithin(tail, budget - 1) {
          var k :| 0 <= k < |tail| && k < budget - 1 && tail[k].send.Delivered?;
          assert attempts[k + 1] == tail[k];
        }
      }
    }
  }

  /** A run changes no record but the job's own. */
  lemma {:induction false} RunLeavesOtherRecords(st: map<nat, Status>, id: nat, attempts: seq<Attempt>, budget: nat, other: nat)
    requires other in st && other != id
    ensures other in RunStatus(st, id, attempts, budget) && RunStatus(st, id, attempts, budget)[other] == st[other]
    decreases |attempts|
  {
    if budget > 0 && attempts != [] && !attempts[0].send.Delivered? {
      RunLeavesOtherRecords(AfterAttempt(st, id, attempts[0]), id, attempts[1..], budget - 1, other);
    }
  }

  /**
   * Status is not monotonic: a job that fails once and then delivers moves its
   * record PENDING -> FAILED -> DONE, because the catch path and the `failed`
   * handler write FAILED on every failed attempt.
   */
  lemma RetryThenDeliveryHistory(st: map<nat, Status>, id: nat, e: string, fail: seq<AttachmentSource>, ok: seq<AttachmentSource>)
    requires id in st && st[id] == PENDING
    ensures var attempts := [Attempt(fail, Rejected(e), true, true), Attempt(ok, Delivered, true, true)];
      RunWrites(st, id, attempts, MailQueue.DefaultJobOptions.attempts) == [(id, FAILED), (id, FAILED), (id, DONE)]
      && RunStatus(st, id, attempts, MailQueue.DefaultJobOptions.attempts) == st[id := DONE]
  {
    var attempts := [Attempt(fail, Rejected(e), true, true), Attempt(ok, Delivered, true, true)];
    var st1 := AfterAttempt(st, id, attempts[0]);
    assert st1 == st[id := FAILED];
    assert AttemptWrites(st, id, attempts[0]) == [(id, FAILED), (id, FAILED)];
    assert attempts[1..] == [attempts[1]];
    RunStepRejected(st, id, attempts, MailQueue.DefaultJobOptions.attempts);
    assert RunStatus(st1, id, attempts[1..], 2) == st1[id := DONE];
    assert RunWrites(st1, id, attempts[1..], 2) == [(id, DONE)];
  }

  /** The transports and messages of the first `n` attempts, in order. */
  function Handed(host: string, port: int, job: JobData, attempts: seq<Attempt>, n: nat): (r: seq<(Transport, MailOptions)>)
    requires n <= |attempts|
    ensures |r| == n
    ensures forall k :: 0 <= k < n ==> r[k] == (CreateTransport(host, port, job), JobMessage(job, attempts[k].sources))
  {
    if n == 0 then [] else Handed(host, port, job, attempts, n - 1) + [(CreateTransport(host, port, job), JobMessage(job, attempts[n - 1].sources))]
  }

  /** Handing one more attempt's message extends the outbox by that message. */
  lemma HandedStep(out0: seq<(Transport, MailOptions)>, host: string, port: int, job: JobData, attempts: seq<Attempt>, n: nat)
    requires n < |attempts|
    ensures out0 + Handed(host, port, job, attempts, n + 1)
      == (out0 + Handed(host, port, job, attempts, n)) + [(CreateTransport(host, port, job), JobMessage(job, attempts[n].sources))]
  {
    AppendAssoc(out0, Handed(host, port, job, attempts, n), [(CreateTransport(host, port, job), JobMessage(job, attempts[n].sources))]);
  }

  lemma AppendAssoc<T>(a: seq<T>, b: seq<T>, c: seq<T>)
    ensures a + (b + c) == (a + b) + c
  {
  }

  /** Unfolding a run by one failed attempt. */
  lemma RunStepRejected(st: map<nat, Status>, id: nat, attempts: seq<Attempt>, budget: nat)
    requires attempts != [] && budget > 0 && attempts[0].send.Rejected?
    ensures RunStatus(st, id, attempts, budget) == RunStatus(AfterAttempt(st, id, attempts[0]), id, attempts[1..], budget - 1)
    ensures RunWrites(st, id, attempts, budget) == AttemptWrites(st, id, attempts[0]) + RunWrites(AfterAttempt(st, id, attempts[0]), id, attempts[1..], budget - 1)
    ensures AttemptsUsed(attempts, budget) == 1 + AttemptsUsed(attempts[1..], budget - 1)
  {
  }

  /** Unfolding a run whose first attempt delivers. */
  lemma RunStepDelivered(st: map<nat, Status>, id: nat, attempts: seq<Attempt>, budget: nat)
    requires attempts != [] && budget > 0 && attempts[0].send.Delivered?
    ensures RunStatus(st, id, attempts, budget) == AfterAttempt(st, id, attempts[0])
    ensures RunWrites(st, id, attempts, budget) == AttemptWrites(st, id, attempts[0])
    ensures AttemptsUsed(attempts, budget) == 1
  {
  }

  /** What remains of a run: `rem` still to try under budget `left`, after `made` attempts that wrote `w` and left `st`. */
  predicate Remaining(st: map<nat, Status>, id: nat, rem: seq<Attempt>, left: nat, w: seq<(nat, Status)>, made: nat,
                      finalStatus: map<nat, Status>, finalWrites: seq<(nat, Status)>, used: nat) {
    used == made + AttemptsUsed(rem, left)
    && finalStatus == RunStatus(st, id, rem, left)
    && finalWrites == w + RunWrites(st, id, rem, left)
  }

  /** One iteration of the attempt loop, stated on values: a delivery ends the run, a rejection leaves the rest. */
  lemma RunLoopStep(st: map<nat, Status>, id: nat, rem: seq<Attempt>, left: nat, w: seq<(nat, Status)>, made: nat,
                    finalStatus: map<nat, Status>, finalWrites: seq<(nat, Status)>, used: nat)
    requires rem != [] && left > 0
    requires Remaining(st, id, rem, left, w, made, finalStatus, finalWrites, used)
    ensures rem[0].send.Delivered? ==>
      used == made + 1 && finalStatus == AfterAttempt(st, id, rem[0]) && finalWrites == w + AttemptWrites(st, id, rem[0])
    ensures rem[0].send.Rejected? ==>
      Remaining(AfterAttempt(st, id, rem[0]), id, rem[1..], left - 1, w + AttemptWrites(st, id, rem[0]), made + 1,
                finalStatus, finalWrites, used)
  {
    if rem[0].send.Delivered? {
      RunStepDelivered(st, id, rem, left);
    } else {
      RunStepRejected(st, id, rem, left);
      AppendAssoc(w, AttemptWrites(st, id, rem[0]), RunWrites(AfterAttempt(st, id, rem[0]), id, rem[1..], left - 1));
    }
  }

  /** An exhausted run (no attempt left, or no budget) changes nothing more. */
  lemma RunExhausted(st: map<nat, Status>, id: nat, rem: seq<Attempt>, left: nat)
    requires rem == [] || left == 0
    ensures AttemptsUsed(rem, left) == 0 && RunStatus(st, id, rem, left) == st && RunWrites(st, id, rem, left) == []
  {
  }

  /**
   * The worker's view of the world: the EmailSent status table, the history
   * of successful status writes, the current job's attempt counter and every
   * message handed to the transport.
   */
  class EmailWorker {
    var status: map<nat, Status>
    var writes: seq<(nat, Status)>
    var attemptsMade: nat
    var outbox: seq<(Transport, MailOptions)>
    const smtpHost: string
    const smtpPort: int

    constructor (table: map<nat, Status>, host: string, port: int)
      ensures status == table && writes == [] && attemptsMade == 0 && outbox == []
      ensures smtpHost == host && smtpPort == port
    {
      status, writes, attemptsMade, outbox := table, [], 0, [];
      smtpHost, smtpPort := host, port;
    }

    /** One `prisma.emailSent.update` of the record's status; `ok` is false when it throws. */
    method UpdateStatus(id: nat, s: Status, dbOk: bool) returns (ok: bool)
      modifies this`status, this`writes
      ensures ok <==> dbOk && id in old(status)
      ensures status == Updated(old(status), id, s, dbOk)
      ensures writes == old(writes) + Written(old(status), id, s, dbOk)
    {
      ok := dbOk && id in status;
      if ok {
        status := status[id := s];
        writes := writes + [(id, s)];
      }
    }

    /**
     * The processor for one attempt. A rejected delivery writes FAILED (a
     * database error there is swallowed) and rethrows the delivery error.
     */
    method Process(job: JobData, a: Attempt) returns (r: Result<(), string>)
      requires SourcesFor(job, a.sources)
      modifies this`status, this`writes, this`outbox
      ensures outbox == old(outbox) + [(CreateTransport(smtpHost, smtpPort, job), JobMessage(job, a.sources))]
      ensures a.send.Delivered? ==> r == Ok(()) && status == old(status) && writes == old(writes)
      ensures a.send.Rejected? ==> r == Err(a.send.error)
      ensures a.send.Rejected? ==> status == Updated(old(status), job.emailId, FAILED, a.catchWriteOk)
      ensures a.send.Rejected? ==> writes == old(writes) + Written(old(status), job.emailId, FAILED, a.catchWriteOk)
    {
      var transport := CreateTransport(smtpHost, smtpPort, job);
      var attachments: seq<EmailAttachment> := [];
      if |job.attachmentIds| > 0 {
        attachments := CollectAttachments(a.sources);
      }
      var mailOptions := BuildMailOptions(job, attachments);
      outbox := outbox + [(transport, mailOptions)];
      match a.send
      case Delivered =>
        r := Ok(());
      case Rejected(e) =>
        var _ := UpdateStatus(job.emailId, FAILED, a.catchWriteOk);
        r := Err(e);
    }

    /**
     * The `completed` handler: the record becomes DONE. The listener has no
     * catch, so a failed update is an unhandled rejection: `unhandled` is true
     * exactly when the write throws (database error or missing record).
     */
    method OnCompleted(job: JobData, dbOk: bool) returns (unhandled: bool)
      modifies this`status, this`writes
      ensures unhandled <==> !dbOk || job.emailId !in old(status)
      ensures status == Updated(old(status), job.emailId, DONE, dbOk)
      ensures writes == old(writes) + Written(old(status), job.emailId, DONE, dbOk)
    {
      var ok := UpdateStatus(job.emailId, DONE, dbOk);
      unhandled := !ok;
    }

    /** The `failed` handler: the record becomes FAILED when there is a job, and nothing is written otherwise. */
    method OnFailed(job: Option<JobData>, dbOk: bool)
      modifies this`status, this`writes
      ensures job.None? ==> status == old(status) && writes == old(writes)
      ensures job.Some? ==> status == Updated(old(status), job.value.emailId, FAILED, dbOk)
      ensures job.Some? ==> writes == old(writes) + Written(old(status), job.value.emailId, FAILED, dbOk)
    {
      if job.Some? {
        var _ := UpdateStatus(job.value.emailId, FAILED, dbOk);
      }
    }

    /** One attempt followed by the event handler it triggers; `delivered` tells which. */
    method RunAttempt(job: JobData, a: Attempt) returns (delivered: bool)
      requires SourcesFor(job, a.sources)
      modifies this`status, this`writes, this`outbox
      ensures delivered <==> a.send.Delivered?
      ensures status == AfterAttempt(old(status), job.emailId, a)
      ensures writes == old(writes) + AttemptWrites(old(status), job.emailId, a)
      ensures outbox == old(outbox) + [(CreateTransport(smtpHost, smtpPort, job), JobMessage(job, a.sources))]
    {
      var r := Process(job, a);
      if r.Ok? {
        var _ := OnCompleted(job, a.handlerWriteOk);
        delivered := true;
      } else {
        OnFailed(Some(job), a.handlerWriteOk);
        delivered := false;
      }
    }

    /**
     * The queue library running one job: attempt after attempt until one
     * delivers or the policy's attempts are used up, raising `completed` or
     * `failed` after each.
     */
    method RunJob(job: JobData, attempts: seq<Attempt>)
      requires forall k :: 0 <= k < |attempts| ==> SourcesFor(job, attempts[k].sources)
      modifies this`status, this`writes, this`outbox, this`attemptsMade
      ensures attemptsMade == AttemptsUsed(attempts, MailQueue.DefaultJobOptions.attempts)
      ensures attemptsMade <= MailQueue.DefaultJobOptions.attempts
      ensures status == RunStatus(old(status), job.emailId, attempts, MailQueue.DefaultJobOptions.attempts)
      ensures writes == old(writes) + RunWrites(old(status), job.emailId, attempts, MailQueue.DefaultJobOptions.attempts)
      ensures outbox == old(outbox) + Handed(smtpHost, smtpPort, job, attempts, attemptsMade)
    {
      var budget := MailQueue.DefaultJobOptions.attempts;
      ghost var st0, w0, out0 := status, writes, outbox;
      ghost var finalStatus := RunStatus(st0, job.emailId, attempts, budget);
      ghost var finalWrites := w0 + RunWrites(st0, job.emailId, attempts, budget);
      ghost var used := AttemptsUsed(attempts, budget);
      ghost var rem, left := attempts, budget;
      attemptsMade := 0;
      var done := false;
      while !done && attemptsMade < |attempts| && attemptsMade < budget
        invariant attemptsMade <= |attempts| && attemptsMade <= budget
        invariant rem == attempts[attemptsMade..] && left == budget - attemptsMade
        invariant done ==> used == attemptsMade && status == finalStatus && writes == finalWrites
        invariant !done ==> Remaining(status, job.emailId, rem, left, writes, attemptsMade, finalStatus, finalWrites, used)
        invariant outbox == out0 + Handed(smtpHost, smtpPort, job, attempts, attemptsMade)
        decreases budget - attemptsMade, if done then 0 else 1
      {
        var a := attempts[attemptsMade];
        assert rem[0] == a && rem[1..] == attempts[attemptsMade + 1..];
        RunLoopStep(status, job.emailId, rem, left, writes, attemptsMade, finalStatus, finalWrites, used);
        var delivered := RunAttempt(job, a);
        HandedStep(out0, smtpHost, smtpPort, job, attempts, attemptsMade);
        if delivered {
          done := true;
        }
        attemptsMade := attemptsMade + 1;
        rem, left := rem[1..], left - 1;
      }
      if !done {
        RunExhausted(status, job.emailId, rem, left);
      }
    }
  }
}
