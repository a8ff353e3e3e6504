# Nexora mail pipeline and boundary rules, in Dafny

Nexora is a web application for sending personalised bulk e-mail, publishing
forms and chatting with PDFs. This project models the rules at its core and
proves properties about them.

**Mail pipeline.** The centre of the model is the send pipeline:

- The mail controller fans a request out into one contact (found or created),
  one `PENDING` EmailSent record, attachment rows and one queued job per
  recipient.
- The queue's default policy is 5000 ms delay, 3 attempts and exponential
  backoff from 1000 ms.
- The worker derives attachment names, drops failed downloads, assembles the
  message and drives the record's status (`PENDING`, `FAILED`, `DONE`) through
  its processor and its `completed`/`failed` handlers.

**Bulk-mail screen.** The model covers the spreadsheet header check and row
transform, the recipient table (search, pages, page buttons, row, page and
all-row selection, the header checkbox), the composer's attachment limits and
text insertion, and the send action's validation chain and personalisation.

**Mail history view.** The model covers the transform, filter, stable sort,
distinct platforms, totals and the success rate.

**Boundary rules.** The model covers:

- the route guard;
- the client request helper (URL parameters, query, headers, body, result
  mapping);
- the backend error handler and the `AsyncHandler` wrapper;
- the PDF-chat text helpers (ASCII stripping, UTF-8 byte truncation by
  RFC 3629 encoding and WHATWG-style decoding, context clipping);
- S3 keys and URLs;
- the published-form validation and submit gate;
- the send-mail zod schema.

**Modelling choices.**

- Code that changes state step by step is modelled as classes with
  `modifies` clauses and loops:
  - `MailController.MailStore`, `Worker.EmailWorker`,
    `DataTable.TableView`, `MailHistory.HistoryView`,
    `FormSubmit.FormSubmission`, `ErrorMiddleware.HttpError`;
  - array loops in `DataTable.FindById` and `MailComposer.RemoveAttachment`.
- Each method is proved against a specification function, and the
  properties are proved on those functions.
- The following are parameters of the model:
  - the outside world: downloads, deliveries, uploads, whether database
    writes and queue adds succeed, the clock, parsed JSON and spreadsheets;
  - the foreign predicates: the e-mail regex and the form validators.

## Model

| member | source | states |
|---|---|---|
| Worker.GetFilenameFromUrl | worker/src/index.ts:40-50 | never empty and free of `/`; the last path segment when the pathname does not end in `/`; `attachment` for an unparsable URL or an empty last segment |
| Worker.FetchAttachment | worker/src/index.ts:73-90 | an attachment exactly when the download succeeds, named from the URL and holding the downloaded bytes |
| Worker.CollectAttachments | worker/src/index.ts:93-96 | one attachment per successful download, so never more than the URLs |
| Worker.CollectAppend | worker/src/index.ts:93-96 | collecting distributes over concatenation, so successful attachments keep their order |
| Worker.FailedDownloadDropped | worker/src/index.ts:83-96 | a failing URL anywhere in the list is dropped and changes nothing else |
| Worker.AllDownloadedKeepsEvery | worker/src/index.ts:72-97 | when every download succeeds the attachments match the URLs one-to-one, in order |
| Worker.OneOfTwoFails | worker/src/index.ts:72-97 | with two URLs of which one fails, in either order, exactly the other is attached |
| Worker.BuildMailOptions | worker/src/index.ts:99-108 | from is the app username, to the recipient, subject and html the job's; attachments map one-to-one with filename and content |
| Worker.JobMessage | worker/src/index.ts:70-108 | the message from `BuildMailOptions` with the successful downloads as attachments; `NoAttachmentIdsNoAttachments`, `CollectAttachments` and `FailedDownloadDropped` state which |
| Worker.NoAttachmentIdsNoAttachments | worker/src/index.ts:70-72 | a job without attachment URLs sends no attachments |
| Worker.MessageAttachmentCount | worker/src/index.ts:70-108 | the message has exactly one attachment per successful download, at most one per URL |
| Worker.CreateTransport | worker/src/index.ts:60-68 | secure iff the port is 465; host and port come from the environment, credentials from the job |
| Worker.Updated | worker/src/index.ts:117-125 | a status update changes only the named record's status, and only when the write succeeds and the record exists (the `sentAt` written beside it is not modelled) |
| Worker.AttemptsUsed | backend/src/utils/mail-queue.ts:20 | never more attempts than the budget or than there are |
| Worker.AttemptsUsedFirstDelivery | backend/src/utils/mail-queue.ts:20 | when attempt k is the first to deliver within the budget, exactly k + 1 attempts are made |
| Worker.AttemptsUsedNoDelivery | backend/src/utils/mail-queue.ts:20 | when none delivers within the budget, the whole budget is used, or every attempt there is |
| Worker.RunFinalStatus | worker/src/index.ts:113-193 | with a working database: DONE iff some attempt within the budget delivers, FAILED if all attempts made failed, untouched if none was made |
| Worker.AfterAttempt | worker/src/index.ts:113-189 | after one attempt only the job's record changes: DONE after a delivery if the handler's write lands; after a failure FAILED if either the catch's or the handler's write lands; otherwise unchanged |
| Worker.RunLeavesOtherRecords | worker/src/index.ts:117-125 | running a job changes no record but its own |
| Worker.RetryThenDeliveryHistory | worker/src/index.ts:116-167 | fail once, then deliver: the record's writes are FAILED, FAILED, DONE, so status is not monotonic |
| Worker.Handed | worker/src/index.ts:110 | the k-th message handed to the transport is the job's message built from attempt k's downloads |
| Worker.EmailWorker.UpdateStatus | worker/src/index.ts:117-131 | the write succeeds iff the database answers and the record exists; the table and write log change accordingly |
| Worker.EmailWorker.Process | worker/src/index.ts:56-134 | hands one message to the transport; a rejected delivery writes FAILED (a database error there is swallowed) and rethrows the delivery error |
| Worker.EmailWorker.OnCompleted | worker/src/index.ts:153-168 | the record becomes DONE; the result reports an unhandled rejection exactly when the uncaught update throws (database error or missing record) |
| Worker.EmailWorker.OnFailed | worker/src/index.ts:169-193 | the record becomes FAILED when a job is given; without a job nothing is written |
| Worker.EmailWorker.RunAttempt | worker/src/index.ts:56-193 | one attempt and its event: status and writes are those of `AfterAttempt` |
| Worker.EmailWorker.RunJob | backend/src/utils/mail-queue.ts:18-24 | the attempt loop under the 3-attempt policy: attempt count, final status, write history and sent messages equal the run functions |
| MailQueue.Pow2StrictlyIncreasing | backend/src/utils/mail-queue.ts:21-24 | powers of two strictly increase |
| MailQueue.RetryDelay | backend/src/utils/mail-queue.ts:21-24 | the backoff wait before the n-th retry; `DefaultDelaysStrictlyIncrease` states its values under the default policy |
| MailQueue.EarliestStart | backend/src/utils/mail-queue.ts:18-24 | no attempt starts before the initial delay, and a retry starts no earlier than the delay plus the previous attempt's duration; `DefaultScheduleExact` gives the exact time |
| MailQueue.DefaultDelaysStrictlyIncrease | backend/src/utils/mail-queue.ts:21-24 | under the default policy the n-th retry waits 1000·2^(n−1) ms and delays strictly increase |
| MailQueue.DefaultScheduleExact | backend/src/utils/mail-queue.ts:18-24 | attempt k starts exactly 5000 ms, the earlier attempts' durations and 1000·(2^(k−1)−1) ms of backoff after the job is enqueued |
| MailQueue.DefaultLastAttempt | backend/src/utils/mail-queue.ts:18-24 | the budget is three attempts, and the last starts 8000 ms plus the two earlier durations after the job is enqueued |
| MailController.AsList | backend/src/controllers/mail.controller.ts:18-20 | a non-array value becomes a one-element list; an array is kept |
| MailController.FindContact | backend/src/controllers/mail.controller.ts:48-50 | a contact with the email whoever owns it; none iff no contact has that email |
| MailController.FindContactFirst | backend/src/controllers/mail.controller.ts:48-50 | the lookup returns the first contact with the email in the model's table order |
| MailController.AttachmentRows | backend/src/controllers/mail.controller.ts:73-85 | one row per upload, in order, with its key, name and URL, pointing at the record |
| MailController.FileUrls | backend/src/controllers/mail.controller.ts:87 | the rows' file URLs, position by position |
| MailController.AttachmentIdsAreUploadUrls | backend/src/controllers/mail.controller.ts:71-88 | the job's attachmentIds are exactly the upload URLs |
| MailController.Produce | backend/src/controllers/mail.controller.ts:46-101 | one PENDING record with the mail's subject, body and platform (default ""), appended with its job; fresh ids stay fresh |
| MailController.FanOut | backend/src/controllers/mail.controller.ts:46-103 | one record per recipient in order, one job each, earlier jobs kept |
| MailController.ProduceFindsOrCreatesContact | backend/src/controllers/mail.controller.ts:48-60 | an existing contact with the email is reused and none is added; otherwise exactly one is created |
| MailController.ProduceContactMatchesRecipient | backend/src/controllers/mail.controller.ts:48-66 | the record's contact carries the recipient's email |
| MailController.ProduceWithoutUploads | backend/src/controllers/mail.controller.ts:71-72 | no uploads means no attachment rows and empty attachmentIds |
| MailController.ProduceAttachmentRows | backend/src/controllers/mail.controller.ts:72-88 | each upload adds one row pointing at the new record with the upload's key, name and URL |
| MailController.FanOutOnePerMail | backend/src/controllers/mail.controller.ts:46-103 | record i is mail i's PENDING record, and job i names that record, the recipient and the upload URLs, on the queue name the worker (worker/src/mail-queue.ts) consumes |
| MailController.FanOutFreshIds | backend/src/controllers/mail.controller.ts:61-70 | record ids are fresh and above every earlier id; with the model's id counter they also increase in recipient order |
| MailController.UploadEach | backend/src/controllers/mail.controller.ts:28-44 | on success one upload per file |
| MailController.UploadEachSucceeds | backend/src/controllers/mail.controller.ts:28-44 | the uploads succeed iff every file's put succeeds, and then are the files' own uploads in file order |
| MailController.UploadEachFailure | backend/src/controllers/mail.controller.ts:28-44 | when some file fails, the uploads fail with a 500 naming one of the failing files |
| MailController.UploadEachSoleFailure | backend/src/controllers/mail.controller.ts:28-44 | when exactly one file fails, the 500 names that file |
| MailController.UploadAll | backend/src/controllers/mail.controller.ts:28 | nothing is uploaded unless the files are a non-empty array |
| MailController.SendMailMails | backend/src/controllers/mail.controller.ts:8-20 | one mail per recipient, all sharing subject, body, company and platform |
| MailController.BulkMailAsWritten | backend/src/controllers/mail.controller.ts:225-234 | as written: the job body is the element's subject while the record's body is its body |
| MailController.BulkJobBodyIsSubject | backend/src/controllers/mail.controller.ts:200-230 | as written, a bulk job whose body differs from its subject delivers the subject, not the stored body |
| MailController.BulkMailCorrected | backend/src/controllers/mail.controller.ts:225-234 | corrected: the job body is the stored body |
| MailController.BulkJobBodyMatchesRecord | backend/src/controllers/mail.controller.ts:197-234 | corrected, every bulk job carries exactly the body stored in its record |
| MailController.SendMailJobBodyMatchesRecord | backend/src/controllers/mail.controller.ts:61-98 | `sendMail` jobs carry the stored body |
| MailController.ExtendsTransitive | backend/src/controllers/mail.controller.ts:46-103 | a store that extends one extending a third extends the third: rows stay in place and the counter never goes back |
| MailController.RecordAndRows | backend/src/controllers/mail.controller.ts:48-85 | after the contact step, the record and the first k attachment rows: a PENDING record above the counter, k rows pointing to it, no job |
| MailController.ProduceUntil | backend/src/controllers/mail.controller.ts:47-101 | a chain without a rejected call is `Produce`; a chain whose call rejects ends with that call's error and queues no job |
| MailController.ProduceUntilKeeps | backend/src/controllers/mail.controller.ts:47-101 | whichever call rejects, the rows written before stay in place and ids stay below the counter |
| MailController.UntilAtContact | backend/src/controllers/mail.controller.ts:48-59 | a rejected lookup, or a rejected create after a miss, leaves the store as it was |
| MailController.UntilAtRecord | backend/src/controllers/mail.controller.ts:61-70 | a rejected record create leaves only the contact step's write |
| MailController.UntilAtRows | backend/src/controllers/mail.controller.ts:73-98 | a rejected attachment create or queue add leaves the record and the rows before it |
| MailController.UntilAfterRecord | backend/src/controllers/mail.controller.ts:71-101 | once the contact and the record exist, the rest of the chain is the rows loop and the queue add |
| MailController.ProduceIsRowsThenJob | backend/src/controllers/mail.controller.ts:71-98 | a completed chain is the record with all its rows, then the job |
| MailController.LookupRejectionWritesNothing | backend/src/controllers/mail.controller.ts:48-50 | a rejected `contact.findFirst` writes nothing and ends the chain with its error |
| MailController.RecordRejectionKeepsNewContact | backend/src/controllers/mail.controller.ts:51-70 | after a miss, a rejected `emailSent.create` keeps the contact just created, with no record and no job |
| MailController.AttachmentRejectionKeepsEarlierRows | backend/src/controllers/mail.controller.ts:61-85 | a rejected k-th `attachment.create` keeps the PENDING record and the k rows before it, and queues no job |
| MailController.QueueRejectionStrandsRecord | backend/src/controllers/mail.controller.ts:61-98 | a rejected `emailQueue.add` leaves a PENDING record with all its rows and no job, so the worker never sees it |
| MailController.FanOutUntil | backend/src/controllers/mail.controller.ts:46-103 | one result per recipient; the store only grows; a chain ends in an error only for the call given as rejecting |
| MailController.FanOutUntilNoRejects | backend/src/controllers/mail.controller.ts:46-103 | with no rejected call, the chains give the plain fan-out's store and records |
| MailController.CompletedJobs | backend/src/controllers/mail.controller.ts:89-98 | at most one job per mail |
| MailController.FanOutUntilJobs | backend/src/controllers/mail.controller.ts:46-103 | the jobs queued are exactly those of the completed chains, in mail order |
| MailController.Settle | backend/src/controllers/mail.controller.ts:46-47 | `Promise.all` is all the records, in order, when every chain completes; otherwise one chain's rejection |
| MailController.SettleNoRejects | backend/src/controllers/mail.controller.ts:46-103 | with no rejected call the chains settle to the fan-out's records |
| MailController.FanOutReply | backend/src/controllers/mail.controller.ts:104-112 | 200 "Emails queued for sending." with the records iff every chain completes; otherwise a rejection one chain ended with, for the error middleware |
| MailController.MailStore.FindOrCreateContact | backend/src/controllers/mail.controller.ts:48-60 | fails iff the lookup rejects or the create rejects after a miss, then writing nothing; otherwise the store and the contact id are those of `ContactFor` |
| MailController.MailStore.CreateAttachments | backend/src/controllers/mail.controller.ts:73-85 | the loop appends the rows of the uploads before the first rejected create (all of them when none rejects) and advances the counter by as many |
| MailController.MailStore.WriteRowsAndJob | backend/src/controllers/mail.controller.ts:71-101 | the rows loop and the queue add, stopping at a rejected call, leave the store and the result as `AfterRecord` gives them from the store after the record create |
| MailController.MailStore.ProduceOne | backend/src/controllers/mail.controller.ts:47-101 | the writes for one recipient, stopping at a rejected call, leave the store and the result as `ProduceUntil` says; with no rejection, as `Produce` says |
| MailController.MailStore.ProduceAll | backend/src/controllers/mail.controller.ts:46-103 | the chains leave the store and the results as `FanOutUntil` says; with no rejection, the store of `FanOut` and its records |
| MailController.MailStore.SendMail | backend/src/controllers/mail.controller.ts:8-113 | an upload failure answers the error and writes nothing; otherwise the chains' writes, kept even when one rejects, and the 200 or the rejection; with no rejection, the fan-out and 200 "Emails queued for sending." |
| MailController.MailStore.BulkMailSender | backend/src/controllers/mail.controller.ts:143-247 | parse error, then upload error, then 400 for an empty list (after the uploads), each writing nothing; otherwise the corrected chains' writes and the 200 or the rejection |
| S3.SafeName | backend/src/utils/s3.ts:19 | every space becomes `-`, every other character is kept |
| S3.FileKey | backend/src/utils/s3.ts:19 | the key starts with `nexora/`, has no space and ends with the dashed name |
| S3.FileKeyKeepsPlainName | backend/src/utils/s3.ts:19 | a name without spaces is kept verbatim after the timestamp |
| S3.S3Url | backend/src/utils/s3.ts:85-88 | `https://<bucket>.s3.<region>.amazonaws.com/` followed by the key |
| S3.S3UrlInjective | backend/src/utils/s3.ts:30 | within one bucket and region, distinct keys give distinct URLs |
| S3.S3Upload | backend/src/utils/s3.ts:6-36 | no file gives "No file provided"; a failing put gives its error; otherwise key, original name and the key's URL |
| BulkMail.Selected | frontend/components/pages/mail/bulk-mail/bulk-mail.tsx:40 | only selected rows, never more than given |
| BulkMail.SelectedMembers | frontend/components/pages/mail/bulk-mail/bulk-mail.tsx:40 | a row is kept iff it is in the data and selected |
| BulkMail.SelectedAppend | frontend/components/pages/mail/bulk-mail/bulk-mail.tsx:40 | selection distributes over concatenation, so row order is kept |
| BulkMail.FormatBody | frontend/components/pages/mail/bulk-mail/bulk-mail.tsx:72 | the formatted body contains no newline |
| BulkMail.FormatBodyAppend | frontend/components/pages/mail/bulk-mail/bulk-mail.tsx:72 | formatting distributes over concatenation, so the text keeps its order |
| BulkMail.FormatBodyChar | frontend/components/pages/mail/bulk-mail/bulk-mail.tsx:72 | a newline becomes `<br>` and every other character is kept |
| BulkMail.EmailFor | frontend/components/pages/mail/bulk-mail/bulk-mail.tsx:64-82 | name, company, email, subject and platform copied; body personalised then formatted, with no newline |
| BulkMail.PrepareBulkSend | frontend/components/pages/mail/bulk-mail/bulk-mail.tsx:38-82 | the first failing check in the order recipients, body, username, password refuses; success iff all pass, with one object per selected row in order |
| BulkMail.WhitespaceBodyRefused | frontend/components/pages/mail/bulk-mail/bulk-mail.tsx:48-52 | a body of whitespace only (newlines, tabs) is refused as empty |
| BulkMail.PlainBodyUnchanged | frontend/components/pages/mail/bulk-mail/bulk-mail.tsx:66-72 | a body without placeholders or newlines is sent as typed |
| BulkMail.LaterPassRewritesEarlier | frontend/components/pages/mail/bulk-mail/bulk-mail.tsx:66-69 | a name reading `{{platform}}` ends up as the platform: a later pass rewrites an earlier one |
| BulkMail.UnselectedRowIgnored | frontend/components/pages/mail/bulk-mail/bulk-mail.tsx:40-82 | inserting an unselected row changes nothing |
| BulkMail.Personalize | frontend/components/pages/mail/bulk-mail/bulk-mail.tsx:66-69 | the three placeholder passes in order; `PlainBodyUnchanged` and `LaterPassRewritesEarlier` state what they do |
| BulkMail.SendErrorToast | frontend/components/pages/mail/bulk-mail/bulk-mail.tsx:93-109 | `mutationFn`'s own toast: none on success; the server's message on failure; the generic message when the request throws |
| BulkMail.OnErrorToast | frontend/components/pages/mail/bulk-mail/bulk-mail.tsx:114-117 | an error toast with the error's message, or "Failed to send email" when it is empty |
| BulkMail.MutationData | frontend/components/pages/mail/bulk-mail/bulk-mail.tsx:38-109 | `mutationFn` resolves to the response iff every check passes and the server reports success; otherwise to `undefined` |
| BulkMail.MutationFnToasts | frontend/components/pages/mail/bulk-mail/bulk-mail.tsx:42-108 | a refused check shows its message; otherwise the request's error toast, if any |
| BulkMail.SendToasts | frontend/components/pages/mail/bulk-mail/bulk-mail.tsx:38-118 | as written: the history query is always invalidated; a real success shows one success toast with the server's message; every other click shows two error toasts, the second from `onError` |
| BulkMail.RefusedSendShowsTwoToasts | frontend/components/pages/mail/bulk-mail/bulk-mail.tsx:42-118 | as written, a refused send shows the check's message and then `onError`'s toast |
| BulkMail.NoRecipientsShowsTwoToasts | frontend/components/pages/mail/bulk-mail/bulk-mail.tsx:42-45 | as written, with no row selected "No recipients selected" is followed by a second error toast |
| BulkMail.SendToastsCorrected | frontend/components/pages/mail/bulk-mail/bulk-mail.tsx:110-113 | corrected: the history query is always invalidated |
| BulkMail.CorrectedShowsOneToast | frontend/components/pages/mail/bulk-mail/bulk-mail.tsx:38-118 | corrected, every click shows exactly one toast, a success toast iff the server accepted, and it is the first toast of the as-written click |
| MailComposer.ValidFiles | frontend/components/pages/mail/bulk-mail/mail-composer.tsx:30-36 | keeps exactly the files of at most 5 MiB |
| MailComposer.ValidFilesAppend | frontend/components/pages/mail/bulk-mail/mail-composer.tsx:30-36 | the filter distributes over concatenation, so kept files keep their order and multiplicity |
| MailComposer.ValidFilesSingle | frontend/components/pages/mail/bulk-mail/mail-composer.tsx:30-36 | one file is kept iff it is within 5 MiB |
| MailComposer.ValidFilesAll | frontend/components/pages/mail/bulk-mail/mail-composer.tsx:30-36 | a filter that keeps as many files as it got keeps them all |
| MailComposer.OversizeToasts | frontend/components/pages/mail/bulk-mail/mail-composer.tsx:31-33 | at most one toast per dropped file |
| MailComposer.OversizeToastsAppend | frontend/components/pages/mail/bulk-mail/mail-composer.tsx:31-33 | the toasts distribute over concatenation, so they come in drop order |
| MailComposer.OversizeToastsSingle | frontend/components/pages/mail/bulk-mail/mail-composer.tsx:31-33 | one file raises a toast naming it iff it is over 5 MiB |
| MailComposer.OversizeToastsCount | frontend/components/pages/mail/bulk-mail/mail-composer.tsx:30-36 | every dropped file is either kept or named in a toast |
| MailComposer.DropToasts | frontend/components/pages/mail/bulk-mail/mail-composer.tsx:22-36 | a refused drop shows only the count toast; otherwise one size toast per over-size file; no toast means every file is appended |
| MailComposer.OnDrop | frontend/components/pages/mail/bulk-mail/mail-composer.tsx:22-39 | a drop taking the count past 5 (over-size files included) changes nothing; otherwise the valid files are appended in order |
| Strings.ReplaceNewlines | frontend/components/pages/mail/bulk-mail/bulk-mail.tsx:72 | with a replacement free of newlines, the result has no newline |
| Strings.ReplaceNewlinesAppend | frontend/components/pages/mail/bulk-mail/bulk-mail.tsx:72 | replacing newlines distributes over concatenation |
| Strings.ReplaceNewlinesChar | frontend/components/pages/mail/bulk-mail/bulk-mail.tsx:72 | a newline becomes the replacement and every other character is kept |
| Strings.ReplaceCharAppend | frontend/components/pages/mail/bulk-mail/bulk-mail.tsx:72 | replacing a one-character pattern distributes over concatenation |
| Strings.ReplaceCharSingle | frontend/components/pages/mail/bulk-mail/bulk-mail.tsx:72 | a single character becomes the replacement iff it is the pattern |
| MailComposer.OnDropBounds | frontend/components/pages/mail/bulk-mail/mail-composer.tsx:24-38 | from at most 5 the list stays at most 5, keeps its prefix, and gains only files within the size limit |
| MailComposer.OversizeFileIgnored | frontend/components/pages/mail/bulk-mail/mail-composer.tsx:30-38 | a single over-size file is not added |
| MailComposer.OversizeFilesCount | frontend/components/pages/mail/bulk-mail/mail-composer.tsx:24-27 | four files plus two over-size ones are refused outright |
| MailComposer.SpliceStart | frontend/components/pages/mail/bulk-mail/mail-composer.tsx:44 | `splice`'s start: negative counts from the end, clamped to 0 and the length |
| MailComposer.RemoveExactlyOne | frontend/components/pages/mail/bulk-mail/mail-composer.tsx:42-46 | a valid index removes exactly that file and keeps the rest in order |
| MailComposer.RemovePastEnd | frontend/components/pages/mail/bulk-mail/mail-composer.tsx:44 | an index at or past the end removes nothing |
| MailComposer.RemoveAttachment | frontend/components/pages/mail/bulk-mail/mail-composer.tsx:42-46 | the in-place splice on the copied array yields `SpliceOne` |
| MailComposer.InsertVariable | frontend/components/pages/mail/bulk-mail/mail-composer.tsx:48-51 | the body followed by the variable |
| MailComposer.InsertMarkdownFillsFirstSlot | frontend/components/pages/mail/bulk-mail/mail-composer.tsx:53-57 | the appended text is the syntax with its first `{text}` filled; later ones stay; without one the syntax is appended as is |
| MailComposer.InsertMarkdown | frontend/components/pages/mail/bulk-mail/mail-composer.tsx:53-57 | the body is kept as the prefix of the result; `InsertMarkdownFillsFirstSlot` states what is appended |
| MailComposer.BoldButton | frontend/components/pages/mail/bulk-mail/mail-composer.tsx:99 | an example of `InsertMarkdown`: the bold button appends `**bold text**` |
| ExcelExtract.Headers | frontend/components/pages/mail/bulk-mail/excel-extract.tsx:27 | the lower-cased keys of the first row; none for an empty sheet |
| ExcelExtract.Missing | frontend/components/pages/mail/bulk-mail/excel-extract.tsx:28 | a required name is missing iff its lower case is not a header |
| ExcelExtract.MissingAppend | frontend/components/pages/mail/bulk-mail/excel-extract.tsx:28-31 | the check distributes over concatenation, so the toast lists missing names in the required order |
| ExcelExtract.MissingSingle | frontend/components/pages/mail/bulk-mail/excel-extract.tsx:28 | one name is listed iff its lower case is not a header |
| ExcelExtract.ToMailRow | frontend/components/pages/mail/bulk-mail/excel-extract.tsx:37-45 | selected, the given id, each field read by its lower-case name with `''` when absent |
| ExcelExtract.ProcessRows | frontend/components/pages/mail/bulk-mail/excel-extract.tsx:27-45 | any missing column refuses with the list of missing names; success iff none is missing, with one selected row per sheet row in order |
| ExcelExtract.ProcessFile | frontend/components/pages/mail/bulk-mail/excel-extract.tsx:19-54 | a read error refuses with the generic message; a read sheet is checked against the five required columns |
| ExcelExtract.RequiredAreLowerCase | frontend/components/pages/mail/bulk-mail/excel-extract.tsx:24 | the required names are already lower case |
| ExcelExtract.EmptySheetRejected | frontend/components/pages/mail/bulk-mail/excel-extract.tsx:27-34 | an empty sheet misses all five columns and is refused |
| ExcelExtract.MissingNone | frontend/components/pages/mail/bulk-mail/excel-extract.tsx:28 | with no headers every required name is missing |
| ExcelExtract.MissingAllPresent | frontend/components/pages/mail/bulk-mail/excel-extract.tsx:28 | with every header present nothing is missing |
| ExcelExtract.CapitalisedColumnReadsEmpty | frontend/components/pages/mail/bulk-mail/excel-extract.tsx:27-43 | an `Email` column passes the check yet every row's email is empty |
| ExcelExtract.EmailTitleCase | frontend/components/pages/mail/bulk-mail/excel-extract.tsx:27 | an example for `CapitalisedColumnReadsEmpty`: `Email` lower-cases to `email` but is a different key |
| DataTable.FilterByEmail | frontend/components/pages/mail/bulk-mail/data-table.tsx:45-47 | a row is kept iff its lower-cased email contains the lower-cased term |
| DataTable.FilterByEmailAppend | frontend/components/pages/mail/bulk-mail/data-table.tsx:45-47 | the search distributes over concatenation, so kept rows keep their order and multiplicity |
| DataTable.FilterByEmailSingle | frontend/components/pages/mail/bulk-mail/data-table.tsx:45-47 | one row is kept iff its lower-cased email contains the lower-cased term |
| DataTable.EmptySearchKeepsAll | frontend/components/pages/mail/bulk-mail/data-table.tsx:45-47 | an empty term keeps every row in order |
| DataTable.TotalPages | frontend/components/pages/mail/bulk-mail/data-table.tsx:50 | ceil(n/size): zero iff n is zero, and (t−1)·size < n ≤ t·size |
| DataTable.PageSlice | frontend/components/pages/mail/bulk-mail/data-table.tsx:51-55 | the slice [p·size, p·size+size) clipped to the rows, at most `pageSize` rows |
| DataTable.PagesFull | frontend/components/pages/mail/bulk-mail/data-table.tsx:50-55 | every page before the last is full |
| DataTable.PageWindow | frontend/components/pages/mail/bulk-mail/data-table.tsx:257-268 | min(5, totalPages) page buttons |
| DataTable.PageWindowValid | frontend/components/pages/mail/bulk-mail/data-table.tsx:257-268 | on a valid page the buttons are consecutive, in range, and include the current page |
| DataTable.NavigationStaysInRange | frontend/components/pages/mail/bulk-mail/data-table.tsx:249-291 | enabled Previous/Next lead to valid pages; one page disables both |
| DataTable.ToggleRow | frontend/components/pages/mail/bulk-mail/data-table.tsx:70-75 | only rows with the id get the flag; all others unchanged |
| DataTable.SelectAll | frontend/components/pages/mail/bulk-mail/data-table.tsx:93-99 | every row gets the flag, nothing else changes |
| DataTable.SelectAllSelectsEveryRow | frontend/components/pages/mail/bulk-mail/data-table.tsx:93-99 | after select-all every row is sent; after deselect-all none is |
| DataTable.FirstWithId | frontend/components/pages/mail/bulk-mail/data-table.tsx:83 | the first index with the id, or −1 when none has it |
| DataTable.FindById | frontend/components/pages/mail/bulk-mail/data-table.tsx:83 | the array search returns `FirstWithId` |
| DataTable.ToggledPage | frontend/components/pages/mail/bulk-mail/data-table.tsx:78-90 | the data keeps its length after toggling the page |
| DataTable.ToggledPageExact | frontend/components/pages/mail/bulk-mail/data-table.tsx:78-90 | with unique ids, exactly the rows whose id is on the page get the flag; the others are unchanged |
| DataTable.ToggleAllCurrentPage | frontend/components/pages/mail/bulk-mail/data-table.tsx:78-90 | the copy-and-forEach loop over an array yields `ToggledPage` |
| DataTable.ToggledStepsIds | frontend/components/pages/mail/bulk-mail/data-table.tsx:78-90 | setting flags one page row at a time keeps every id in place |
| DataTable.ToggledStepsNext | frontend/components/pages/mail/bulk-mail/data-table.tsx:82-88 | `find` in the working copy lands where it lands in the data, and that row gets the flag |
| DataTable.ToggledStepsAgree | frontend/components/pages/mail/bulk-mail/data-table.tsx:78-90 | handling the page rows one at a time gives `ToggledPage` of those rows |
| DataTable.Header | frontend/components/pages/mail/bulk-mail/data-table.tsx:102-123 | never both flags; an empty or unselected page gives neither, all selected gives allSelected, some gives indeterminate |
| DataTable.ToggleOnSelectsPage | frontend/components/pages/mail/bulk-mail/data-table.tsx:78-123 | after toggling the page on, every data row on the page is selected |
| DataTable.TableView.CurrentPage | frontend/components/pages/mail/bulk-mail/data-table.tsx:54-55 | the shown page holds at most `pageSize` rows |
| DataTable.TableView.SetSearchTerm | frontend/components/pages/mail/bulk-mail/data-table.tsx:133-136 | the new term and back to page 0 |
| DataTable.TableView.ChangePageSize | frontend/components/pages/mail/bulk-mail/data-table.tsx:63-67 | the new size and back to page 0 |
| DataTable.TableView.Previous | frontend/components/pages/mail/bulk-mail/data-table.tsx:249-250 | one page back unless on page 0 |
| DataTable.TableView.Next | frontend/components/pages/mail/bulk-mail/data-table.tsx:290-291 | one page on unless on the last page |
| DataTable.TableView.ToggleRowSelection | frontend/components/pages/mail/bulk-mail/data-table.tsx:70-75 | the data becomes `ToggleRow` of the old data |
| DataTable.TableView.HandleSelectAll | frontend/components/pages/mail/bulk-mail/data-table.tsx:93-99 | the data becomes `SelectAll` of the old data |
| DataTable.TableView.ToggleAllOnPage | frontend/components/pages/mail/bulk-mail/data-table.tsx:78-90 | the data becomes `ToggledPage` of the old data and the old page |
| DataTable.TableView.RefreshHeader | frontend/components/pages/mail/bulk-mail/data-table.tsx:102-123 | the flags become `Header` of the current page |
| MailHistory.TransformContact | frontend/components/pages/mail/history/mail-sent-table.tsx:104-117 | one row per contact with emailCount = number of e-mails; first e-mail gives status, platform (empty → null), time; defaults PENDING, null, and the one `now` given for all contacts |
| MailHistory.Transform | frontend/components/pages/mail/history/mail-sent-table.tsx:101-118 | no contacts give no rows; otherwise one row per contact in order |
| MailHistory.TransformPlatformsNonEmpty | frontend/components/pages/mail/history/mail-sent-table.tsx:112 | a present platform is never empty |
| MailHistory.FilterRows | frontend/components/pages/mail/history/mail-sent-table.tsx:121-135 | a row is kept iff search (email or company, case-insensitive), status and platform all match |
| MailHistory.FilterRowsAppend | frontend/components/pages/mail/history/mail-sent-table.tsx:121-135 | filtering distributes over concatenation, so kept rows keep their order |
| MailHistory.FilterRowsSingle | frontend/components/pages/mail/history/mail-sent-table.tsx:121-135 | one row is kept iff it matches all three controls |
| MailHistory.DefaultFilterKeepsAll | frontend/components/pages/mail/history/mail-sent-table.tsx:121-135 | the initial controls keep every row |
| MailHistory.LexCompare | frontend/components/pages/mail/history/mail-sent-table.tsx:149 | −1, 0 or 1, and 0 iff the strings are equal |
| MailHistory.LexAntisymmetric | frontend/components/pages/mail/history/mail-sent-table.tsx:149 | swapping the arguments negates the comparison |
| MailHistory.LexTransitive | frontend/components/pages/mail/history/mail-sent-table.tsx:149 | the comparison is transitive |
| MailHistory.InOrderTotal | frontend/components/pages/mail/history/mail-sent-table.tsx:138-154 | for every key and direction, any two rows are ordered one way or the other |
| MailHistory.InOrderTransitive | frontend/components/pages/mail/history/mail-sent-table.tsx:138-154 | the comparator's order is transitive |
| MailHistory.Insert | frontend/components/pages/mail/history/mail-sent-table.tsx:138 | inserting adds exactly that row (multiset) |
| MailHistory.InsertSorted | frontend/components/pages/mail/history/mail-sent-table.tsx:138-154 | inserting into a sorted list keeps it sorted |
| MailHistory.SortRows | frontend/components/pages/mail/history/mail-sent-table.tsx:138-154 | the sorted rows are a permutation of the input |
| MailHistory.SortRowsSorted | frontend/components/pages/mail/history/mail-sent-table.tsx:138-154 | the sorted rows are ordered by the chosen key and direction |
| MailHistory.FilteredAndSorted | frontend/components/pages/mail/history/mail-sent-table.tsx:121-156 | the filter then the sort; `FilteredAndSortedCorrect` states it is a sorted permutation of exactly the matching rows |
| MailHistory.FilteredAndSortedCorrect | frontend/components/pages/mail/history/mail-sent-table.tsx:121-156 | the view is a permutation of the filtered rows, sorted, holding exactly the matching rows |
| MailHistory.DescendingPutsLaterFirst | frontend/components/pages/mail/history/mail-sent-table.tsx:142-153 | under the default `desc` on send time, a later row stands strictly first |
| MailHistory.DistinctPlatforms | frontend/components/pages/mail/history/mail-sent-table.tsx:167-173 | each non-empty platform exactly once, and nothing else; the order is stated by `DistinctPlatformsFirstSeen` |
| MailHistory.CollectPlatforms | frontend/components/pages/mail/history/mail-sent-table.tsx:167-173 | the forEach loop over a seen set yields `DistinctPlatforms` |
| MailHistory.FirstSeenAt | frontend/components/pages/mail/history/mail-sent-table.tsx:167-173 | where the j-th platform occurs, every earlier platform has occurred before |
| MailHistory.DistinctPlatformsFirstSeen | frontend/components/pages/mail/history/mail-sent-table.tsx:167-173 | the platforms are listed in order of first appearance, as a `Set` iterates |
| MailHistory.HandleSort | frontend/components/pages/mail/history/mail-sent-table.tsx:175-182 | the current key flips the direction; a new key starts descending |
| MailHistory.HandleSortTwice | frontend/components/pages/mail/history/mail-sent-table.tsx:175-182 | clicking the same header twice restores the state |
| MailHistory.TotalCountsEveryEmail | frontend/components/pages/mail/history/mail-sent-table.tsx:188-191 | the total is the number of e-mails of all contacts |
| MailHistory.TotalEmailsSent | frontend/components/pages/mail/history/mail-sent-table.tsx:188-191 | the sum of the rows' counts; `TotalCountsEveryEmail` states it counts every e-mail of every contact |
| MailHistory.PositiveTotalHasRows | frontend/components/pages/mail/history/mail-sent-table.tsx:192-197 | a positive total implies rows (the division is defined); zero iff every count is zero |
| MailHistory.DoneCount | frontend/components/pages/mail/history/mail-sent-table.tsx:195 | at most the number of rows |
| MailHistory.RoundedPercent | frontend/components/pages/mail/history/mail-sent-table.tsx:194-198 | 100·done/n rounded half up, at most 100 |
| MailHistory.SuccessRate | frontend/components/pages/mail/history/mail-sent-table.tsx:192-199 | 0 when nothing was sent; otherwise round(100·DONE rows/rows), in 0..100 |
| MailHistory.SuccessRateExtremes | frontend/components/pages/mail/history/mail-sent-table.tsx:192-199 | all rows DONE gives 100, none gives 0 |
| MailHistory.HistoryView.constructor | frontend/components/pages/mail/history/mail-sent-table.tsx:93-99 | starts with empty search, `all` filters, last-sent descending |
| MailHistory.HistoryView.ClickSort | frontend/components/pages/mail/history/mail-sent-table.tsx:175-182 | the sort state becomes `HandleSort` of the old one |
| RouteGuard.Guard | frontend/middleware.ts:30-40 | sign-in for a protected path without a session, chat for an auth path with one, pass-through exactly otherwise |
| RouteGuard.MatchAgrees | frontend/middleware.ts:21-23 | a matching path agrees with the entry on each of its characters |
| RouteGuard.DiffersFrom | frontend/middleware.ts:21-23 | a path that differs inside an entry does not match it |
| RouteGuard.BelowProtectedIsProtected | frontend/middleware.ts:21-23 | every path below a listed entry is protected |
| RouteGuard.ProtectedAndAuthDisjoint | frontend/middleware.ts:3-14 | no path is both protected and an auth path |
| RouteGuard.MailHistoryUnprotected | frontend/middleware.ts:3-12 | `/mail/history` is not protected: `(.*)` is compared as text |
| RouteGuard.BuilderPageUnprotected | frontend/middleware.ts:6 | `/builder/3` is not protected |
| RouteGuard.ChatAndSendMailProtected | frontend/middleware.ts:5-11 | `/chat`, everything below it, and `/mail/send-mail` are protected |
| RouteGuard.SignedOutVisitor | frontend/middleware.ts:30-40 | signed out, the history page passes through while the chat redirects to sign-in |
| RouteGuard.MatchImpliesIntended | frontend/middleware.ts:21-23 | a path matching an entry literally also matches it when `(.*)` is read as a wildcard |
| RouteGuard.IntendedProtectsMore | frontend/middleware.ts:3-12 | corrected matching protects all the written one does, and `/mail/history` |
| RouteGuard.GuardIntended | frontend/middleware.ts:30-40 | the guard with corrected matching keeps both redirect rules and the pass-through iff |
| RouteGuard.IntendedAndAuthDisjoint | frontend/middleware.ts:3-14 | with corrected matching no path is both protected and an auth path |
| RouteGuard.IntendedGuardsHistory | frontend/middleware.ts:4 | corrected, a signed-out visitor of `/mail/history` is sent to sign in |
| FetchApi.BaseUrl | frontend/lib/fetch-api.ts:68-72 | a given base wins even if empty (`??`); an absent or empty result is "Backend URL not set in env!" |
| FetchApi.ResolveUrl | frontend/lib/fetch-api.ts:74-82 | the loop starts at base + url and applies the parameters in order, as `Substitute` |
| FetchApi.SubstituteOne | frontend/lib/fetch-api.ts:77-80 | a null value changes nothing; otherwise the first `:key`, then the first `[key]`; `OnlyFirstOccurrence` states that later ones stay |
| FetchApi.Substitute | frontend/lib/fetch-api.ts:74-82 | the parameters applied in enumeration order; `ResolveUrl` is proved equal to it |
| FetchApi.OnlyFirstOccurrence | frontend/lib/fetch-api.ts:78-80 | only the first `:key` is replaced; a later `:key` stays |
| FetchApi.WithQuery | frontend/lib/fetch-api.ts:84-89 | `?query` is appended iff the query is non-empty |
| FetchApi.RequestHeaders | frontend/lib/fetch-api.ts:91-98 | JSON content type unless the body is FormData; every other header is the caller's |
| FetchApi.RequestBody | frontend/lib/fetch-api.ts:107-120 | no body for GET, DELETE, an explicit `null` or a falsy value (`""`, 0, `false`); otherwise FormData as is, the JSON text, or `{}` for an omitted body, and a body goes out iff one of those |
| FetchApi.Normalize | frontend/lib/fetch-api.ts:125-151 | non-ok: failure with message or "Request failed"; ok: success with message or "Success"; a thrown error rethrown iff throwOnError, else a failure |
| FetchApi.NormalizeSuccessIff | frontend/lib/fetch-api.ts:127-151 | success iff an ok response arrived; nothing is thrown without throwOnError |
| FetchApi.FetchApiCall | frontend/lib/fetch-api.ts:68-151 | a missing base throws before any request; otherwise the built request and the normalised outcome |
| FetchApi.BuildRequest | frontend/lib/fetch-api.ts:74-121 | URL, headers and body as `Substitute`, `WithQuery`, `RequestHeaders` and `RequestBody` state; `PlainUrl` and `OmittedBodySendsEmptyObject` are its cases |
| FetchApi.OmittedBodySendsEmptyObject | frontend/lib/fetch-api.ts:62 | a POST, PUT or PATCH without a body sends the default `{}` as JSON text with the JSON content type |
| FetchApi.PlainUrl | frontend/lib/fetch-api.ts:74-89 | without parameters and query the request goes to base + url |
| ErrorMiddleware.DefaultedMessage | backend/src/middlewares/error.ts:16 | an empty message becomes "Internal Server Error"; others kept |
| ErrorMiddleware.DefaultedStatus | backend/src/middlewares/error.ts:17 | a missing or zero status becomes 500; others kept |
| ErrorMiddleware.ErrorReply | backend/src/middlewares/error.ts:16-38 | never success; status is the defaulted one; Prisma errors get "Prisma Query Error!"; the error is attached iff DEVELOPMENT |
| ErrorMiddleware.ReplyMessageNeverEmpty | backend/src/middlewares/error.ts:16-32 | the message is never empty, and a Prisma error's text never leaves outside development |
| ErrorMiddleware.BareErrorIs500 | backend/src/middlewares/error.ts:16-17 | a bare `Error` answers 500 with the generic message |
| ErrorMiddleware.HandleError | backend/src/middlewares/error.ts:10-39 | defaults the error's message and status in place and answers `ErrorReply` of the old fields |
| ErrorMiddleware.AsyncHandler | backend/src/middlewares/error.ts:47-55 | a thrown error is passed to `next` once, as is; a normal return adds nothing |
| ErrorMiddleware.ThrownErrorReachesHandlerOnce | backend/src/middlewares/error.ts:47-55 | a throwing controller reaches the handler exactly once; a returning one never |
| ChatPdf.ConvertToAscii | backend/src/utils/chatpdf-helper.ts:50-55 | the result is all ASCII and no longer than the input |
| ChatPdf.AsciiUnchanged | backend/src/utils/chatpdf-helper.ts:53 | ASCII input is unchanged |
| ChatPdf.ConvertToAsciiIdempotent | backend/src/utils/chatpdf-helper.ts:53 | stripping twice equals stripping once |
| ChatPdf.ConvertToAsciiKeepsAscii | backend/src/utils/chatpdf-helper.ts:53 | each ASCII character is kept as often as it occurs; every other character is removed |
| ChatPdf.ConvertToAsciiAppend | backend/src/utils/chatpdf-helper.ts:53 | stripping distributes over concatenation, so kept characters keep their order |
| ChatPdf.ConvertToAsciiChar | backend/src/utils/chatpdf-helper.ts:53 | one character is kept iff it is ASCII |
| ChatPdf.CharLen | backend/src/utils/chatpdf-helper.ts:10-11 | one to four bytes per character (RFC 3629 section 3) |
| ChatPdf.EncodeChar | backend/src/utils/chatpdf-helper.ts:10-11 | a character's encoding has `CharLen` bytes |
| ChatPdf.EncodeCharDecodes | backend/src/utils/chatpdf-helper.ts:10-11 | the lead byte announces the length and the bytes spell the code point |
| ChatPdf.DecodeAfterEncoded | backend/src/utils/chatpdf-helper.ts:11 | decoding an encoded string followed by more bytes yields the string, then the rest's decoding |
| ChatPdf.DecodeEncode | backend/src/utils/chatpdf-helper.ts:9-12 | decoding undoes encoding |
| ChatPdf.CutCharacter | backend/src/utils/chatpdf-helper.ts:11 | a character's encoding cut short decodes to one U+FFFD |
| ChatPdf.FittingChars | backend/src/utils/chatpdf-helper.ts:11 | the longest prefix whose encoding fits the byte budget |
| ChatPdf.BomLead | backend/src/utils/chatpdf-helper.ts:10-11 | an encoding starts with EF BB BF iff the text starts with U+FEFF |
| ChatPdf.DecodeBomLead | backend/src/utils/chatpdf-helper.ts:11 | bytes starting EF BB BF decode to U+FEFF first |
| ChatPdf.TruncateFits | backend/src/utils/chatpdf-helper.ts:9-12 | a string whose encoding fits is returned whole, minus a leading U+FEFF that the decoder drops |
| ChatPdf.TextDecode | backend/src/utils/chatpdf-helper.ts:11 | the decoder drops a leading EF BB BF; `DecodeBomLead` and `TruncateFits` state the effect |
| ChatPdf.TruncateByBytes | backend/src/utils/chatpdf-helper.ts:9-12 | `truncateStringByBytes` itself; `TruncateFits` and `TruncateLongestPrefix` state its result |
| ChatPdf.DecodeCutLongestPrefix | backend/src/utils/chatpdf-helper.ts:11 | decoding the cut bytes yields the longest fitting prefix, plus one U+FFFD when the cut splits a character |
| ChatPdf.TruncateLongestPrefix | backend/src/utils/chatpdf-helper.ts:9-12 | the result is the longest fitting prefix, plus one U+FFFD when the cut splits a character, minus a leading U+FEFF |
| ChatPdf.RemoveNewlines | backend/src/utils/chatpdf-helper.ts:16 | the result contains no newline |
| ChatPdf.RemoveNewlinesAppend | backend/src/utils/chatpdf-helper.ts:16 | removal distributes over concatenation, so the other characters keep their order |
| ChatPdf.RemoveNewlinesChar | backend/src/utils/chatpdf-helper.ts:16 | a newline is removed and every other character is kept |
| ChatPdf.PrepareDocument | backend/src/utils/chatpdf-helper.ts:14-27 | the cleaned content is the content with its newlines removed; the page number is kept; the metadata text is the content cut to 36000 bytes |
| ChatPdf.ShortPageKeepsText | backend/src/utils/chatpdf-helper.ts:24 | a page whose cleaned text fits keeps all of it in the metadata, minus a leading U+FEFF |
| ChatPdf.ContextOf | backend/src/utils/chatpdf-helper.ts:88-91 | at most 3000 characters, a prefix of the newline join, all of it when it fits |
| FormSubmit.MarkInvalid | frontend/components/pages/form/form-submit-component.tsx:26-34 | earlier marks are kept; every key is marked true or keeps its earlier value |
| FormSubmit.MarkInvalidExact | frontend/components/pages/form/form-submit-component.tsx:27-33 | a key is marked iff it was marked before or some field with that id is refused, its value read with `""` as default |
| FormSubmit.ValidIffAllAccepted | frontend/components/pages/form/form-submit-component.tsx:26-41 | with cleared errors the form is valid iff every field's validator accepts its value |
| FormSubmit.FormSubmission.SubmitValue | frontend/components/pages/form/form-submit-component.tsx:43-45 | only the given key changes |
| FormSubmit.FormSubmission.ValidateForm | frontend/components/pages/form/form-submit-component.tsx:26-41 | the loop's errors are `MarkInvalid` of the old ones; true iff no error is recorded |
| FormSubmit.FormSubmission.SubmitForm | frontend/components/pages/form/form-submit-component.tsx:65-91 | errors cleared first; an invalid form re-renders with a toast and sends nothing; a valid one sends url and values and shows the thank-you page |
| MailSchema.RecipientIssues | frontend/schema/mail.ts:3-8 | no issue iff every address is valid; each issue is an invalid-address issue at a recipient |
| MailSchema.Required | frontend/schema/mail.ts:10-15 | an issue iff the value is empty, at the field with its message |
| MailSchema.ParseWith | frontend/schema/mail.ts:2-16 | accepted iff at least one recipient, every address valid and all six text fields non-empty; the value unchanged; a refusal has issues |
| MailSchema.Parse | frontend/schema/mail.ts:2-16 | as written: an empty platform is refused with an issue at `platform` carrying "Subject is required" |
| MailSchema.PlatformIssueListed | frontend/schema/mail.ts:11 | an empty platform is refused with an issue at `platform` carrying the platform message given |
| MailSchema.PlatformOnlyIssue | frontend/schema/mail.ts:2-16 | a form whose only fault is an empty platform gets exactly one issue, at `platform` |
| MailSchema.NoRecipientsRefused | frontend/schema/mail.ts:9 | an empty list is refused, with its own message first |
| MailSchema.PlatformReportsSubjectMessage | frontend/schema/mail.ts:10-11 | as written, an empty platform alone gives one issue at `platform` with "Subject is required" |
| MailSchema.PlatformReportsPlatformMessage | frontend/schema/mail.ts:10-11 | corrected, the same form gives exactly one issue at `platform` with "Platform is required", unlike as written |
| MailSchema.ParseCorrected | frontend/schema/mail.ts:11 | corrected: an empty platform is refused with an issue at `platform` carrying "Platform is required" |
| MailSchema.CorrectedMessagesDistinct | frontend/schema/mail.ts:10-15 | an example about the six message constants: corrected they are pairwise distinct, while as written the platform's equals the subject's |
| MailSchema.CorrectionKeepsVerdict | frontend/schema/mail.ts:11 | the correction changes no verdict |

## Left out

- Queue internals (Redis, leasing, the scheduler). Only the configuration
  constants are used. The retry rule is stated as an assumption in module
  `MailQueue`: the n-th retry waits base·2^(n−1), and the policy allows at
  most `attempts` tries.
- The second queue in worker/src/mail-queue.ts:15-25 (delay 2000, 2
  attempts). The worker uses only that file's name and connection.
- Concurrency. Each `Promise.all` fan-out runs as an ordered loop, and
  workers run one job at a time. What the ordered loop fixes and the source
  does not:
  - duplicate recipients in one request: the model's second lookup finds
    the contact the first one created. Under `Promise.all` both lookups can
    run before either create, and then the source creates two contacts for
    the address. No lemma about shared contacts is claimed;
  - several failing uploads: `MailController.UploadEach` reports the first
    failing file in file order, while `Promise.all` rejects with whichever
    fails first in time. The lemmas claim only that a failing file is named,
    and which one when exactly one fails;
  - several rejected store calls: each recipient's chain stops at its own
    rejected call, and the other chains still run to their end, since
    `Promise.all` cancels nothing. `MailController.Settle` forwards the first
    rejection in recipient order; the source forwards the first in time.
    `MailController.FanOutReply` claims only that the rejection of some
    chain is forwarded;
  - the attachment creates of one recipient run in upload order, so a
    rejected create keeps exactly the rows before it. Under the inner
    `Promise.all` the other creates may also have finished.
- MailController.FanOutFreshIds: record and contact ids come from a counter
  in the model, so they also increase in recipient order. Prisma's generated
  ids promise only that they are new, and concurrent creates finish in no
  fixed order. Only freshness holds of the source.
- `res.isCompleted()`: the controller's one-time query of the job's state
  is not modelled.
- Timers and randomness are inputs: the 500 ms and 2000 ms sleeps, the
  timestamps, and the random spreadsheet row ids.
- MailHistory.TransformContact: the source calls `new Date()` for each
  contact without e-mails, so their times may differ by the time the loop
  takes. The model gives them all the one `now` it receives.
- Foreign calls are inputs. Their outcomes are what the model receives:
  - nodemailer, axios downloads and URL parsing;
  - S3 `putObject`/`s3Download` and their side effects;
  - Prisma and `emailQueue.add`: their effect on the tables is modelled,
    and whether each call rejects is an input. The controller takes, per
    recipient, the one call of the chain that rejects, if any. A Prisma
    error the error middleware turns into 500 "Prisma Query Error!" is
    forwarded as `StoreRejected`; the worker's writes take a success flag;
  - XLSX parsing;
  - `JSON.parse`/`JSON.stringify`, `encodeURIComponent` and
    `URLSearchParams` (values arrive encoded and serialised);
  - zod's e-mail regex and the form-element validators.
- The splitter, PDF loader, Pinecone, embeddings and Gemini. `getContext` is
  modelled from the retrieved match texts on.
- The UI and its wiring: rendering components, routes, server entry points,
  health endpoints, and the Next.js matcher regex.
- S3.S3Upload: the `new S3(...)` client and the environment variables are
  modelled only as the bucket and region.
- A JavaScript string is modelled as a sequence of Unicode scalar values, not
  UTF-16 code units:
  - lone surrogates are not representable;
  - `substring(0, 3000)` in `ChatPdf.ContextOf` counts characters rather
    than code units;
  - `ConvertToAscii` removes whole characters rather than surrogate halves.
- ChatPdf.Decode: the TextDecoder model covers prefixes of well-formed UTF-8
  (all that `truncateStringByBytes` produces). It gives one U+FFFD for a
  truncated final sequence and does not model decoding of arbitrary byte
  strings. The decoder's dropping of a leading byte-order mark is modelled
  in `ChatPdf.TextDecode`.
- `toLowerCase` covers ASCII letters only.
- `localeCompare` is modelled as code-point order (MailHistory.LexCompare).
- The sort engine's algorithm is not modelled. `MailHistory.SortRows` is a
  stable insertion sort, so the model fixes one order among equal rows.
  Only the permutation and the ordering are proved, and those hold for any
  correct sort.
- MailHistory.RoundedPercent: `Math.round` on a floating-point quotient is
  modelled with exact rational round-half-up. Floating-point representation
  error is not modelled.
- The `$` patterns that `String.replace` gives special meaning to in
  replacement text are not modelled. Replacements are literal.
- DataTable.ToggleAllCurrentPage: the source mutates the shared row objects
  of the copied array (`item.selected = checked`), and that aliasing is not
  modelled. The model writes the flag into the copy's elements, which are
  values.
- ErrorMiddleware.ErrorReply: the attached error is the error's name,
  message and status. Its other properties and their JSON serialisation are
  not modelled.
- FormSubmit.MarkInvalid: its own ensures says only that earlier marks stay
  and every entry is `true` or unchanged. Which keys are marked is stated
  by `MarkInvalidExact`.
- FormSubmit.FormSubmission.SubmitForm: the mutation is recorded as a
  request and not awaited. Its later success toast and the
  "Something went wrong" path are not modelled.
- MailSchema.ParseWith: a recipient is modelled by its address string rather
  than an object `{ email }`. Issue paths are a field name or a recipient
  index.
- MailController.MailStore.BulkMailSender: the store uses the corrected job
  body. The as-written payload is kept as `BulkMailAsWritten`, as listed
  under Findings.
- MailController.FindContactFirst: `findFirst` without `orderBy` promises no
  order, so "first" is first in the model's table order. Which contact the
  database returns among several with the same email is not modelled.
- Worker.Updated: the `sentAt: new Date()` written with the `FAILED` status
  is not modelled; the record's status is.
- BulkMail.SendToasts: the TypeError's message comes from the JavaScript
  engine and is an input. That the mutation library passes an error thrown
  by `onSuccess` to `onError` is taken from its documented flow, not from
  this repository.
- The status writes use the earlier attempt's database answers as inputs.
  A record the processor marks `FAILED` on an intermediate attempt is
  modelled exactly as the code does. This differs from a reading in which
  only the final failure is recorded.

## Findings

| source | as written | input that shows it | evidently intended | confidence | as-written member | corrected member |
|---|---|---|---|---|---|---|
| backend/src/controllers/mail.controller.ts:230 | the queued job's `body` is `email.subject` | a bulk element with subject "Hi" and body "Hello Ann": the worker mails "Hi" as the message text while the record stores "Hello Ann" | the job carries `email.body`, as `sendMail` does at line 94 | high, not executed | MailController.BulkJobBodyIsSubject | MailController.BulkJobBodyMatchesRecord |
| frontend/middleware.ts:3-12 | entries such as `/mail(.*)` are compared as literal text by `===` and `startsWith` | a signed-out request for `/mail/history` (or `/builder/3`) passes through | entries ending in `(.*)` protect every path starting with their stem | medium, not executed | RouteGuard.MailHistoryUnprotected | RouteGuard.IntendedGuardsHistory |
| frontend/schema/mail.ts:11 | the platform field's message is "Subject is required" | a form whose only empty field is `platform` reports "Subject is required" | "Platform is required" | high, not executed | MailSchema.PlatformReportsSubjectMessage | MailSchema.PlatformReportsPlatformMessage |
| frontend/components/pages/mail/bulk-mail/bulk-mail.tsx:100-118 | every refused check, a `success: false` answer and the caught request error end `mutationFn` with `undefined`, and `onSuccess` then reads `data.message` | a click with no row selected: "No recipients selected", then the TypeError's message from `onError` | `onSuccess` shows its toast only for a response, so each click shows one toast | medium, not executed | BulkMail.RefusedSendShowsTwoToasts | BulkMail.CorrectedShowsOneToast |
