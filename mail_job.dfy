/**
 * The data shared by the producer (the mail controller) and the consumer
 * (the worker): the status column of an EmailSent record and the payload of
 * one queued job.
 */
module MailJob {

  /** `EmailSent.status`: every record starts `PENDING`; the worker writes `DONE` or `FAILED`. */
  datatype Status = PENDING | DONE | FAILED

  /**
   * The payload of one job (worker/src/index.ts `JobData`). `emailId` is the
   * id of the EmailSent record the job reports on; `attachmentIds` holds the
   * public URLs of the uploaded attachments.
   */
  datatype JobData = JobData(
    userId: string,
    emailId: nat,
    recipient: string,
    subject: string,
    body: string,
    attachmentIds: seq<string>,
    appUsername: string,
    appPassword: string)
}
