/**
 * The job policy of the producer's queue (backend/src/utils/mail-queue.ts):
 * its name and the `defaultJobOptions` every `emailQueue.add` inherits, since
 * the controller adds jobs without options of their own.
 *
 * The retry mechanics themselves live in the queue library, not in this
 * repository. They enter the model as one parameterised assumption, the
 * library's documented rule for exponential backoff: the n-th retry waits
 * `base * 2^(n-1)` milliseconds, and a job is tried at most `attempts` times.
 */
module MailQueue {

  /** `mailQueueName` as the producer declares it. */
  const ProducerQueueName: string := "emailQueue"

  /** `mailQueueName` as the worker declares it (worker/src/mail-queue.ts). */
  const WorkerQueueName: string := "emailQueue"

  datatype BackoffKind = Exponential | Fixed

  datatype Backoff = Backoff(kind: BackoffKind, delayMs: nat)

  datatype JobOptions = JobOptions(delayMs: nat, attempts: nat, backoff: Backoff)

  /** `defaultJobOptions`: 5000 ms before the first attempt, 3 attempts, exponential backoff from 1000 ms. */
  const DefaultJobOptions: JobOptions := JobOptions(5000, 3, Backoff(Exponential, 1000))

  function Pow2(n: nat): (p: nat)
    ensures p >= 1
  {
    if n == 0 then 1 else 2 * Pow2(n - 1)
  }

  /** The library's backoff rule: the wait before the n-th retry (n >= 1). */
  function RetryDelay(b: Backoff, n: nat): nat
    requires n >= 1
  {
    match b.kind
    case Exponential => b.delayMs * Pow2(n - 1)
    case Fixed => b.delayMs
  }

  lemma {:induction false} Pow2StrictlyIncreasing(m: nat, n: nat)
    requires m < n
    ensures Pow2(m) < Pow2(n)
    decreases n
  {
    if m < n - 1 {
      Pow2StrictlyIncreasing(m, n - 1);
    }
  }

  /** Under the default policy the retry delays are 1000 * 2^(n-1) and strictly increase. */
  lemma DefaultDelaysStrictlyIncrease(m: nat, n: nat)
    requires 1 <= m < n
    ensures RetryDelay(DefaultJobOptions.backoff, m) < RetryDelay(DefaultJobOptions.backoff, n)
    ensures RetryDelay(DefaultJobOptions.backoff, n) == 1000 * Pow2(n - 1)
  {
    Pow2StrictlyIncreasing(m - 1, n - 1);
  }

  /**
   * The earliest moment attempt `k` (1-based) of a job may start, given when
   * it was enqueued and how long each earlier attempt took: the initial delay
   * before the first, then each earlier attempt's duration plus its backoff.
   */
  function EarliestStart(opts: JobOptions, enqueuedAt: nat, durations: seq<nat>, k: nat): (t: nat)
    requires 1 <= k <= |durations| + 1
    ensures t >= enqueuedAt + opts.delayMs
    ensures k > 1 ==> t >= enqueuedAt + opts.delayMs + durations[k - 2]
  {
    if k == 1 then enqueuedAt + opts.delayMs
    else EarliestStart(opts, enqueuedAt, durations, k - 1) + durations[k - 2] + RetryDelay(opts.backoff, k - 1)
  }

  /** The total of a sequence of durations. */
  function Sum(s: seq<nat>): nat {
    if s == [] then 0 else Sum(s[..|s| - 1]) + s[|s| - 1]
  }

  /**
   * Under the default policy attempt k starts exactly the 5000 ms initial
   * delay, the earlier attempts' durations and `1000 * (2^(k-1) - 1)` ms of
   * backoff after the job was enqueued.
   */
  lemma {:induction false} DefaultScheduleExact(enqueuedAt: nat, durations: seq<nat>, k: nat)
    requires 1 <= k <= |durations| + 1
    ensures EarliestStart(DefaultJobOptions, enqueuedAt, durations, k)
      == enqueuedAt + 5000 + Sum(durations[..k - 1]) + 1000 * (Pow2(k - 1) - 1)
    decreases k
  {
    if k > 1 {
      DefaultScheduleExact(enqueuedAt, durations, k - 1);
      assert durations[..k - 1][..k - 2] == durations[..k - 2];
    }
  }

  /**
   * The default budget of three attempts: the last attempt, after two
   * retries, starts 5000 + 1000 + 2000 ms plus the two earlier attempts'
   * durations after the job was enqueued.
   */
  lemma DefaultLastAttempt(enqueuedAt: nat, durations: seq<nat>)
    requires |durations| == DefaultJobOptions.attempts - 1
    ensures DefaultJobOptions.attempts == 3
    ensures EarliestStart(DefaultJobOptions, enqueuedAt, durations, DefaultJobOptions.attempts)
      == enqueuedAt + 8000 + durations[0] + durations[1]
  {
    DefaultScheduleExact(enqueuedAt, durations, 3);
    assert durations[..2] == durations;
    assert durations[..|durations| - 1] == [durations[0]];
    assert Sum([durations[0]]) == durations[0];
    assert Pow2(2) == 4;
  }
}
