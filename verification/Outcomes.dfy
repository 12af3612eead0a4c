/** How a job ends, one attempt or the whole of it. */
module Outcomes {

  /** Only a plain failure is retried: a size error, or a job error created as not
      retryable, ends the job at once. A size error says whether it was the actual or the
      announced size that was found too big, that size in bytes and the paid megabytes. */
  datatype JobError =
    | SizeExceeded(actual: bool, bytes: nat, paid: nat)
    | NotRetryable(message: string)
    | Failure(message: string)

  datatype Outcome = Done | Failed(error: JobError)
}
