/** The error codes of a run, and which of them may be followed by another attempt. */
module Errors {
  import opened Wrappers

  datatype Code =
    | LoginRequired | SessionExpired | VerificationRequired | AccessRestricted
    | Timeout | SubmissionFailed | AnswerNotFound | SubmitDegraded | ConversationResetFailed
    | PageChanged | RateLimited | NetworkError | UnknownError

  /** `promptSubmitted` is the flag in the error's details; `None` when the thrower left it out. */
  datatype Error = Error(code: Code, promptSubmitted: Option<bool>)

  /** A page call that throws carries no details. */
  const PAGE_ERROR := Error(UnknownError, None)

  /** What the page shows of the login. */
  datatype Session = Unknown | Healthy | Verification | Restricted | Login

  /** A value, or the error that was thrown. */
  datatype Try<+T> = Fine(value: T) | Failed(error: Error) {
    predicate IsFailure() {
      Failed?
    }

    function PropagateFailure<U>(): Try<U>
      requires Failed?
    {
      Failed(error)
    }

    function Extract(): T
      requires Fine?
    {
      value
    }
  }

  predicate IsRetryable(code: Code) {
    code in {Timeout, NetworkError, ConversationResetFailed, SubmissionFailed, PageChanged, AnswerNotFound,
      SubmitDegraded}
  }

  /** Codes that cover both a sent and an unsent prompt: only an explicit flag allows a retry. */
  predicate IsResubmitUnsafe(code: Code) {
    code in {Timeout, NetworkError, SubmissionFailed, PageChanged}
  }

  predicate CanRetryOutcome(e: Error) {
    IsRetryable(e.code) && (IsResubmitUnsafe(e.code) ==> e.promptSubmitted == Some(false))
  }
}
