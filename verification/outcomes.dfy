/** What a guarded event handler did: returned early with a notice, called
    the service and saw it throw, or called it and saw it return. */
module Outcomes {

  /** The early returns of the handlers, one per error notice. */
  datatype Refusal = NotLoggedIn | AlreadyVoted | BlankReason

  datatype Attempt = Refused(why: Refusal) | CallFailed | Done {
    /** The service was called exactly when the handler got past its guards. */
    predicate ServiceCalled() { !Refused? }
  }
}
