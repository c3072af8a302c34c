/** src/components/Materials/MaterialCard.tsx: the card shown for one
    material in the listing, profile and my-materials pages. The service call
    is a parameter, `callSucceeds`: whether `materialsService` returned or
    threw. */
module MaterialCard {
  import opened Types
  import opened Outcomes
  import Text

  /** The signed-in user's id occurs in the material's `voted` list. */
  predicate HasUserVoted(user: Option<User>, m: Material) {
    user.Some? && user.value.id in m.voted
  }

  /** The name shown for the uploader: a bare id shows "Unknown User", an
      object shows its `name` even when that name is empty. */
  function UploaderName(u: Uploader): (r: string)
    ensures u.ById? ==> r == "Unknown User"
    ensures !u.ById? ==> r == UploaderObjectName(u)
  {
    match u
    case ById(_) => "Unknown User"
    case ByPartialUser(p) => p.name
    case ByUser(full) => full.name
  }

  /** `handleVote`: the outcome, and the count passed to `onVote` (None when
      `onVote` is not called). */
  function HandleVote(isAuthenticated: bool, user: Option<User>, m: Material,
                      voteType: VoteType, callSucceeds: bool): (r: (Attempt, Option<int>))
    ensures r.0 == Refused(NotLoggedIn) <==> !isAuthenticated
    ensures r.0 == Refused(AlreadyVoted) <==> isAuthenticated && HasUserVoted(user, m)
    ensures r.0.Refused? ==> r.0.why == NotLoggedIn || r.0.why == AlreadyVoted
    ensures r.0 == CallFailed <==> r.0.ServiceCalled() && !callSucceeds
    ensures r.1.Some? <==> r.0 == Done
    ensures r.0 == Done && voteType == Upvote ==> r.1 == Some(m.upvotes + 1)
    ensures r.0 == Done && voteType == Downvote ==> r.1 == Some(m.upvotes)
  {
    if !isAuthenticated then (Refused(NotLoggedIn), None)
    else if HasUserVoted(user, m) then (Refused(AlreadyVoted), None)
    else if !callSucceeds then (CallFailed, None)
    else (Done, Some(if voteType == Upvote then m.upvotes + 1 else m.upvotes))
  }

  /** The `disabled` condition of both vote buttons. */
  predicate VoteButtonsDisabled(isVoting: bool, isAuthenticated: bool, user: Option<User>, m: Material) {
    isVoting || HasUserVoted(user, m) || !isAuthenticated
  }

  /** While no vote is in flight, the buttons are disabled exactly when a
      click would be refused before reaching the service. */
  lemma ButtonsDisabledIffRefused(isAuthenticated: bool, user: Option<User>, m: Material,
                                  voteType: VoteType, callSucceeds: bool)
    ensures VoteButtonsDisabled(false, isAuthenticated, user, m)
            <==> HandleVote(isAuthenticated, user, m, voteType, callSucceeds).0.Refused?
  {
  }

  /** The report dialog's state: the typed reason and whether it is open. */
  datatype ReportForm = ReportForm(reason: string, dialogOpen: bool)

  /** `handleReport`: the outcome, the reason sent to the service (untrimmed),
      and the dialog state afterwards. */
  function HandleReport(isAuthenticated: bool, form: ReportForm, callSucceeds: bool)
    : (r: (Attempt, Option<string>, ReportForm))
    ensures r.0 == Refused(NotLoggedIn) <==> !isAuthenticated
    ensures r.0 == Refused(BlankReason) <==> isAuthenticated && Text.IsBlank(form.reason)
    ensures r.0.Refused? ==> r.0.why == NotLoggedIn || r.0.why == BlankReason
    ensures r.0 == CallFailed <==> r.0.ServiceCalled() && !callSucceeds
    ensures r.1 == (if r.0.ServiceCalled() then Some(form.reason) else None)
    ensures r.0 == Done ==> r.2 == ReportForm("", false)
    ensures r.0 != Done ==> r.2 == form
  {
    Text.TrimEmptyIffBlank(form.reason);
    if !isAuthenticated then (Refused(NotLoggedIn), None, form)
    else if Text.Trim(form.reason) == "" then (Refused(BlankReason), None, form)
    else if !callSucceeds then (CallFailed, Some(form.reason), form)
    else (Done, Some(form.reason), ReportForm("", false))
  }

  /** The `disabled` condition of the dialog's submit button. */
  predicate ReportButtonDisabled(isReporting: bool, form: ReportForm) {
    isReporting || Text.Trim(form.reason) == ""
  }

  /** An enabled submit button never meets the blank-reason refusal. */
  lemma EnabledReportIsNotBlank(form: ReportForm, callSucceeds: bool)
    ensures !ReportButtonDisabled(false, form)
            <==> HandleReport(true, form, callSucceeds).0 != Refused(BlankReason)
  {
    Text.TrimEmptyIffBlank(form.reason);
  }
}
