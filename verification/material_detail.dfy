/** src/pages/MaterialDetail.tsx: the page for one material. `material` is
    the page's state (None while absent); service calls are the parameter
    `callSucceeds`. */
module MaterialDetail {
  import opened Types
  import opened Outcomes
  import MaterialCard

  /** The local record after a confirmed vote: the chosen counter goes up by
      one, the voter's id is appended, and nothing else changes. */
  function RecordVote(m: Material, voteType: VoteType, voter: string): (r: Material)
    ensures voteType == Upvote ==> r.upvotes == m.upvotes + 1 && r.downvotes == m.downvotes
    ensures voteType == Downvote ==> r.downvotes == m.downvotes + 1 && r.upvotes == m.upvotes
    ensures |r.voted| == |m.voted| + 1 && r.voted[..|m.voted|] == m.voted && r.voted[|m.voted|] == voter
    ensures r.(upvotes := m.upvotes, downvotes := m.downvotes, voted := m.voted) == m
    ensures Balance(r) == Balance(m)
  {
    match voteType
    case Upvote => m.(upvotes := m.upvotes + 1, voted := m.voted + [voter])
    case Downvote => m.(downvotes := m.downvotes + 1, voted := m.voted + [voter])
  }

  /** `handleVote`: the outcome and the page's material afterwards. */
  function HandleVote(material: Option<Material>, isAuthenticated: bool, user: Option<User>,
                      voteType: VoteType, callSucceeds: bool): (r: (Attempt, Option<Material>))
    ensures r.0 == Refused(NotLoggedIn) <==> material.None? || !isAuthenticated
    ensures r.0 == Refused(AlreadyVoted)
            <==> material.Some? && isAuthenticated && MaterialCard.HasUserVoted(user, material.value)
    ensures r.0.Refused? ==> r.0.why == NotLoggedIn || r.0.why == AlreadyVoted
    ensures r.0 == CallFailed <==> r.0.ServiceCalled() && !callSucceeds
    ensures r.0 != Done ==> r.1 == material
    ensures r.0 == Done ==> r.1 == Some(RecordVote(material.value, voteType, VoterId(user)))
  {
    if material.None? || !isAuthenticated then (Refused(NotLoggedIn), material)
    else if MaterialCard.HasUserVoted(user, material.value) then (Refused(AlreadyVoted), material)
    else if !callSucceeds then (CallFailed, material)
    else (Done, Some(RecordVote(material.value, voteType, VoterId(user))))
  }

  /** After a confirmed vote by a signed-in user, any further vote by the same
      user on this page is refused before the service is called. */
  lemma RepeatVoteRefused(material: Option<Material>, user: Option<User>, first: VoteType,
                          second: VoteType, callSucceeds: bool, callSucceeds': bool)
    requires user.Some?
    requires HandleVote(material, true, user, first, callSucceeds).0 == Done
    ensures var after := HandleVote(material, true, user, first, callSucceeds).1;
            HandleVote(after, true, user, second, callSucceeds').0 == Refused(AlreadyVoted)
  {
  }

  /** The uploader name on this page: a bare id, or an object whose name is
      empty, shows "Unknown User"; otherwise the object's name. */
  function UploaderName(u: Uploader): (r: string)
    ensures u.ById? ==> r == "Unknown User"
    ensures !u.ById? && UploaderObjectName(u) != "" ==> r == UploaderObjectName(u)
    ensures !u.ById? && UploaderObjectName(u) == "" ==> r == "Unknown User"
  {
    if u.ById? then "Unknown User"
    else if UploaderObjectName(u) != "" then UploaderObjectName(u)
    else "Unknown User"
  }

  /** The two pages show the same uploader name except for an uploader
      object whose name is empty. */
  lemma UploaderNamesAgree(u: Uploader)
    ensures UploaderName(u) == MaterialCard.UploaderName(u)
            <==> u.ById? || UploaderObjectName(u) != ""
  {
  }

  /** `handleReport`: the card's report handler behind an extra "material
      loaded" guard that refuses like a missing login. */
  function HandleReport(material: Option<Material>, isAuthenticated: bool,
                        form: MaterialCard.ReportForm, callSucceeds: bool)
    : (r: (Attempt, Option<string>, MaterialCard.ReportForm))
    ensures r.0 == Refused(NotLoggedIn) <==> material.None? || !isAuthenticated
    ensures r.1 == (if r.0.ServiceCalled() then Some(form.reason) else None)
    ensures material.Some? ==> r == MaterialCard.HandleReport(isAuthenticated, form, callSucceeds)
    ensures r.0 != Done ==> r.2 == form
  {
    if material.None? then (Refused(NotLoggedIn), None, form)
    else MaterialCard.HandleReport(isAuthenticated, form, callSucceeds)
  }
}
