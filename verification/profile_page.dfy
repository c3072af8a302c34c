/** src/pages/Profile.tsx: the profile page's upload list, points bar and
    badge grid. `user` is the signed-in user, None when absent. */
module ProfilePage {
  import opened Types
  import ListVotes
  import ProfileInfo

  /** `handleVote`: the same list update as on the my-materials page. */
  function HandleVote(materials: seq<Material>, materialId: string, newVoteCount: int, user: Option<User>)
    : (r: seq<Material>)
    ensures ListVotes.VoteRecorded(materials, r, materialId, newVoteCount, VoterId(user))
  {
    ListVotes.ApplyListVote(materials, materialId, newVoteCount, VoterId(user))
  }

  /** `user?.points || 0`: with `points` a number, `|| 0` only maps 0 to 0,
      so a signed-in user's points are shown as they are. */
  function ShownPoints(user: Option<User>): (r: int)
    ensures user.Some? ==> r == user.value.points
    ensures user.None? ==> r == 0
  {
    if user.Some? && user.value.points != 0 then user.value.points else 0
  }

  /** `user?.points && user.points >= threshold`: a missing user or zero
      points fail the truthiness test before the comparison. */
  predicate Earned(user: Option<User>, threshold: int) {
    user.Some? && user.value.points != 0 && user.value.points >= threshold
  }

  datatype Badges = Badges(contributor: bool, expert: bool, scholar: bool)

  /** The badge grid: which of the three badges is shown as earned. */
  function EarnedBadges(user: Option<User>): (r: Badges)
    ensures r.contributor <==> ShownPoints(user) >= 20
    ensures r.expert <==> ShownPoints(user) >= 50
    ensures r.scholar <==> ShownPoints(user) >= 100
    ensures r.scholar ==> r.expert
    ensures r.expert ==> r.contributor
  {
    Badges(Earned(user, 20), Earned(user, 50), Earned(user, 100))
  }

  /** The highest earned badge, or Newcomer when none is earned. */
  function HighestBadge(b: Badges): ProfileInfo.Rank {
    if b.scholar then ProfileInfo.Scholar
    else if b.expert then ProfileInfo.Expert
    else if b.contributor then ProfileInfo.Contributor
    else ProfileInfo.Newcomer
  }

  /** The profile card's badge names the highest badge the grid marks as
      earned, and Newcomer when it marks none. */
  lemma CardBadgeMatchesGrid(user: User)
    ensures ProfileInfo.ShownBadge(user) == HighestBadge(EarnedBadges(Some(user)))
    ensures ProfileInfo.ShownBadge(user).Label() == HighestBadge(EarnedBadges(Some(user))).Label()
  {
  }

  /** The width of the points bar in percent, `Math.min(100, points)` with
      the float arithmetic dropped. */
  function ProgressWidth(user: Option<User>): (r: int)
    ensures r <= 100
    ensures ShownPoints(user) <= 100 ==> r == ShownPoints(user)
    ensures ShownPoints(user) >= 100 ==> r == 100
  {
    if ShownPoints(user) < 100 then ShownPoints(user) else 100
  }
}
