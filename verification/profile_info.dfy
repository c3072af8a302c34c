/** src/components/Profile/ProfileInfo.tsx: the profile card's rank badge. */
module ProfileInfo {
  import opened Types
  import Text
  import Initials

  /** The four ranks `determineBadge` can return, lowest first. */
  datatype Rank = Newcomer | Contributor | Expert | Scholar {
    function Level(): nat {
      match this
      case Newcomer => 0
      case Contributor => 1
      case Expert => 2
      case Scholar => 3
    }

    function Label(): string {
      match this
      case Newcomer => "Newcomer"
      case Contributor => "Contributor"
      case Expert => "Expert"
      case Scholar => "Scholar"
    }
  }

  /** `determineBadge`: total over the integers, one rank per points band. */
  function DetermineBadge(points: int): (r: Rank)
    ensures r == Scholar <==> points >= 100
    ensures r == Expert <==> 50 <= points < 100
    ensures r == Contributor <==> 20 <= points < 50
    ensures r == Newcomer <==> points < 20
  {
    if points >= 100 then Scholar
    else if points >= 50 then Expert
    else if points >= 20 then Contributor
    else Newcomer
  }

  /** More points never give a lower rank. */
  lemma DetermineBadgeMonotone(p: int, q: int)
    requires p <= q
    ensures DetermineBadge(p).Level() <= DetermineBadge(q).Level()
  {
  }

  /** The badge shown for a signed-in user: `determineBadge(user.points || 0)`.
      With `points` a number, `|| 0` only maps 0 to 0. */
  function ShownBadge(user: User): (r: Rank)
    ensures r == DetermineBadge(user.points)
    ensures user.points == 0 ==> r == Newcomer
  {
    DetermineBadge(if user.points != 0 then user.points else 0)
  }

  /** The card's avatar text, `getInitials(user.name)` with no 'U' fallback:
      the upper-cased first characters of the first two words, so a name of
      spaces (or none) shows nothing. */
  function AvatarInitials(user: User): (r: string)
    ensures r == Initials.TakeTwo(Text.Upper(Initials.WordStartChars(user.name, true)))
    ensures |r| <= 2
    ensures user.name == "" ==> r == ""
  {
    Initials.GetInitialsSpec(user.name);
    Initials.GetInitials(user.name)
  }
}
