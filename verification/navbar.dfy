/** src/components/Layout/Navbar.tsx: the avatar in the navigation bar. */
module Navbar {
  import opened Types
  import Initials

  /** `user?.name ? getInitials(user.name) : 'U'`. */
  function AvatarFallback(user: Option<User>): (r: string)
    ensures user.None? || user.value.name == "" ==> r == "U"
    ensures user.Some? && user.value.name != "" ==> r == Initials.GetInitials(user.value.name)
    ensures |r| <= 2
  {
    if user.Some? then Initials.AvatarText(user.value.name) else "U"
  }
}
