/** The sidebar: which navigation item is highlighted and the signed-in
    user's avatar initials and name. */
module Sidebar {
  import opened Wrappers
  import opened Text
  import opened Schema
  import opened Initials

  datatype NavItem = NavItem(title: string, path: string)

  const NavItems: seq<NavItem> := [
    NavItem("Tasks", "/"),
    NavItem("Calendar", "/calendar"),
    NavItem("Analytics", "/analytics"),
    NavItem("Profile", "/profile")]

  /** For each item, whether it is highlighted: exactly when the location is its path. */
  function Highlighted(location: string): (r: seq<bool>)
    ensures |r| == |NavItems|
    ensures forall i :: 0 <= i < |NavItems| ==> (r[i] <==> NavItems[i].path == location)
  {
    seq(|NavItems|, i requires 0 <= i < |NavItems| => NavItems[i].path == location)
  }

  /** The four paths differ, so at most one item is highlighted. */
  lemma AtMostOneHighlighted(location: string, i: int, j: int)
    requires 0 <= i < |NavItems| && 0 <= j < |NavItems|
    requires Highlighted(location)[i] && Highlighted(location)[j]
    ensures i == j
  {
    var paths := seq(|NavItems|, k requires 0 <= k < |NavItems| => NavItems[k].path);
    assert paths[0] == "/" && paths[1] == "/calendar" && paths[2] == "/analytics" && paths[3] == "/profile";
    assert |paths[0]| == 1 && |paths[1]| == 9 && |paths[2]| == 10 && |paths[3]| == 8;
    assert paths[i] == location && paths[j] == location;
  }

  /** getInitials: "?" without a user, the name's initials when the name is
      non-empty, otherwise the username's first letter, upper-cased. */
  function GetInitials(user: Option<PublicUser>): (r: string)
    ensures user.None? ==> r == "?"
    ensures user.Some? && user.value.name.Some? && user.value.name.value != [] ==>
      r == NameInitials(user.value.name.value)
    ensures user.Some? && (user.value.name.None? || user.value.name.value == []) ==>
      r == Upper(FirstChar(user.value.username)) && |r| <= 1
  {
    match user
    case None => "?"
    case Some(u) =>
      if u.name.Some? && u.name.value != [] then NameInitials(u.name.value)
      else Upper(FirstChar(u.username))
  }

  /** The name under the avatar: the name when non-empty, else the username;
      nothing without a user. */
  function DisplayName(user: Option<PublicUser>): (r: Option<string>)
    ensures r.None? <==> user.None?
    ensures user.Some? && user.value.name.Some? && user.value.name.value != [] ==> r == user.value.name
    ensures user.Some? && (user.value.name.None? || user.value.name.value == []) ==> r == Some(user.value.username)
  {
    match user
    case None => None
    case Some(u) => if u.name.Some? && u.name.value != [] then u.name else Some(u.username)
  }
}
