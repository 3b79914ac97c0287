/** The edit-profile dialog: the form's length rules, its default values and
    the avatar shown in the dialog. */
module EditProfile {
  import opened Wrappers
  import opened Text
  import opened Schema
  import opened Initials
  import Sidebar

  /** The form's values; every field but the username is optional. */
  datatype ProfileForm = ProfileForm(
    name: Option<string>,
    username: string,
    email: Option<string>,
    avatar: Option<string>,
    birthday: Option<string>)

  const MinName: nat := 2
  const MinUsername: nat := 3

  /** profileFormSchema: a name, when present, of at least 2 characters; a
      username of at least 3; an email, when present, that the email check
      `isEmail` accepts. */
  predicate FormOk(f: ProfileForm, isEmail: string -> bool) {
    (f.name.None? || |f.name.value| >= MinName)
    && |f.username| >= MinUsername
    && (f.email.None? || isEmail(f.email.value))
  }

  /** `v || ""`: a missing or empty value becomes "". */
  function OrEmpty(v: Option<string>): (r: string)
    ensures v.Some? ==> r == v.value
    ensures v.None? ==> r == ""
  {
    if v.Some? then v.value else ""
  }

  /** The form's default values: every optional field present, null ones as "". */
  function Defaults(u: PublicUser): (f: ProfileForm)
    ensures f.username == u.username
    ensures f.name == Some(OrEmpty(u.name)) && f.email == Some(OrEmpty(u.email))
    ensures f.avatar == Some(OrEmpty(u.avatar)) && f.birthday == Some(OrEmpty(u.birthday))
  {
    ProfileForm(Some(OrEmpty(u.name)), u.username, Some(OrEmpty(u.email)),
      Some(OrEmpty(u.avatar)), Some(OrEmpty(u.birthday)))
  }

  /** A user without a name cannot save the form untouched: the default "" is
      a present name, and it is shorter than 2. */
  lemma MissingNameBlocksDefaults(u: PublicUser, isEmail: string -> bool)
    requires u.name.None? || u.name.value == []
    ensures !FormOk(Defaults(u), isEmail)
  {
  }

  /** Likewise for a user without an email, as long as the email check
      refuses "" (as any email check does). */
  lemma MissingEmailBlocksDefaults(u: PublicUser, isEmail: string -> bool)
    requires u.email.None? && !isEmail("")
    ensures !FormOk(Defaults(u), isEmail)
  {
  }

  /** For a complete profile the untouched form passes. */
  lemma CompleteProfilePasses(u: PublicUser, isEmail: string -> bool)
    requires u.name.Some? && |u.name.value| >= MinName && |u.username| >= MinUsername
    requires u.email.Some? && isEmail(u.email.value)
    ensures FormOk(Defaults(u), isEmail)
  {
  }

  /** The dialog's fallback initials, computed for the user being edited. */
  function GetInitials(u: PublicUser): (r: string)
    ensures u.name.Some? && u.name.value != [] ==> r == NameInitials(u.name.value)
    ensures u.name.None? || u.name.value == [] ==> r == Upper(FirstChar(u.username))
  {
    if u.name.Some? && u.name.value != [] then NameInitials(u.name.value)
    else Upper(FirstChar(u.username))
  }

  /** The dialog and the sidebar show the same initials for a signed-in user. */
  lemma InitialsAgreeWithSidebar(u: PublicUser)
    ensures GetInitials(u) == Sidebar.GetInitials(Some(u))
  {
  }

  /** The avatar preview starts as the user's avatar, or none when it is
      missing or empty. */
  function InitialPreview(u: PublicUser): (r: Option<string>)
    ensures r.Some? <==> u.avatar.Some? && u.avatar.value != []
    ensures r.Some? ==> r == u.avatar
  {
    if u.avatar.Some? && u.avatar.value != [] then u.avatar else None
  }
}
