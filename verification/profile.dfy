/** The profile page: who is sent away, the name and role shown, and the
    admin shortcut. */
module Profile {
  import opened Js
  import opened Auth
  import opened Navigation

  /** Once loading is over, a visitor without a user goes to the sign-in page. */
  function Redirect(loading: bool, signedIn: bool): (target: Option<string>)
    ensures target.Some? <==> !loading && !signedIn
    ensures target.Some? ==> target.value == "/auth"
  {
    if !loading && !signedIn then Some("/auth") else None
  }

  /** The profile shows the whole display name when there is one,
      otherwise the e-mail name. */
  function FullName(displayName: Option<string>, email: Option<string>): (name: string)
    ensures name != ""
    ensures Truthy(displayName) ==> name == displayName.value
    ensures !Truthy(displayName) ==> name == EmailName(email)
  {
    if Truthy(displayName) then displayName.value else EmailName(email)
  }

  /** The top bar's name is the beginning of the profile's name. */
  lemma ShortNameBeginsFullName(displayName: Option<string>, email: Option<string>)
    ensures ShortName(displayName, email) <= FullName(displayName, email)
    ensures ' ' !in FullName(displayName, email) ==> ShortName(displayName, email) == FullName(displayName, email)
  {
  }

  /** The role line: "Administrador" exactly for the admin role, that is,
      exactly for the users a confirmed sign-in sends to the administration
      page. */
  function RoleLabel(role: Option<string>): (text: string)
    ensures text == "Administrador" <==> role == Some(AdminRole)
    ensures text == "Administrador" <==> RoleHome(role) == "/admin"
    ensures text != "Administrador" ==> text == "Membro"
  {
    if IsAdminRole(role) then "Administrador" else "Membro"
  }

  /** The admin shortcut is offered to exactly the users the hook calls admins. */
  predicate ShowsAdminShortcut(role: Option<string>) {
    IsAdminRole(role)
  }

  lemma ShortcutMatchesIsAdmin(s: AuthState)
    ensures ShowsAdminShortcut(s.role) <==> IsAdmin(s)
    ensures ShowsAdminShortcut(s.role) <==> RoleLabel(s.role) == "Administrador"
  {
  }
}
