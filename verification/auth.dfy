/** The signed-in user, their role and the admin flag, as the
    authentication hook keeps them. Session events and profile reads are
    inputs; the profile read that follows a sign-in is its own step. */
module Auth {
  import opened Js

  /** The role given when the profile cannot be read or has none. */
  const DefaultRole: string := "member"

  const AdminRole: string := "admin"

  /** What reading the `profiles` row returned. */
  datatype ProfileRead = ProfileError | ProfileRow(role: Option<string>)

  /** The hook's state: the signed-in user's id, their role, and whether the first session is still awaited. */
  datatype AuthState = AuthState(user: Option<string>, role: Option<string>, loading: bool)

  /** The state before any session is known. */
  const Initial: AuthState := AuthState(None, None, true)

  /** `fetchUserProfile`: the stored role when it is truthy, otherwise the
      default; a failed read also gives the default. */
  function ResolveRole(read: ProfileRead): (role: string)
    ensures role != ""
    ensures read.ProfileRow? && Truthy(read.role) ==> role == read.role.value
    ensures read.ProfileError? || !Truthy(read.role) ==> role == DefaultRole
  {
    if read.ProfileRow? && Truthy(read.role) then read.role.value else DefaultRole
  }

  /** A role that grants the administration pages: exactly "admin". */
  predicate IsAdminRole(role: Option<string>) {
    role == Some(AdminRole)
  }

  /** `isAdmin`: the role is exactly "admin". */
  predicate IsAdmin(s: AuthState) {
    IsAdminRole(s.role)
  }

  /** The profile read finishing. */
  function ProfileLoaded(s: AuthState, read: ProfileRead): (t: AuthState)
    ensures t.user == s.user && t.loading == s.loading
    ensures t.role == Some(ResolveRole(read))
    ensures IsAdmin(t) <==> read.ProfileRow? && read.role == Some(AdminRole)
  {
    s.(role := Some(ResolveRole(read)))
  }

  /** A session change reported by the listener: the user follows the
      session; with a user the profile is read (the id to read is returned),
      without one the role is cleared. Loading is over either way. */
  function OnAuthEvent(s: AuthState, sessionUser: Option<string>): (r: (AuthState, Option<string>))
    ensures r.0.user == sessionUser && !r.0.loading
    ensures r.1 == sessionUser
    ensures sessionUser.None? ==> r.0.role.None? && !IsAdmin(r.0)
    ensures sessionUser.Some? ==> r.0.role == s.role
  {
    if sessionUser.Some? then (AuthState(sessionUser, s.role, false), sessionUser)
    else (AuthState(None, None, false), None)
  }

  /** The session found at start-up: like a session change, except that
      without a user the role is left as it was. */
  function OnInitialSession(s: AuthState, sessionUser: Option<string>): (r: (AuthState, Option<string>))
    ensures r.0.user == sessionUser && !r.0.loading
    ensures r.1 == sessionUser
    ensures r.0.role == s.role
  {
    (AuthState(sessionUser, s.role, false), sessionUser)
  }

  /** The two session handlers agree except on the role when no user is
      signed in: only the listener clears it. */
  lemma SessionHandlersAgree(s: AuthState, sessionUser: Option<string>)
    ensures sessionUser.Some? ==> OnAuthEvent(s, sessionUser) == OnInitialSession(s, sessionUser)
    ensures sessionUser.None? && s.role.Some? ==> OnAuthEvent(s, sessionUser) != OnInitialSession(s, sessionUser)
    ensures OnAuthEvent(s, sessionUser).0.user == OnInitialSession(s, sessionUser).0.user
  {
  }

  /** `signOut`: the local user, session and role are cleared first, and the
      call reports success whatever the service answered. */
  function SignOut(s: AuthState, serviceError: Option<string>): (r: (AuthState, Option<string>))
    ensures r.0.user.None? && r.0.role.None? && !IsAdmin(r.0)
    ensures r.0.loading == s.loading
    ensures r.1.None?
  {
    (s.(user := None, role := None), None)
  }

  /** Signing in and reading the profile makes the user an admin exactly
      when the profile says so; signing out always ends it. */
  lemma AdminAfterSignIn(user: string, read: ProfileRead, serviceError: Option<string>)
    ensures var signedIn := OnAuthEvent(Initial, Some(user)).0;
            IsAdmin(ProfileLoaded(signedIn, read)) <==> read == ProfileRow(Some(AdminRole))
    ensures var signedIn := ProfileLoaded(OnAuthEvent(Initial, Some(user)).0, read);
            !IsAdmin(SignOut(signedIn, serviceError).0)
  {
  }

  /** Where a confirmed sign-in lands: the administration page for an
      admin, the home page otherwise. */
  function RoleHome(profileRole: Option<string>): (path: string)
    ensures path == "/admin" <==> profileRole == Some(AdminRole)
    ensures path != "/admin" ==> path == "/"
  {
    if IsAdminRole(profileRole) then "/admin" else "/"
  }
}
