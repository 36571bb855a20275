/** The top bar: the category buttons and which one is highlighted, the
    signed-in user's short name, and the links offered to visitors, users
    and admins. The profile's display name and e-mail are inputs. */
module Navigation {
  import opened Js

  datatype Category = Category(name: string, path: string)

  /** The category buttons of the top bar, in order. */
  const Categories: seq<Category> := [
    Category("Todos", "/todos"),
    Category("Artigos Completos", "/artigos-completos"),
    Category("Textos Acadêmicos", "/textos-academicos"),
    Category("Pesquisas", "/pesquisas"),
    Category("Dissertações", "/dissertacoes")
  ]

  /** The name shown when nothing better is known. */
  const Anonymous: string := "Usuário"

  /** `email?.split('@')[0] || 'Usuário'`: the part of the address before
      the first `@`, or the fallback when that is empty or there is no address. */
  function EmailName(email: Option<string>): (name: string)
    ensures name != ""
    ensures name != Anonymous ==> email.Some? && name <= email.value && '@' !in name
    ensures email.Some? && email.value != "" && email.value[0] != '@' ==>
              name <= email.value && '@' !in name &&
              (|name| == |email.value| || email.value[|name|] == '@')
    ensures email.None? || email.value == "" || email.value[0] == '@' ==> name == Anonymous
    ensures email.Some? && '@' !in email.value && email.value != "" ==> name == email.value
  {
    if email.None? then Anonymous
    else
      SplitHead(email.value, '@');
      var local := Split(email.value, '@')[0];
      if local == "" then Anonymous else local
  }

  /** The top bar's name: the first space-separated word of the profile's
      display name when it has one, otherwise the e-mail name. */
  function ShortName(displayName: Option<string>, email: Option<string>): (name: string)
    ensures Truthy(displayName) ==> name <= displayName.value && ' ' !in name
    ensures Truthy(displayName) && |name| < |displayName.value| ==> displayName.value[|name|] == ' '
    ensures Truthy(displayName) && ' ' !in displayName.value ==> name == displayName.value
    ensures !Truthy(displayName) ==> name == EmailName(email)
  {
    if Truthy(displayName) then
      SplitHead(displayName.value, ' ');
      Split(displayName.value, ' ')[0]
    else EmailName(email)
  }

  /** The user button's text: the short name, or the fallback while it is empty. */
  function ButtonLabel(shortName: string): (text: string)
    ensures text != ""
    ensures shortName != "" ==> text == shortName
  {
    if shortName == "" then Anonymous else shortName
  }

  /** A display name that starts with a space has an empty first word, so
      the button falls back to the anonymous label. */
  lemma LeadingSpaceShowsAnonymous(email: Option<string>)
    ensures ShortName(Some(" Ana"), email) == ""
    ensures ButtonLabel(ShortName(Some(" Ana"), email)) == Anonymous
  {
    var s := " Ana";
    assert s[0] == ' ';
    assert Split(s, ' ') == [""] + Split(s[1..], ' ');
  }

  /** A category button is highlighted when the address is its path. */
  predicate CategoryActive(pathname: string, c: Category) {
    pathname == c.path
  }

  /** At most one category button is highlighted at a time. */
  lemma AtMostOneActive(pathname: string, i: int, j: int)
    requires 0 <= i < |Categories| && 0 <= j < |Categories|
    requires CategoryActive(pathname, Categories[i]) && CategoryActive(pathname, Categories[j])
    ensures i == j
  {
  }

  /** The account links: favourites, profile and sign-out for a signed-in
      user, the admin panel only for a signed-in admin, and sign-in for a
      visitor. Desktop and mobile menus offer the same links. */
  datatype Links = Links(favorites: bool, profile: bool, admin: bool, signOut: bool, signIn: bool)

  function AccountLinks(signedIn: bool, isAdmin: bool): (l: Links)
    ensures l.admin <==> signedIn && isAdmin
    ensures l.signIn <==> !signedIn
    ensures l.favorites == signedIn && l.profile == signedIn && l.signOut == signedIn
    ensures l.admin ==> l.profile && !l.signIn
  {
    if signedIn then Links(true, true, isAdmin, true, false)
    else Links(false, false, false, false, true)
  }
}
