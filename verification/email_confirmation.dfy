/** The e-mail confirmation page: which exchange the link's parameters
    lead to and where the visitor goes after it. Session, exchange and
    profile reads are inputs. */
module EmailConfirmation {
  import opened Js
  import opened Auth

  /** The confirmation link's query parameters. */
  datatype LinkParams = LinkParams(
    tokenHash: Option<string>,
    kind: Option<string>,
    accessToken: Option<string>,
    refreshToken: Option<string>)

  /** The exchange made with the service. */
  datatype Exchange = NoExchange | SetSession | VerifyOtp

  /** What the exchange returned: an error message, or the user (if any). */
  datatype ExchangeResult = ExchangeFailed(message: string) | ExchangeOk(user: Option<string>)

  datatype Confirmation = Confirmation(exchange: Exchange, confirmed: bool, next: Option<string>, error: Option<string>)

  const FallbackError: string := "Erro ao processar confirmação"

  /** A session already signed in, a token pair, a token hash with its type,
      or nothing usable, checked in that order. */
  function ChosenExchange(sessionUser: Option<string>, p: LinkParams): (e: Exchange)
    ensures e == SetSession <==> sessionUser.None? && Truthy(p.accessToken) && Truthy(p.refreshToken)
    ensures e == VerifyOtp <==> sessionUser.None? && !(Truthy(p.accessToken) && Truthy(p.refreshToken)) &&
                                Truthy(p.tokenHash) && Truthy(p.kind)
  {
    if sessionUser.Some? then NoExchange
    else if Truthy(p.accessToken) && Truthy(p.refreshToken) then SetSession
    else if Truthy(p.tokenHash) && Truthy(p.kind) then VerifyOtp
    else NoExchange
  }

  /** `handleEmailConfirmation`. A confirmed user lands by role; an
      exchange error is shown and nothing else happens; an exchange that
      returns no user, or a link with nothing usable, shows nothing, and
      the latter goes to the home page. */
  function Confirm(sessionUser: Option<string>, p: LinkParams, result: ExchangeResult,
                   profileRole: Option<string>): (c: Confirmation)
    ensures c.exchange == ChosenExchange(sessionUser, p)
    ensures c.confirmed <==> sessionUser.Some? || (c.exchange != NoExchange && result.ExchangeOk? && result.user.Some?)
    ensures c.confirmed ==> c.next == Some(RoleHome(profileRole)) && c.error.None?
    ensures c.error.Some? <==> c.exchange != NoExchange && result.ExchangeFailed?
    ensures c.error.Some? ==> c.error.value != "" && c.next.None? &&
                              (result.message != "" ==> c.error.value == result.message)
    ensures c.next == Some("/admin") ==> c.confirmed && profileRole == Some(AdminRole)
    ensures sessionUser.None? && c.exchange == NoExchange ==> c.next == Some("/") && !c.confirmed
    ensures sessionUser.None? && c.exchange != NoExchange && result == ExchangeOk(None) ==>
              c.next.None? && c.error.None? && !c.confirmed
  {
    var e := ChosenExchange(sessionUser, p);
    if sessionUser.Some? then Confirmation(e, true, Some(RoleHome(profileRole)), None)
    else if e == NoExchange then Confirmation(e, false, Some("/"), None)
    else match result
      case ExchangeFailed(m) => Confirmation(e, false, None, Some(if m == "" then FallbackError else m))
      case ExchangeOk(u) =>
        if u.Some? then Confirmation(e, true, Some(RoleHome(profileRole)), None)
        else Confirmation(e, false, None, None)
  }

  /** A link carrying both a token pair and a token hash uses the token pair. */
  lemma TokenPairWins(p: LinkParams)
    requires Truthy(p.accessToken) && Truthy(p.refreshToken) && Truthy(p.tokenHash) && Truthy(p.kind)
    ensures ChosenExchange(None, p) == SetSession
  {
  }
}
