/** The password reset page: who may see the form, and what a submit does. */
module ResetPassword {
  import opened Js

  /** The minimum length, counted as JavaScript counts (UTF-16 units). */
  const MinLength: nat := 6

  const FallbackMessage: string := "Tente novamente mais tarde."

  /** The form is shown only with a session (from the reset link); without
      one the visitor is sent to the sign-in page. */
  function Gate(hasSession: bool): (r: (bool, Option<string>))
    ensures r.0 <==> hasSession
    ensures r.1.Some? <==> !hasSession
    ensures r.1.Some? ==> r.1.value == "/auth"
  {
    if hasSession then (true, None) else (false, Some("/auth"))
  }

  datatype ResetOutcome = Mismatch | TooShort | Changed | Failed(message: string)

  /** The outcome, the new password sent to the service (if any), and where
      the page goes next. */
  datatype Reset = Reset(outcome: ResetOutcome, update: Option<string>, next: Option<string>)

  /** `handlePasswordReset`: the two entries must match, then be at least
      six long; only then is the update requested. A success leads to the
      profile page; a failure shows the service's message or a fallback. */
  function Submit(password: string, confirmation: string, updateError: Option<string>): (r: Reset)
    ensures r.outcome == Mismatch <==> password != confirmation
    ensures r.outcome == TooShort <==> password == confirmation && Utf16Length(password) < MinLength
    ensures r.update.Some? <==> password == confirmation && Utf16Length(password) >= MinLength
    ensures r.update.Some? ==> r.update.value == password
    ensures r.outcome == Changed <==> r.update.Some? && updateError.None?
    ensures r.next.Some? <==> r.outcome == Changed
    ensures r.next.Some? ==> r.next.value == "/profile"
    ensures r.outcome.Failed? ==> r.outcome.message != "" && updateError.Some? &&
                                  (updateError.value != "" ==> r.outcome.message == updateError.value)
  {
    if password != confirmation then Reset(Mismatch, None, None)
    else if Utf16Length(password) < MinLength then Reset(TooShort, None, None)
    else if updateError.None? then Reset(Changed, Some(password), Some("/profile"))
    else Reset(Failed(if updateError.value == "" then FallbackMessage else updateError.value), Some(password), None)
  }

  /** Entries that differ are reported as a mismatch even when both are too
      short, and nothing is sent to the service. */
  lemma MismatchReportedFirst(password: string, confirmation: string, updateError: Option<string>)
    requires password != confirmation
    requires Utf16Length(password) < MinLength && Utf16Length(confirmation) < MinLength
    ensures Submit(password, confirmation, updateError).outcome == Mismatch
    ensures Submit(password, confirmation, updateError).update.None?
  {
  }

  /** Three characters outside the Basic Multilingual Plane already count
      as six, so such a password is long enough. */
  lemma AstralCharactersCountTwice()
    ensures Utf16Length("\U{1F600}\U{1F600}\U{1F600}") == 6
    ensures Submit("\U{1F600}\U{1F600}\U{1F600}", "\U{1F600}\U{1F600}\U{1F600}", None).outcome == Changed
  {
    var s := "\U{1F600}\U{1F600}\U{1F600}";
    assert s[1..][1..][1..] == "";
    assert Utf16Length(s[1..][1..]) == 2;
  }
}
