/** The one controller entry point with logic of its own: the reset-password
    page, which probes the token with an empty password pair before showing
    the form. */
module AuthController {
  import opened Wrappers
  import opened Model
  import Repositories
  import UserService

  const MessageView := "message"
  const ResetPasswordView := "reset-password"

  /** `showResetPasswordPage`: the view rendered for a token. The probe passes
      null passwords, so the service answers with the mismatch message before
      it looks at the token, and the invalid-token view is never chosen. */
  function ShowResetPasswordPage(s: Store, token: string, now: int, encode: string -> string): (view: string)
    ensures view == ResetPasswordView
    ensures view != MessageView
  {
    var validation := UserService.ResetPassword(s, token, None, None, now, encode).reply;
    if validation == UserService.InvalidResetToken then MessageView else ResetPasswordView
  }

  /** The probe never notices a token that does not exist: on an empty store
      every token is unusable, yet the form is shown. */
  lemma ProbeMissesUnknownToken(token: string, now: int, encode: string -> string)
    ensures !Usable(EmptyStore(), token, now)
    ensures ShowResetPasswordPage(EmptyStore(), token, now, encode) == ResetPasswordView
  {
  }

  /** The reset-password page with the token check it evidently intends: the
      message view exactly for a missing or expired token. */
  function ShowResetPasswordPageChecked(s: Store, token: string, now: int): (view: string)
    ensures view == MessageView <==> !Usable(s, token, now)
    ensures view == ResetPasswordView <==> Usable(s, token, now)
  {
    match Repositories.FindByToken(s.tokens, token)
    case None => MessageView
    case Some(vt) => if Expired(vt, now) then MessageView else ResetPasswordView
  }
}
