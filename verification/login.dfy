/** The login page (`src/app/login/page.tsx`): the auth error messages, the forgot-password
    guard, the tab switch and the busy flags. The auth provider's calls are parameters: whether
    they failed, and with which error. */
module Login {
  import opened Wrappers

  /** An `AuthError`: its code and the provider's own message. */
  datatype AuthError = AuthError(code: string, message: string)

  const InvalidCredentials := "Invalid email or password."
  const EmailInUse := "An account with this email already exists."
  const WeakPassword := "The password is too weak."

  /** The `switch` of `handleAuthError` (lines 30-53). */
  function AuthErrorMessage(e: AuthError): (m: string)
    ensures e.code == "auth/user-not-found" || e.code == "auth/wrong-password" ==> m == InvalidCredentials
    ensures e.code == "auth/email-already-in-use" ==> m == EmailInUse
    ensures e.code == "auth/weak-password" ==> m == WeakPassword
    ensures e.code !in {"auth/user-not-found", "auth/wrong-password", "auth/email-already-in-use", "auth/weak-password"} ==>
      m == e.message
  {
    match e.code
    case "auth/user-not-found" => InvalidCredentials
    case "auth/wrong-password" => InvalidCredentials
    case "auth/email-already-in-use" => EmailInUse
    case "auth/weak-password" => WeakPassword
    case _ => e.message
  }

  /** A wrong email and a wrong password read the same, so the message does not reveal which
      accounts exist. */
  lemma CredentialErrorsIndistinguishable(m1: string, m2: string)
    ensures AuthErrorMessage(AuthError("auth/user-not-found", m1)) == AuthErrorMessage(AuthError("auth/wrong-password", m2))
  {
  }

  datatype Form = Form(email: string, password: string, tab: string, loading: bool, resetLoading: bool)

  /** What the user sees after an action: nothing, a success (and where it navigates), or an
      error toast with its text. */
  datatype Notice = Silent | Navigated(to: string) | ResetSent | EmailRequired | Failed(message: string)

  /** `handleLogin` / `handleSignup` (lines 56-80): success navigates to `/`, a failure shows the
      mapped message; `loading` is cleared in `finally` either way. */
  function SubmitCredentials(f: Form, outcome: Option<AuthError>): (r: (Form, Notice))
    ensures !r.0.loading
    ensures r.0 == f.(loading := false)
    ensures outcome.None? ==> r.1 == Navigated("/")
    ensures outcome.Some? ==> r.1 == Failed(AuthErrorMessage(outcome.value))
  {
    (f.(loading := false), if outcome.None? then Navigated("/") else Failed(AuthErrorMessage(outcome.value)))
  }

  /** `handleForgotPassword` (lines 82-104): without an email nothing is sent (the second
      component says whether a reset email was requested). */
  function ForgotPassword(f: Form, outcome: Option<AuthError>): (r: (Form, bool, Notice))
    ensures f.email == "" ==> r == (f, false, EmailRequired)
    ensures f.email != "" ==> r.1 && !r.0.resetLoading && r.0 == f.(resetLoading := false)
    ensures f.email != "" && outcome.None? ==> r.2 == ResetSent
    ensures f.email != "" && outcome.Some? ==> r.2 == Failed(AuthErrorMessage(outcome.value))
  {
    if f.email == "" then (f, false, EmailRequired)
    else (f.(resetLoading := false), true, if outcome.None? then ResetSent else Failed(AuthErrorMessage(outcome.value)))
  }

  /** `handleTabChange` (lines 106-110): the tab changes and both credentials are cleared. */
  function TabChange(f: Form, tab: string): (g: Form)
    ensures g.tab == tab && g.email == "" && g.password == ""
    ensures g.loading == f.loading && g.resetLoading == f.resetLoading
  {
    f.(tab := tab, email := "", password := "")
  }
}
