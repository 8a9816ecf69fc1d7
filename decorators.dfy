/**
 * The login guards (utils/decorators.py). Each wraps a handler and looks
 * only at `session.get('user_id')`: a falsy value answers for the handler,
 * anything else calls it and returns its result unchanged.
 */
module Decorators {

  /** What `session.get('user_id')` yields: nothing, an integer or a text. */
  datatype SessionValue = Missing | IntValue(n: int) | TextValue(s: string)

  /** Python truthiness of that value: `None`, `0` and `''` are falsy. */
  predicate Truthy(v: SessionValue) {
    match v
    case Missing => false
    case IntValue(n) => n != 0
    case TextValue(s) => s != ""
  }

  /** The answers a guarded route can give. */
  datatype Response<R> =
    | Handled(result: R)
    | Redirect(endpoint: string, flashMessage: string, flashCategory: string)
    | Json(error: string, status: int)

  const LoginEndpoint: string := "auth.login"
  const LoginFlash: string := "Bitte einloggen"
  const AuthError: string := "Authentication required"
  const Unauthorized: int := 401

  /**
   * `login_required`: without a user in the session, flash 'Bitte einloggen'
   * and redirect to the login page; otherwise the handler's own result.
   */
  function LoginRequired<R>(session: SessionValue, handler: () -> R): (r: Response<R>)
    ensures r.Handled? <==> Truthy(session)
    ensures r.Handled? ==> r.result == handler()
    ensures !r.Handled? ==> r == Redirect(LoginEndpoint, LoginFlash, "error")
  {
    if !Truthy(session) then Redirect(LoginEndpoint, LoginFlash, "error") else Handled(handler())
  }

  /** `api_login_required`: without a user, the 401 JSON error; otherwise the handler's result. */
  function ApiLoginRequired<R>(session: SessionValue, handler: () -> R): (r: Response<R>)
    ensures r.Handled? <==> Truthy(session)
    ensures r.Handled? ==> r.result == handler()
    ensures !r.Handled? ==> r == Json(AuthError, Unauthorized)
  {
    if !Truthy(session) then Json(AuthError, Unauthorized) else Handled(handler())
  }

  /** A refused request never reaches the handler: its answer is the same whatever the handler is. */
  lemma RefusalIgnoresHandler<R>(session: SessionValue, h1: () -> R, h2: () -> R)
    requires !Truthy(session)
    ensures LoginRequired(session, h1) == LoginRequired(session, h2)
    ensures ApiLoginRequired(session, h1) == ApiLoginRequired(session, h2)
    ensures !LoginRequired(session, h1).Handled? && !ApiLoginRequired(session, h1).Handled?
  {
  }

  /** A user id of 0 or an empty text is treated exactly as a missing one. */
  lemma FalsyIdsAreMissing<R>(handler: () -> R)
    ensures LoginRequired(IntValue(0), handler) == LoginRequired(TextValue(""), handler)
                                                == LoginRequired(Missing, handler)
    ensures ApiLoginRequired(IntValue(0), handler) == ApiLoginRequired(TextValue(""), handler)
                                                   == ApiLoginRequired(Missing, handler)
  {
  }
}
