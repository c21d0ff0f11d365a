/** frontend/src/services/api.ts: the two global interceptors of the HTTP
    client. The request interceptor reads the token from browser storage;
    the response interceptor treats every 401 as a logout. The redirect to
    the login page is navigation and is not modelled. */
module ApiClient {
  import opened Types

  /** The two browser-storage entries the client uses, "token" and "user". */
  datatype Storage = Storage(token: Option<string>, user: Option<User>)

  const Cleared: Storage := Storage(None, None)

  /** The Authorization header of an outgoing request, before and after the interceptor. */
  datatype RequestConfig = RequestConfig(authorization: Option<string>)

  const Bearer: string := "Bearer "

  /** The request interceptor: attaches "Bearer <token>" when storage holds a
      non-empty token and otherwise passes the request through untouched. */
  function OnRequest(st: Storage, config: RequestConfig): (sent: RequestConfig)
    ensures Truthy(st.token) ==> sent.authorization == Some(Bearer + st.token.value)
    ensures !Truthy(st.token) ==> sent == config
  {
    if Truthy(st.token) then config.(authorization := Some(Bearer + st.token.value)) else config
  }

  predicate IsUnauthorized<T>(reply: Reply<T>) {
    reply.Err? && reply.error.status == Some(401)
  }

  /** The response interceptor: a 401 removes both storage entries; every
      reply, success or error, is handed on unchanged. */
  function OnResponse<T>(st: Storage, reply: Reply<T>): (r: (Storage, Reply<T>))
    ensures r.1 == reply
    ensures IsUnauthorized(reply) ==> r.0 == Cleared
    ensures !IsUnauthorized(reply) ==> r.0 == st
  {
    if IsUnauthorized(reply) then (Cleared, reply) else (st, reply)
  }

  /** Clearing is idempotent: a second 401 finds nothing more to remove. */
  lemma UnauthorizedTwice<T>(st: Storage, a: Reply<T>, b: Reply<T>)
    requires IsUnauthorized(a)
    ensures OnResponse(OnResponse(st, a).0, b).0 == Cleared
  {
  }

  /** After a 401 the next request carries no bearer token from storage. */
  lemma NoTokenAfterUnauthorized<T>(st: Storage, reply: Reply<T>, config: RequestConfig)
    requires IsUnauthorized(reply)
    ensures OnRequest(OnResponse(st, reply).0, config) == config
  {
  }
}
