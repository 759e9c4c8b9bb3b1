/** The parts of an HTTP request and response the limiting layer reads or
  * writes, and the attributes it attaches to a request in flight. */
module Http {
  import opened Common
  import opened Decision

  /** The signed-in account of a request. */
  datatype AuthUser = AuthUser(email: string, username: string)

  /** A request as the middleware and the decorators see it. `clientIp` is
    * what the address resolver returns (possibly nothing); `user` is the
    * authenticated account, if any; `post` the form fields; `data` the
    * parsed body when the request carries a dictionary-shaped one. */
  datatype Request = Request(
    path: string,
    httpMethod: string,
    clientIp: Option<string>,
    user: Option<AuthUser>,
    post: map<string, string>,
    data: Option<map<string, string>>)

  /** Response bodies produced by the limiting layer; `ViewBody` stands for
    * whatever the protected view produced. */
  datatype Body =
    | RateLimitedBody(error: string, message: string, retryAfter: int,
                      action: Option<string>, detail: Option<Verdict>)
    | BlockedBody(error: string, message: string, blockedAt: int, reason: string)
    | ViewBody

  datatype Response = Response(status: int, headers: map<string, string>, body: Body)

  /** The response a protected view returns with the given status. */
  function ViewResponse(status: int): Response {
    Response(status, map[], ViewBody)
  }

  /** Attributes attached to one request object while it is handled. */
  class RequestAttributes {
    var rateLimitChecked: bool
    var rateLimitInfo: Option<Verdict>

    constructor ()
      ensures !rateLimitChecked && rateLimitInfo.None?
    {
      rateLimitChecked := false;
      rateLimitInfo := None;
    }
  }

  /** The address the limiter attributes a request to; requests whose
    * address cannot be resolved all share the loopback address. */
  function ClientIp(req: Request): (ip: string)
    ensures Truthy(req.clientIp) ==> ip == req.clientIp.value
    ensures !Truthy(req.clientIp) ==> ip == "127.0.0.1"
    ensures ip != ""
  {
    if Truthy(req.clientIp) then req.clientIp.value else "127.0.0.1"
  }

  /** A request counts as successful when its status is 2xx or 3xx. */
  predicate IsSuccess(status: int) {
    200 <= status < 400
  }
}
