/** What both security filters share: the token settings, the claims of a
    token, the outcome of the signature-checking parser, and the servlet
    exchange (response, filter chain and security context) the filters
    update while handling one request. */
module Jwt {
  import opened Common

  /** TokenJwtConfig: the header carrying the token, its prefix, and the
      content type of JSON responses. The signing key lives inside the
      sign and parse functions the filters are given. */
  datatype TokenConfig = TokenConfig(headerName: string, prefix: string, contentType: string)

  /** The claims of a token; epoch times in milliseconds. */
  datatype Claims = Claims(
    subject: Option<string>,
    username: Option<string>,
    isAdmin: Option<bool>,
    authorities: Option<string>,
    issuedAt: Option<int>,
    expiration: Option<int>)

  /** What the signature-checking parser makes of a token: its payload,
      a JwtException (bad signature, malformed, expired), or
      another exception (the parser refuses an empty token with an
      IllegalArgumentException). */
  datatype ParseResult =
    | Parsed(claims: Claims)
    | JwtFailure(message: Option<string>)
    | OtherFailure(message: Option<string>)

  /** One request/response pair as a filter sees it. */
  class Exchange {
    /** HttpServletResponse status, 200 until set. */
    var status: int
    var contentType: Option<string>
    /** Headers added with addHeader, in order. */
    var headers: seq<(string, string)>
    /** JSON bodies written to the response writer, in order. */
    var written: seq<JsonObject>
    /** How many times the filter passed the request down the chain. */
    var chainCalls: nat
    /** The authentication in this request's security context. */
    var authentication: Option<Identity>

    constructor ()
      ensures status == 200 && contentType.None? && headers == [] && written == []
      ensures chainCalls == 0 && authentication.None?
    {
      status, contentType, headers, written := 200, None, [], [];
      chainCalls, authentication := 0, None;
    }
  }
}
