/** The bearer-token gate that protects `GET /me`: it reads the signing secret
    and the `Authorization` header, checks the `Bearer` scheme, extracts the
    token, has the JWT library verify it, and requires a truthy `user` in the
    decoded payload. The first failing check answers the request; only a
    request that passes every check gets `req.user` and reaches `next()`. */
module Middleware {
  import opened Wrappers
  import opened Json
  import Text

  const JwtSecretKey: string := "JWT_SECRET"
  const AuthorizationKey: string := "authorization"
  /** The scheme and its separating space, matched case-sensitively. */
  const BearerPrefix: string := "Bearer "

  const InternalError: string := "internal server error"
  const MissingHeader: string := "missing authorization header"
  const BadFormat: string := "invalid authorization header; expected format: 'Authorization: Bearer [TOKEN]'"
  const MissingToken: string := "missing authorization token"
  const InvalidToken: string := "token is invalid or expired"
  const InvalidUser: string := "invalid user"

  /** The errors `jwt.verify` reports to its callback. */
  datatype VerifyError =
    | JsonWebTokenError(message: string)
    | TokenExpiredError(expiredAt: int)
    | NotBeforeError(date: int)

  /** What `jwt.verify(token, secret, callback)` hands its callback: an error,
      or the decoded payload. */
  datatype Verified = Failed(error: VerifyError) | Decoded(payload: Json)

  /** The JWT library's check of a token against a secret, left abstract:
      the signature and expiry checks are the library's. */
  type Verifier = (string, string) -> Verified

  /** How the gate ends: an error response, or `req.user` set and `next()` called. */
  datatype Outcome = Reject(status: int, error: string) | Accept(user: Json)

  /** `m[key]` on a string-valued record (`process.env`, `req.headers`): the
      value stored under `key`, or `undefined`. */
  function Lookup(m: map<string, string>, key: string): (r: Option<string>)
    ensures r.Some? <==> key in m
    ensures r.Some? ==> r.value == m[key]
  {
    if key in m then Some(m[key]) else None
  }

  /** `header.split(' ')[1]`: the second space-separated part, or `undefined`. */
  function TokenOf(header: string): (t: Option<string>)
    ensures t.Some? <==> ' ' in header
    ensures t.Some? ==> ' ' !in t.value
  {
    Text.CountPositive(header, ' ');
    var parts := Text.Split(header, ' ');
    if |parts| > 1 then Some(parts[1]) else None
  }

  /** The decision the gate takes, in the order it takes it. A `null` payload
      makes `payload.user` throw inside the verify callback; the callback runs
      within `jwt.verify`, so the surrounding catch answers 500. */
  function Authenticate(secret: Option<string>, header: Option<string>, verify: Verifier): (r: Outcome)
    ensures r.Accept? ==>
              Present(secret) && Present(header) && Text.StartsWith(header.value, BearerPrefix)
              && Present(TokenOf(header.value))
              && verify(TokenOf(header.value).value, secret.value).Decoded?
              && Property(verify(TokenOf(header.value).value, secret.value).payload, "user") == Value(r.user)
              && Truthy(r.user)
    ensures r.Reject? ==> r.status in {401, 403, 500}
    ensures r.Reject? && r.status == 401 ==> r.error == InvalidUser
    ensures r.Reject? && r.status == 500 ==> r.error == InternalError
  {
    if !Present(secret) then Reject(500, InternalError)
    else if !Present(header) then Reject(403, MissingHeader)
    else if !Text.StartsWith(header.value, BearerPrefix) then Reject(403, BadFormat)
    else if !Present(TokenOf(header.value)) then Reject(403, MissingToken)
    else match verify(TokenOf(header.value).value, secret.value)
      case Failed(_) => Reject(403, InvalidToken)
      case Decoded(payload) =>
        match Property(payload, "user")
        case Thrown => Reject(500, InternalError)
        case Undefined => Reject(401, InvalidUser)
        case Value(user) => if Truthy(user) then Accept(user) else Reject(401, InvalidUser)
  }

  /** The body of an error response: `{ error: message }`. */
  function ErrorBody(message: string): (body: Json)
    ensures body.Object? && body.fields.Keys == {"error"}
    ensures Property(body, "error") == Value(String(message))
  {
    Object(map["error" := String(message)])
  }

  /** A response written with `res.status(status).json(body)`. */
  datatype Reply = Reply(status: int, body: Json)

  /** The parts of an Express request the gate reads and writes. */
  class Request {
    var headers: map<string, string>
    /** `req.user`; `None` while it is undefined. */
    var user: Option<Json>

    constructor (headers: map<string, string>)
      ensures this.headers == headers && user == None
    {
      this.headers := headers;
      user := None;
    }
  }

  /** An Express response, as the replies written to it. */
  class Response {
    var sent: seq<Reply>

    constructor ()
      ensures sent == []
    {
      sent := [];
    }

    method Send(status: int, body: Json)
      modifies this
      ensures sent == old(sent) + [Reply(status, body)]
    {
      sent := sent + [Reply(status, body)];
    }
  }

  /** The `next` callback, as the number of times it has been called. */
  class NextFunction {
    var calls: nat

    constructor ()
      ensures calls == 0
    {
      calls := 0;
    }

    method Call()
      modifies this
      ensures calls == old(calls) + 1
    {
      calls := calls + 1;
    }
  }

  /** `authenticateToken(req, res, next)` with the process environment `env`
      and the JWT library's `verify`. Exactly one of two things happens: one
      error response is written and nothing else changes, or `req.user` is set
      to the payload's user and `next` is called once. */
  method AuthenticateToken(req: Request, res: Response, next: NextFunction,
                           env: map<string, string>, verify: Verifier)
    modifies req`user, res, next
    ensures req.headers == old(req.headers)
    ensures match Authenticate(Lookup(env, JwtSecretKey), Lookup(req.headers, AuthorizationKey), verify)
            case Accept(user) =>
              req.user == Some(user) && next.calls == old(next.calls) + 1 && res.sent == old(res.sent)
            case Reject(status, error) =>
              req.user == old(req.user) && next.calls == old(next.calls)
              && res.sent == old(res.sent) + [Reply(status, ErrorBody(error))]
  {
    var secret := Lookup(env, JwtSecretKey);
    if !Present(secret) {
      res.Send(500, ErrorBody(InternalError));
      return;
    }

    var authHeader := Lookup(req.headers, AuthorizationKey);
    if !Present(authHeader) {
      res.Send(403, ErrorBody(MissingHeader));
      return;
    }

    if !Text.StartsWith(authHeader.value, BearerPrefix) {
      res.Send(403, ErrorBody(BadFormat));
      return;
    }

    var token := TokenOf(authHeader.value);
    if !Present(token) {
      res.Send(403, ErrorBody(MissingToken));
      return;
    }

    var verified := verify(token.value, secret.value);
    if verified.Failed? {
      res.Send(403, ErrorBody(InvalidToken));
      return;
    }

    var user := Property(verified.payload, "user");
    if user.Thrown? {
      res.Send(500, ErrorBody(InternalError));
      return;
    }
    if !(user.Value? && Truthy(user.value)) {
      res.Send(401, ErrorBody(InvalidUser));
      return;
    }

    req.user := Some(user.value);
    next.Call();
  }

  /** Without a signing secret the answer is 500, whatever the header and the token. */
  lemma SecretCheckedFirst(secret: Option<string>, header: Option<string>, verify: Verifier)
    requires !Present(secret)
    ensures Authenticate(secret, header, verify) == Reject(500, InternalError)
  {
  }

  /** With a secret but no (or an empty) header: 403 with the missing-header message. */
  lemma MissingHeaderRejected(secret: Option<string>, header: Option<string>, verify: Verifier)
    requires Present(secret) && !Present(header)
    ensures Authenticate(secret, header, verify) == Reject(403, MissingHeader)
  {
  }

  /** A header that does not begin with exactly `Bearer ` gets the format hint. */
  lemma WrongSchemeRejected(secret: Option<string>, header: string, verify: Verifier)
    requires Present(secret) && header != ""
    requires |header| < |BearerPrefix| || header[..|BearerPrefix|] != BearerPrefix
    ensures Authenticate(secret, Some(header), verify) == Reject(403, BadFormat)
  {
  }

  /** The scheme is matched case-sensitively: `bearer abc` and `Token abc` are refused
      with the format hint, not with the missing-header message. */
  lemma SchemeIsCaseSensitive(secret: Option<string>, verify: Verifier)
    requires Present(secret)
    ensures Authenticate(secret, Some("bearer abc"), verify) == Reject(403, BadFormat)
    ensures Authenticate(secret, Some("Token abc"), verify) == Reject(403, BadFormat)
  {
    assert "bearer abc"[..|BearerPrefix|][0] != BearerPrefix[0];
    WrongSchemeRejected(secret, "bearer abc", verify);
    assert "Token abc"[..|BearerPrefix|][0] != BearerPrefix[0];
    WrongSchemeRejected(secret, "Token abc", verify);
  }

  /** After the prefix, the token is the text up to the next space (or the end). */
  lemma TokenIsSecondPart(rest: string)
    ensures TokenOf(BearerPrefix + rest) == Some(Text.Split(rest, ' ')[0])
  {
    assert BearerPrefix + rest == "Bearer" + [' '] + rest;
    Text.SplitAfterPiece("Bearer", ' ', rest);
  }

  /** Every header that passes the scheme check has a token part, and that part
      is empty exactly when the prefix is followed by nothing or by another space. */
  lemma TokenEmptyIff(header: string)
    requires Text.StartsWith(header, BearerPrefix)
    ensures TokenOf(header).Some?
    ensures TokenOf(header).value == "" <==> |header| == |BearerPrefix| || header[|BearerPrefix|] == ' '
  {
    var rest := header[|BearerPrefix|..];
    assert header == BearerPrefix + rest by {
      assert header[..|BearerPrefix|] == BearerPrefix;
    }
    TokenIsSecondPart(rest);
    Text.FirstPartEmpty(rest, ' ');
    assert |header| == |BearerPrefix| <==> rest == [];
    assert rest != [] ==> header[|BearerPrefix|] == rest[0];
  }

  /** `Bearer ` and `Bearer  abc` carry an empty token; `Bearer a b` carries `a`. */
  lemma TokenExamples()
    ensures TokenOf("Bearer ") == Some("")
    ensures TokenOf("Bearer  abc") == Some("")
    ensures TokenOf("Bearer a b") == Some("a")
  {
    assert "Bearer " == BearerPrefix + "";
    TokenIsSecondPart("");
    assert "Bearer  abc" == BearerPrefix + " abc";
    TokenIsSecondPart(" abc");
    Text.FirstPartEmpty(" abc", ' ');
    assert "Bearer a b" == BearerPrefix + "a b";
    TokenIsSecondPart("a b");
    assert "a b" == "a" + [' '] + "b";
    Text.SplitAfterPiece("a", ' ', "b");
  }

  /** `Bearer a` carries the token `a`. */
  lemma SingleCharToken()
    ensures TokenOf("Bearer a") == Some("a")
  {
    assert "Bearer a" == BearerPrefix + "a";
    TokenIsSecondPart("a");
    Text.SplitNoSeparator("a", ' ');
  }

  /** A header with the right scheme but no usable token part is refused with the
      missing-token message; the verifier is not consulted. */
  lemma MissingTokenRejected(secret: Option<string>, header: string, verify: Verifier)
    requires Present(secret) && Text.StartsWith(header, BearerPrefix)
    requires !Present(TokenOf(header))
    ensures Authenticate(secret, Some(header), verify) == Reject(403, MissingToken)
  {
  }

  /** That happens exactly when nothing, or another space, follows `Bearer `. */
  lemma EmptyTokenRejected(secret: Option<string>, header: string, verify: Verifier)
    requires Present(secret) && Text.StartsWith(header, BearerPrefix)
    requires |header| == |BearerPrefix| || header[|BearerPrefix|] == ' '
    ensures Authenticate(secret, Some(header), verify) == Reject(403, MissingToken)
  {
    TokenEmptyIff(header);
    MissingTokenRejected(secret, header, verify);
  }

  /** Two well-schemed headers with the same token part are treated alike. */
  lemma OnlyTokenPartMatters(secret: Option<string>, h1: string, h2: string, verify: Verifier)
    requires Text.StartsWith(h1, BearerPrefix) && Text.StartsWith(h2, BearerPrefix)
    requires TokenOf(h1) == TokenOf(h2)
    ensures Authenticate(secret, Some(h1), verify) == Authenticate(secret, Some(h2), verify)
  {
  }

  /** `Bearer ` and `Bearer  abc` are refused for a missing token. */
  lemma EmptyTokenExamples(secret: Option<string>, verify: Verifier)
    requires Present(secret)
    ensures Authenticate(secret, Some("Bearer "), verify) == Reject(403, MissingToken)
    ensures Authenticate(secret, Some("Bearer  abc"), verify) == Reject(403, MissingToken)
  {
    TokenExamples();
    assert Text.StartsWith("Bearer ", BearerPrefix);
    MissingTokenRejected(secret, "Bearer ", verify);
    assert Text.StartsWith("Bearer  abc", BearerPrefix);
    MissingTokenRejected(secret, "Bearer  abc", verify);
  }

  /** `Bearer a b` is treated as `Bearer a`: everything after the token's first
      space is ignored. */
  lemma ExtraPartIgnored(secret: Option<string>, verify: Verifier)
    ensures Authenticate(secret, Some("Bearer a b"), verify) == Authenticate(secret, Some("Bearer a"), verify)
  {
    TokenExamples();
    SingleCharToken();
    assert Text.StartsWith("Bearer a b", BearerPrefix);
    assert Text.StartsWith("Bearer a", BearerPrefix);
    OnlyTokenPartMatters(secret, "Bearer a b", "Bearer a", verify);
  }

  /** Whenever one of the checks before verification fails, the verifier's
      answer cannot change the outcome: it is never consulted. */
  lemma VerifierConsultedLast(secret: Option<string>, header: Option<string>, v1: Verifier, v2: Verifier)
    requires !Present(secret) || !Present(header) || !Text.StartsWith(header.value, BearerPrefix)
             || !Present(TokenOf(header.value))
    ensures Authenticate(secret, header, v1) == Authenticate(secret, header, v2)
  {
  }

  /** A token the library refuses (bad signature, expired, not yet valid) gets 403. */
  lemma RefusedTokenRejected(secret: string, header: string, verify: Verifier)
    requires secret != "" && Text.StartsWith(header, BearerPrefix) && Present(TokenOf(header))
    requires verify(TokenOf(header).value, secret).Failed?
    ensures Authenticate(Some(secret), Some(header), verify) == Reject(403, InvalidToken)
  {
  }

  /** A token that verifies but whose payload has no truthy `user` is never accepted. */
  lemma UserRequired(secret: string, header: string, verify: Verifier)
    requires secret != "" && Text.StartsWith(header, BearerPrefix) && Present(TokenOf(header))
    requires verify(TokenOf(header).value, secret).Decoded?
    requires var p := verify(TokenOf(header).value, secret).payload;
             p != Null && !(Property(p, "user").Value? && Truthy(Property(p, "user").value))
    ensures Authenticate(Some(secret), Some(header), verify) == Reject(401, InvalidUser)
  {
  }

  /** A token that verifies to a `null` payload makes `payload.user` throw; the
      catch answers 500, not 401. */
  lemma NullPayloadIsInternalError(secret: string, token: string, verify: Verifier)
    requires secret != "" && token != "" && ' ' !in token
    requires verify(token, secret) == Decoded(Null)
    ensures Authenticate(Some(secret), Some(BearerPrefix + token), verify) == Reject(500, InternalError)
  {
    TokenIsSecondPart(token);
    Text.SplitNoSeparator(token, ' ');
  }

  /** A well-formed `Bearer <token>` header whose token the library accepts, with a
      truthy `user` in its payload, is accepted with exactly that user. */
  lemma AcceptsExactlyTheUser(secret: string, token: string, verify: Verifier, fields: map<string, Json>)
    requires secret != "" && token != "" && ' ' !in token
    requires verify(token, secret) == Decoded(Object(fields))
    requires "user" in fields && Truthy(fields["user"])
    ensures Authenticate(Some(secret), Some(BearerPrefix + token), verify) == Accept(fields["user"])
  {
    TokenIsSecondPart(token);
    Text.SplitNoSeparator(token, ' ');
  }

  /** Acceptance in full: the outcome is `Accept` exactly when every check passes. */
  lemma AcceptIff(secret: Option<string>, header: Option<string>, verify: Verifier)
    ensures Authenticate(secret, header, verify).Accept? <==>
              Present(secret) && Present(header) && Text.StartsWith(header.value, BearerPrefix)
              && Present(TokenOf(header.value))
              && verify(TokenOf(header.value).value, secret.value).Decoded?
              && var user := Property(verify(TokenOf(header.value).value, secret.value).payload, "user");
                 user.Value? && Truthy(user.value)
  {
  }
}
